/** What of the messages threads ask to send gets onto the wire: each thread's own,
    in the order it asked, and which of its calls succeeded. */
module GatewayDelivery {
  import opened Prelude
  import opened Bytes
  import opened WsConn
  import opened GatewayConnection
  import Rfc = Rfc6455

  // ---- subsequences ----------------------------------------------------------

  /** `a` is `b` with some entries left out. */
  predicate Subsequence<T(==)>(a: seq<T>, b: seq<T>) {
    a == [] ||
    (b != []
     && ((a[|a| - 1] == b[|b| - 1] && Subsequence(a[..|a| - 1], b[..|b| - 1])) || Subsequence(a, b[..|b| - 1])))
  }

  lemma SubsequenceSnoc<T>(a: seq<T>, b: seq<T>, x: T)
    requires Subsequence(a, b)
    ensures Subsequence(a + [x], b + [x]) && Subsequence(a, b + [x])
  {
    assert (a + [x])[..|a|] == a && (b + [x])[..|b|] == b;
  }

  lemma {:induction false} SubsequenceDrop<T>(a: seq<T>, x: T, b: seq<T>)
    requires Subsequence(a + [x], b)
    ensures Subsequence(a, b)
    decreases |b|
  {
    var c := b[..|b| - 1];
    assert (a + [x])[..|a|] == a && b == c + [b[|b| - 1]];
    if Subsequence(a + [x], c) {
      SubsequenceDrop(a, x, c);
    }
    SubsequenceSnoc(a, c, b[|b| - 1]);
  }

  // ---- asked and sent ----------------------------------------------------------

  /** What an event asks thread `u` to send: a sender's text, the ping goroutine's
      ping, or the read loop's pong. */
  function Asks(c: Codec, s: State, e: Event, u: Tid): seq<Msg> {
    match e
    case Send(t, payload) => if t == u then [Msg(Rfc.TEXT, payload)] else []
    case Tick => if u == PINGER then [Msg(Rfc.PING, PING_PAYLOAD)] else []
    case Read =>
      var o := c.read(s.unread);
      if u == READER && o.Got? && o.msg.opcode == Rfc.PING then [Msg(Rfc.PONG, o.msg.payload)] else []
    case _ => []
  }

  /** Everything thread `u` was asked to send in a run, in order. */
  function Asked(c: Codec, s: State, es: seq<Event>, u: Tid): seq<Msg>
    decreases |es|
  {
    if es == [] || !Enabled(c, s, es[0]) then [] else Asks(c, s, es[0], u) + Asked(c, Apply(c, s, es[0]), es[1..], u)
  }

  /** The completed messages of thread `u`, in the order of the wire. */
  function SentBy(sent: seq<Msg>, senders: seq<Tid>, u: Tid): seq<Msg>
    requires |sent| == |senders|
  {
    if sent == [] then []
    else
      var n := |sent| - 1;
      SentBy(sent[..n], senders[..n], u) + if senders[n] == u then [sent[n]] else []
  }

  lemma SentBySnoc(sent: seq<Msg>, senders: seq<Tid>, m: Msg, t: Tid, u: Tid)
    requires |sent| == |senders|
    ensures SentBy(sent + [m], senders + [t], u) == SentBy(sent, senders, u) + if t == u then [m] else []
  {
    assert (sent + [m])[..|sent|] == sent && (senders + [t])[..|sent|] == senders;
  }

  /** The message thread has in hand whose frame is not yet complete. */
  function InHand(c: Codec, th: Thread): seq<Msg> {
    if th.WantCc? || th.WantConn? || (th.Writing? && th.done < |c.frame(th.m)|) then [th.m] else []
  }

  /** Its frame is complete but the write has not returned. */
  function Returning(c: Codec, th: Thread): nat {
    if th.Writing? && th.done >= |c.frame(th.m)| then 1 else 0
  }

  /** Calls of thread `u` that have returned without an error. */
  function Successes(es: seq<Event>, u: Tid): nat {
    if es == [] then 0 else (if es[0] == Do(u, FinishWrite) then 1 else 0) + Successes(es[1..], u)
  }

  /** Thread `u` was asked for `asked`; `returned` of its calls have succeeded. */
  ghost predicate Account(c: Codec, s: State, u: Tid, asked: seq<Msg>, returned: nat) {
    && |s.sent| == |s.senders|
    && var (mine, held) := (SentBy(s.sent, s.senders, u), InHand(c, Th(s, u)));
       && |mine| == returned + Returning(c, Th(s, u))
       && Subsequence(mine + held, asked)
       && (!s.failed ==> mine + held == asked)
  }

  // ---- every event keeps it ------------------------------------------------------

  lemma ActOthers(c: Codec, s: State, t: Tid, a: Action, u: Tid)
    requires CanDo(c, s, t, a) && u != t
    ensures Th(Act(c, s, t, a), u) == Th(s, u) && (s.failed ==> Act(c, s, t, a).failed)
  {
  }

  /** Only an accepted last byte adds to what was sent. */
  lemma ActSent(c: Codec, s: State, t: Tid, a: Action)
    requires CanDo(c, s, t, a) && !a.Accept?
    ensures Act(c, s, t, a).sent == s.sent && Act(c, s, t, a).senders == s.senders
  {
  }

  lemma AsksActor(c: Codec, s: State, e: Event, u: Tid)
    requires u != Actor(e)
    ensures Asks(c, s, e, u) == [] && e != Do(u, FinishWrite)
  {
  }

  /** Steps that start something: the message goes into the thread's hand. */
  lemma StartHand(c: Codec, s: State, e: Event)
    requires Enabled(c, s, e) && !e.Do?
    ensures var (u, s') := (Actor(e), Apply(c, s, e));
            && InHand(c, Th(s', u)) == InHand(c, Th(s, u)) + Asks(c, s, e, u)
            && |Asks(c, s, e, u)| <= 1
            && Returning(c, Th(s', u)) == Returning(c, Th(s, u)) && s'.failed == s.failed
  {
  }

  /** A message more in hand and asked for, or none. */
  lemma OneMore(a: seq<Msg>, held: seq<Msg>, next: seq<Msg>, asked: seq<Msg>)
    requires Subsequence(a + held, asked) && |next| <= 1
    ensures Subsequence(a + (held + next), asked + next)
    ensures a + held == asked ==> a + (held + next) == asked + next
  {
    assert a + (held + next) == (a + held) + next;
    if next == [] {
      assert asked + next == asked && held + next == held;
    } else {
      SubsequenceSnoc(a + held, asked, next[0]);
      assert next == [next[0]];
    }
  }

  lemma StartAccount(c: Codec, s: State, e: Event, asked: seq<Msg>, returned: nat)
    requires Enabled(c, s, e) && !e.Do? && Account(c, s, Actor(e), asked, returned)
    ensures Account(c, Apply(c, s, e), Actor(e), asked + Asks(c, s, e, Actor(e)), returned)
  {
    var u := Actor(e);
    StartHand(c, s, e);
    StartStands(c, s, e);
    OneMore(SentBy(s.sent, s.senders, u), InHand(c, Th(s, u)), Asks(c, s, e, u), asked);
  }

  lemma AcceptAccount(c: Codec, s: State, t: Tid, k: nat, asked: seq<Msg>, returned: nat)
    requires CanDo(c, s, t, Accept(k)) && Account(c, s, t, asked, returned)
    ensures Account(c, Act(c, s, t, Accept(k)), t, asked, returned)
  {
    SentBySnoc(s.sent, s.senders, Th(s, t).m, t, t);
    var mine := SentBy(s.sent, s.senders, t);
    assert (mine + [Th(s, t).m]) + [] == mine + [Th(s, t).m];
  }

  /** The other actions keep what is in hand, complete a call, or drop the message with an error. */
  lemma ActHand(c: Codec, s: State, t: Tid, a: Action)
    requires Lawful(c) && CanDo(c, s, t, a) && !a.Accept?
    ensures var s' := Act(c, s, t, a);
            && (a.FailWrite? || InHand(c, Th(s', t)) == InHand(c, Th(s, t)))
            && (a.FailWrite? ==> |InHand(c, Th(s, t))| == 1 && InHand(c, Th(s', t)) == [] && s'.failed)
            && Returning(c, Th(s, t)) == Returning(c, Th(s', t)) + (if a.FinishWrite? then 1 else 0)
            && (s.failed ==> s'.failed)
  {
  }

  lemma ActAccount(c: Codec, s: State, t: Tid, a: Action, asked: seq<Msg>, returned: nat)
    requires Lawful(c) && CanDo(c, s, t, a) && !a.Accept? && Account(c, s, t, asked, returned)
    ensures Account(c, Act(c, s, t, a), t, asked, returned + if a.FinishWrite? then 1 else 0)
  {
    ActHand(c, s, t, a);
    ActSent(c, s, t, a);
    if a.FailWrite? {
      var mine, held := SentBy(s.sent, s.senders, t), InHand(c, Th(s, t));
      assert held == [held[0]] && mine + [] == mine;
      SubsequenceDrop(mine, held[0], asked);
    }
  }

  lemma OtherAccount(c: Codec, s: State, e: Event, u: Tid, asked: seq<Msg>, returned: nat)
    requires Enabled(c, s, e) && u != Actor(e) && Account(c, s, u, asked, returned)
    ensures Account(c, Apply(c, s, e), u, asked, returned)
  {
    if !e.Do? {
      StartStands(c, s, e);
      StartLocal(c, s, e, Actor(e));
    } else {
      ActOthers(c, s, e.t, e.a, u);
      if e.a.Accept? {
        SentBySnoc(s.sent, s.senders, Th(s, e.t).m, e.t, u);
        assert SentBy(s.sent, s.senders, u) + [] == SentBy(s.sent, s.senders, u);
      } else {
        ActSent(c, s, e.t, e.a);
      }
    }
  }

  lemma AccountStep(c: Codec, s: State, e: Event, u: Tid, asked: seq<Msg>, returned: nat)
    requires Lawful(c) && Enabled(c, s, e) && Account(c, s, u, asked, returned)
    ensures Account(c, Apply(c, s, e), u, asked + Asks(c, s, e, u),
                    returned + if e == Do(u, FinishWrite) then 1 else 0)
  {
    assert asked + [] == asked;
    if u != Actor(e) {
      AsksActor(c, s, e, u);
      OtherAccount(c, s, e, u, asked, returned);
    } else if !e.Do? {
      StartAccount(c, s, e, asked, returned);
    } else if e.a.Accept? {
      AcceptAccount(c, s, u, e.a.k, asked, returned);
    } else {
      ActAccount(c, s, u, e.a, asked, returned);
    }
  }

  lemma AskedCons(c: Codec, s: State, es: seq<Event>, u: Tid, asked: seq<Msg>)
    requires es != [] && Enabled(c, s, es[0])
    ensures asked + Asks(c, s, es[0], u) + Asked(c, Apply(c, s, es[0]), es[1..], u) == asked + Asked(c, s, es, u)
  {
    var now, later := Asks(c, s, es[0], u), Asked(c, Apply(c, s, es[0]), es[1..], u);
    assert asked + now + later == asked + (now + later);
  }

  lemma {:induction false} AccountRun(c: Codec, s: State, es: seq<Event>, t: State, u: Tid,
                                      asked: seq<Msg>, returned: nat)
    requires Lawful(c) && Run(c, s, es, t) && Account(c, s, u, asked, returned)
    ensures Account(c, t, u, asked + Asked(c, s, es, u), returned + Successes(es, u))
    decreases |es|
  {
    if es == [] {
      assert asked + [] == asked;
    } else {
      AskedCons(c, s, es, u, asked);
      var e, s' := es[0], Apply(c, s, es[0]);
      AccountStep(c, s, e, u, asked, returned);
      AccountRun(c, s', es[1..], t, u, asked + Asks(c, s, e, u),
                 returned + if e == Do(u, FinishWrite) then 1 else 0);
    }
  }

  // ---- main results ----------------------------------------------------------------

  /** In every run and for every thread: its completed messages, in the order of the
      wire, are some of those it was asked to send, in the order it was asked; they
      are all of them but the one in hand as long as no write has failed; and they
      are as many as its calls that returned without an error, plus the one that is
      about to. */
  lemma SentIsAsked(c: Codec, input: seq<byte>, es: seq<Event>, t: State, u: Tid)
    requires Lawful(c) && Run(c, Init(input), es, t)
    ensures |t.sent| == |t.senders|
    ensures var (mine, asked) := (SentBy(t.sent, t.senders, u), Asked(c, Init(input), es, u));
            && Subsequence(mine, asked)
            && (!t.failed ==> mine + InHand(c, Th(t, u)) == asked)
            && |mine| == Successes(es, u) + Returning(c, Th(t, u))
  {
    assert Account(c, Init(input), u, [], 0);
    AccountRun(c, Init(input), es, t, u, [], 0);
    var asked := Asked(c, Init(input), es, u);
    var mine, held := SentBy(t.sent, t.senders, u), InHand(c, Th(t, u));
    assert [] + asked == asked;
    if held == [] {
      assert mine + held == mine;
    } else {
      assert held == [held[0]];
      SubsequenceDrop(mine, held[0], asked);
    }
  }

  /** What the client decodes, read with the thread each message came from: unless a
      write failed part-way, each thread's messages arrive in the order it was asked
      to send them, one for every call that returned without an error and for one
      that is about to. */
  lemma TextsArriveInOrder(input: seq<byte>, es: seq<Event>, t: State, u: Tid)
    requires Run(GATEWAY, Init(input), es, t) && !t.torn
    ensures var got := Messages(Rfc.DecodeAll(t.wire).0);
            && |got| == |t.senders|
            && Subsequence(SentBy(got, t.senders, u), Asked(GATEWAY, Init(input), es, u))
            && |SentBy(got, t.senders, u)| == Successes(es, u) + Returning(GATEWAY, Th(t, u))
  {
    GatewayLawful();
    SentIsAsked(GATEWAY, input, es, t, u);
    WireIsWholeFrames(input, es, t);
  }
}
