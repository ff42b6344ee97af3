/** Matchmaking and sessions together: players enqueue, workers dequeue
    pairs and announce them one message at a time, and the sessions service turns
    each matched event that reaches it into a session, beside those users create
    for themselves. */
module MatchToSession {
  import opened Prelude
  import Q = MatchQueue
  import M = Matchmaking
  import S = Sessions

  /** A message on the bus: the dequeued pair it is about and which of its three announcements it is. */
  datatype Note = Note(pair: nat, k: nat, msg: M.Published)

  /** How far `ProcessOnce` has got with a pair: its two ids, the announcements made, and whether one failed. */
  datatype Talk = Talk(matchId: M.Id, corr: M.Id, said: nat, failed: bool)

  datatype Sys = Sys(
    q: Q.State,
    talks: map<nat, Talk>,            // pairs for which both ids were generated
    bus: seq<Note>,
    delivered: set<nat>,              // bus positions handed to the sessions service
    w: S.World,
    origin: map<S.Uuid, nat>)         // the bus position each session made for a match came from

  datatype Event =
    | Queue(e: Q.Event)
    | Begin(i: nat, matchId: M.Id, corr: M.Id)        // the ids for pair i
    | Say(i: nat, id: Option<M.Id>, up: bool)         // the next announcement of pair i
    | Deliver(j: nat, session: Option<S.Uuid>, f: S.Faults)
    | Direct(op: S.Op)                                // a user creates a session over HTTP

  function Init(workers: nat): Sys {
    Sys(Q.Init(workers), map[], [], {}, S.EMPTY, map[])
  }

  predicate PairIn(q: Q.State, i: nat) {
    i < |q.pairs| && q.pairs[i].0 < |q.history| && q.pairs[i].1 < |q.history|
  }

  /** What is to be announced for pair `i` under a match id. */
  function Sayings(q: Q.State, i: nat, matchId: M.Id): (r: seq<M.Body>)
    requires PairIn(q, i)
    ensures |r| == 3
  {
    M.Announcements(q.history[q.pairs[i].0], q.history[q.pairs[i].1], matchId)
  }

  /** Announcement `said` goes out when its event id is generated and the bus takes
      it; otherwise the rest is dropped. */
  function SayNext(s: Sys, i: nat, id: Option<M.Id>, up: bool): Sys
    requires i in s.talks && s.talks[i].said < 3 && PairIn(s.q, i)
  {
    var talk := s.talks[i];
    if id.Some? && up then
      s.(talks := s.talks[i := talk.(said := talk.said + 1)],
         bus := s.bus + [Note(i, talk.said,
                              M.Published(id.value, talk.corr, Sayings(s.q, i, talk.matchId)[talk.said]))])
    else s.(talks := s.talks[i := talk.(failed := true)])
  }

  /** The operation a matched event leads to. */
  function OpOf(n: Note, id: Option<S.Uuid>, f: S.Faults): S.Op
    requires n.msg.body.Matched?
  {
    S.ForMatch(n.msg.body.users, [], id, f)
  }

  ghost predicate Step(parse: S.Parse, s: Sys, e: Event, s': Sys) {
    match e
    case Queue(qe) => Q.Enabled(s.q, qe) && s' == s.(q := Q.Apply(s.q, qe))
    case Begin(i, matchId, corr) =>
      PairIn(s.q, i) && i !in s.talks && s' == s.(talks := s.talks[i := Talk(matchId, corr, 0, false)])
    case Say(i, id, up) =>
      && PairIn(s.q, i) && i in s.talks && s.talks[i].said < 3 && !s.talks[i].failed
      && s' == SayNext(s, i, id, up)
    case Deliver(j, id, f) =>
      && j < |s.bus| && j !in s.delivered && s.bus[j].msg.body.Matched?
      && var op := OpOf(s.bus[j], id, f);
         && S.WorldStep(parse, s.w, op, s'.w)
         && s' == s.(delivered := s.delivered + {j}, w := s'.w,
                     origin := if S.Takes(parse, s.w.db, op) then s.origin[id.value := j] else s.origin)
    case Direct(op) => op.ForUser? && S.WorldStep(parse, s.w, op, s'.w) && s' == s.(w := s'.w)
  }

  ghost predicate Run(parse: S.Parse, s: Sys, es: seq<Event>, t: Sys)
    decreases |es|
  {
    if es == [] then s == t
    else exists mid :: Step(parse, s, es[0], mid) && Run(parse, mid, es[1..], t)
  }

  /** After a failed announcement none of the pair's follows. */
  lemma FailedSayIsTheLast(parse: S.Parse, s: Sys, i: nat, id: Option<M.Id>, up: bool, s': Sys,
                           id': Option<M.Id>, up': bool, s'': Sys)
    requires Step(parse, s, Say(i, id, up), s') && (id.None? || !up)
    ensures s'.bus == s.bus && !Step(parse, s', Say(i, id', up'), s'')
  {
  }

  /** No push-back fails in the run. */
  predicate Kept(es: seq<Event>) {
    forall i :: 0 <= i < |es| && es[i].Queue? ==> Q.Kept(es[i].e)
  }

  // ---- the invariant ---------------------------------------------------------

  /** A note about pair `i` is announcement `k` of its two players, under the pair's
      ids, and it has been made. */
  ghost predicate NoteOk(q: Q.State, talks: map<nat, Talk>, n: Note) {
    && PairIn(q, n.pair)
    && n.pair in talks && n.k < talks[n.pair].said <= 3
    && n.msg.correlation == talks[n.pair].corr
    && n.msg.body == Sayings(q, n.pair, talks[n.pair].matchId)[n.k]
  }

  /** The announcements of one pair are on the bus in their order, none twice. */
  ghost predicate NotesRise(bus: seq<Note>) {
    forall j, l :: 0 <= j < l < |bus| && bus[j].pair == bus[l].pair ==> bus[j].k < bus[l].k
  }

  /** Announcement `k` of pair `i` is on the bus. */
  ghost predicate OnBus(bus: seq<Note>, i: nat, k: nat) {
    exists j :: 0 <= j < |bus| && bus[j].pair == i && bus[j].k == k
  }

  ghost predicate BusInv(s: Sys) {
    && (forall j :: 0 <= j < |s.bus| ==> NoteOk(s.q, s.talks, s.bus[j]))
    && NotesRise(s.bus)
    && (forall i, k: nat :: i in s.talks && k < s.talks[i].said ==> OnBus(s.bus, i, k))
    && (forall i :: i in s.talks ==> PairIn(s.q, i) && s.talks[i].said <= 3)
  }

  /** The member list `us` is that of the matched event at bus position `j`. */
  ghost predicate MadeFrom(parse: S.Parse, bus: seq<Note>, j: nat, us: seq<S.Uuid>) {
    && j < |bus| && bus[j].msg.body.Matched? && S.DistinctUuids(parse, bus[j].msg.body.users)
    && us == S.Uuids(parse, bus[j].msg.body.users)
  }

  /** Sessions come from delivered matched events, no two of them from the same
      event, or were created by their only member. */
  ghost predicate OriginInv(parse: S.Parse, bus: seq<Note>, delivered: set<nat>,
                            origin: map<S.Uuid, nat>, lists: map<S.Uuid, seq<S.Uuid>>) {
    && origin.Keys <= lists.Keys
    && (forall id :: id in origin ==> origin[id] in delivered && MadeFrom(parse, bus, origin[id], lists[id]))
    && (forall id, id' :: id in origin && id' in origin && id != id' ==> origin[id] != origin[id'])
    && (forall id :: id in lists && id !in origin ==> |lists[id]| == 1)
  }

  ghost predicate SessionInv(parse: S.Parse, s: Sys) {
    S.Consistent(s.w.db, s.w.lists) && OriginInv(parse, s.bus, s.delivered, s.origin, s.w.lists)
  }

  ghost predicate Inv(parse: S.Parse, s: Sys) {
    BusInv(s) && SessionInv(parse, s)
  }

  // ---- every step keeps it -----------------------------------------------------

  /** Tickets and dequeued pairs stay what they are. */
  ghost predicate Grows(q: Q.State, q': Q.State) {
    q.history <= q'.history && q.pairs <= q'.pairs
  }

  lemma QueueGrows(q: Q.State, e: Q.Event)
    requires Q.Enabled(q, e)
    ensures Grows(q, Q.Apply(q, e))
  {
  }

  lemma NoteStands(q: Q.State, q': Q.State, talks: map<nat, Talk>, n: Note)
    requires NoteOk(q, talks, n) && Grows(q, q')
    ensures NoteOk(q', talks, n)
  {
  }

  lemma QueueStep(parse: S.Parse, s: Sys, e: Q.Event, s': Sys)
    requires BusInv(s) && Step(parse, s, Queue(e), s')
    ensures BusInv(s')
  {
    QueueGrows(s.q, e);
    forall j | 0 <= j < |s.bus|
      ensures NoteOk(s'.q, s.talks, s.bus[j])
    {
      NoteStands(s.q, s'.q, s.talks, s.bus[j]);
    }
  }

  lemma BeginStep(parse: S.Parse, s: Sys, i: nat, matchId: M.Id, corr: M.Id, s': Sys)
    requires BusInv(s) && Step(parse, s, Begin(i, matchId, corr), s')
    ensures BusInv(s')
  {
    assert forall j :: 0 <= j < |s.bus| ==> NoteOk(s.q, s.talks, s.bus[j]);
  }

  /** One more note about pair `i`, the next in its order. */
  lemma OneMoreNote(bus: seq<Note>, n: Note)
    requires NotesRise(bus)
    requires forall j :: 0 <= j < |bus| && bus[j].pair == n.pair ==> bus[j].k < n.k
    ensures NotesRise(bus + [n])
    ensures forall i, k :: OnBus(bus, i, k) ==> OnBus(bus + [n], i, k)
    ensures OnBus(bus + [n], n.pair, n.k)
  {
    var bus' := bus + [n];
    assert bus'[|bus|] == n;
    forall i, k | OnBus(bus, i, k)
      ensures OnBus(bus', i, k)
    {
      var j :| 0 <= j < |bus| && bus[j].pair == i && bus[j].k == k;
      assert bus'[j] == bus[j];
    }
  }

  lemma SayStep(parse: S.Parse, s: Sys, i: nat, id: Option<M.Id>, up: bool, s': Sys)
    requires BusInv(s) && Step(parse, s, Say(i, id, up), s')
    ensures BusInv(s') && s.bus <= s'.bus
  {
    forall j | 0 <= j < |s.bus|
      ensures NoteOk(s.q, s'.talks, s.bus[j])
      ensures s.bus[j].pair == i ==> s.bus[j].k < s.talks[i].said
    {
      NoteKept(s.q, s.talks, i, s'.talks[i], s.bus[j]);
    }
    if id.Some? && up {
      OneMoreNote(s.bus, s'.bus[|s.bus|]);
      assert NoteOk(s.q, s'.talks, s'.bus[|s.bus|]);
    }
  }

  /** A pair's further announcements leave its notes right. */
  lemma NoteKept(q: Q.State, talks: map<nat, Talk>, i: nat, talk: Talk, n: Note)
    requires NoteOk(q, talks, n) && i in talks
    requires talk.matchId == talks[i].matchId && talk.corr == talks[i].corr && talks[i].said <= talk.said <= 3
    ensures NoteOk(q, talks[i := talk], n)
    ensures n.pair == i ==> n.k < talks[i].said
  {
  }

  lemma OriginStands(parse: S.Parse, bus: seq<Note>, bus': seq<Note>, delivered: set<nat>,
                     origin: map<S.Uuid, nat>, lists: map<S.Uuid, seq<S.Uuid>>)
    requires OriginInv(parse, bus, delivered, origin, lists) && bus <= bus'
    ensures OriginInv(parse, bus', delivered, origin, lists)
  {
    forall id | id in origin
      ensures MadeFrom(parse, bus', origin[id], lists[id])
    {
      assert MadeFrom(parse, bus, origin[id], lists[id]);
    }
  }

  lemma OriginAdd(parse: S.Parse, bus: seq<Note>, delivered: set<nat>, origin: map<S.Uuid, nat>,
                  lists: map<S.Uuid, seq<S.Uuid>>, j: nat, id: S.Uuid, us: seq<S.Uuid>)
    requires OriginInv(parse, bus, delivered, origin, lists)
    requires j !in delivered && id !in lists && MadeFrom(parse, bus, j, us)
    ensures OriginInv(parse, bus, delivered + {j}, origin[id := j], lists[id := us])
  {
  }

  lemma DeliverStep(parse: S.Parse, s: Sys, j: nat, id: Option<S.Uuid>, f: S.Faults, s': Sys)
    requires SessionInv(parse, s) && Step(parse, s, Deliver(j, id, f), s')
    ensures SessionInv(parse, s')
  {
    var us := s.bus[j].msg.body.users;
    var op := OpOf(s.bus[j], id, f);
    if S.Takes(parse, s.w.db, op) {
      S.ConsistentAdd(parse, s.w.db, op, s'.w.db, s.w.lists);
      assert S.OpMembers(op) == us;
      OriginAdd(parse, s.bus, s.delivered, s.origin, s.w.lists, j, id.value, S.Uuids(parse, us));
    }
  }

  lemma DirectStep(parse: S.Parse, s: Sys, op: S.Op, s': Sys)
    requires SessionInv(parse, s) && Step(parse, s, Direct(op), s')
    ensures SessionInv(parse, s')
  {
    if S.Takes(parse, s.w.db, op) {
      S.ConsistentAdd(parse, s.w.db, op, s'.w.db, s.w.lists);
    }
  }

  lemma InvStep(parse: S.Parse, s: Sys, e: Event, s': Sys)
    requires Inv(parse, s) && Step(parse, s, e, s')
    ensures Inv(parse, s')
  {
    match e
    case Queue(qe) => QueueStep(parse, s, qe, s');
    case Begin(i, matchId, corr) => BeginStep(parse, s, i, matchId, corr, s');
    case Say(i, id, up) =>
      SayStep(parse, s, i, id, up, s');
      OriginStands(parse, s.bus, s'.bus, s.delivered, s.origin, s.w.lists);
    case Deliver(j, id, f) => DeliverStep(parse, s, j, id, f, s');
    case Direct(op) => DirectStep(parse, s, op, s');
  }

  lemma {:induction false} InvRun(parse: S.Parse, s: Sys, es: seq<Event>, t: Sys)
    requires Inv(parse, s) && Run(parse, s, es, t)
    ensures Inv(parse, t)
    decreases |es|
  {
    if es != [] {
      var mid :| Step(parse, s, es[0], mid) && Run(parse, mid, es[1..], t);
      InvStep(parse, s, es[0], mid);
      InvRun(parse, mid, es[1..], t);
    }
  }

  // ---- main results --------------------------------------------------------------

  /** What the queue itself goes through. */
  function QueueEvents(es: seq<Event>): seq<Q.Event> {
    if es == [] then [] else (if es[0].Queue? then [es[0].e] else []) + QueueEvents(es[1..])
  }

  lemma QueueEventsCons(es: seq<Event>)
    requires es != []
    ensures QueueEvents(es) == if es[0].Queue? then [es[0].e] + QueueEvents(es[1..]) else QueueEvents(es[1..])
  {
  }

  lemma StepOfQueue(parse: S.Parse, s: Sys, e: Event, s': Sys)
    requires Step(parse, s, e, s')
    ensures if e.Queue? then Q.Enabled(s.q, e.e) && s'.q == Q.Apply(s.q, e.e) else s'.q == s.q
  {
  }

  lemma {:induction false} ProjectQueue(parse: S.Parse, s: Sys, es: seq<Event>, t: Sys)
    requires Run(parse, s, es, t)
    ensures Q.Run(s.q, QueueEvents(es), t.q)
    decreases |es|
  {
    if es != [] {
      var mid :| Step(parse, s, es[0], mid) && Run(parse, mid, es[1..], t);
      ProjectQueue(parse, mid, es[1..], t);
      QueueEventsCons(es);
      StepOfQueue(parse, s, es[0], mid);
      if es[0].Queue? {
        Q.RunCons(s.q, es[0].e, QueueEvents(es[1..]), t.q);
      }
    }
  }

  lemma {:induction false} KeptQueue(es: seq<Event>)
    requires Kept(es)
    ensures Q.AllKept(QueueEvents(es))
  {
    if es != [] {
      assert Kept(es[1..]);
      KeptQueue(es[1..]);
      QueueEventsCons(es);
    }
  }

  // ---- main results: any number of workers, any failures ---------------------------

  lemma Reachable(parse: S.Parse, workers: nat, es: seq<Event>, t: Sys)
    requires Run(parse, Init(workers), es, t)
    ensures Inv(parse, t)
  {
    assert BusInv(Init(workers)) && SessionInv(parse, Init(workers));
    InvRun(parse, Init(workers), es, t);
  }

  /** The note of pair A, B: the matched event of both, the message to A naming B, the message to B naming A. */
  ghost predicate NamesTheOther(q: Q.State, talks: map<nat, Talk>, n: Note) {
    && PairIn(q, n.pair) && n.pair in talks && n.k < 3
    && var (a, b, m) := (q.history[q.pairs[n.pair].0], q.history[q.pairs[n.pair].1], talks[n.pair].matchId);
       n.msg.body == if n.k == 0 then M.Matched(m, [a, b])
                     else if n.k == 1 then M.ToUser(a, m, b) else M.ToUser(b, m, a)
  }

  /** In every run, with any number of workers, any failures and anything in
      between: what is on the bus for a dequeued pair A, B is exactly a prefix of
      [matched, message to A naming B, message to B naming A], in that order and
      none twice, under one match id and one correlation id; for other pairs there
      is nothing. */
  lemma AnnouncedIsPrefix(parse: S.Parse, workers: nat, es: seq<Event>, t: Sys)
    requires Run(parse, Init(workers), es, t)
    ensures forall i :: i in t.talks ==> PairIn(t.q, i) && t.talks[i].said <= 3
    ensures forall j :: 0 <= j < |t.bus| ==> NoteOk(t.q, t.talks, t.bus[j])
    ensures forall j :: 0 <= j < |t.bus| ==> NamesTheOther(t.q, t.talks, t.bus[j])
    ensures NotesRise(t.bus)
    ensures forall i, k: nat :: OnBus(t.bus, i, k) <==> i in t.talks && k < t.talks[i].said
  {
    Reachable(parse, workers, es, t);
    forall j | 0 <= j < |t.bus|
      ensures NamesTheOther(t.q, t.talks, t.bus[j])
    {
      assert NoteOk(t.q, t.talks, t.bus[j]);
    }
    forall i, k: nat
      ensures OnBus(t.bus, i, k) <==> i in t.talks && k < t.talks[i].said
    {
      if OnBus(t.bus, i, k) {
        var j :| 0 <= j < |t.bus| && t.bus[j].pair == i && t.bus[j].k == k;
        assert NoteOk(t.q, t.talks, t.bus[j]);
      }
    }
  }

  /** The pair of players a session was made for. */
  ghost function PairOf(t: Sys, id: S.Uuid): nat
    requires id in t.origin && t.origin[id] < |t.bus|
  {
    t.bus[t.origin[id]].pair
  }

  /** The session's owner is player `a`, and player `b` is its only other member. */
  ghost predicate OfPlayers(parse: S.Parse, w: S.World, id: S.Uuid, a: string, b: string) {
    && parse(a).Some? && parse(b).Some? && parse(a) != parse(b)
    && id in w.db.sessions && w.db.sessions[id].owner == parse(a).value
    && forall u :: (id, u) in w.db.members <==> u == parse(a).value || u == parse(b).value
  }

  /** The session is that of dequeued pair `i`. */
  ghost predicate OfDequeued(parse: S.Parse, t: Sys, id: S.Uuid, i: nat) {
    PairIn(t.q, i) && OfPlayers(parse, t.w, id, t.q.history[t.q.pairs[i].0], t.q.history[t.q.pairs[i].1])
  }

  /** The session is that of the players of enqueues 2i and 2i + 1. */
  ghost predicate OfPair(parse: S.Parse, t: Sys, id: S.Uuid, i: nat) {
    2 * i + 1 < |t.q.history| && OfPlayers(parse, t.w, id, t.q.history[2 * i], t.q.history[2 * i + 1])
  }

  /** The session has its owner for only member. */
  ghost predicate Alone(t: Sys, id: S.Uuid) {
    && id in t.w.db.sessions
    && forall u :: (id, u) in t.w.db.members <==> u == t.w.db.sessions[id].owner
  }

  lemma SessionOfTwo(w: S.World, id: S.Uuid, us: seq<S.Uuid>)
    requires S.Consistent(w.db, w.lists) && id in w.lists && w.lists[id] == us && |us| == 2
    ensures id in w.db.sessions && w.db.sessions[id].owner == us[0]
    ensures forall u :: (id, u) in w.db.members <==> u == us[0] || u == us[1]
  {
    assert forall u :: u in us <==> u == us[0] || u == us[1];
  }

  lemma SessionOfOne(w: S.World, id: S.Uuid)
    requires S.Consistent(w.db, w.lists) && id in w.lists && |w.lists[id]| == 1
    ensures id in w.db.sessions
    ensures forall u :: (id, u) in w.db.members <==> u == w.db.sessions[id].owner
  {
    var us := w.lists[id];
    assert forall u :: u in us <==> u == us[0];
  }

  /** In every run, with any number of workers, any failures and any sessions users
      create for themselves: a session that came from a match has the two players of
      one dequeued pair for its members, the first of them for its owner, and no two
      come from the same pair; every other session has its owner for only member. */
  lemma SessionsAreDequeuedPairs(parse: S.Parse, workers: nat, es: seq<Event>, t: Sys, id: S.Uuid)
    requires Run(parse, Init(workers), es, t) && id in t.w.db.sessions
    ensures id !in t.origin ==> Alone(t, id)
    ensures id in t.origin ==> t.origin[id] < |t.bus| && OfDequeued(parse, t, id, PairOf(t, id))
    ensures id in t.origin ==>
              forall id' :: id' in t.origin && id' != id ==>
                t.origin[id'] < |t.bus| && PairOf(t, id') != PairOf(t, id)
  {
    Reachable(parse, workers, es, t);
    if id in t.origin {
      SessionShape(parse, t, id);
      forall id' | id' in t.origin && id' != id
        ensures t.origin[id'] < |t.bus| && PairOf(t, id') != PairOf(t, id)
      {
        DistinctPairs(parse, t, id, id');
      }
    } else {
      SessionOfOne(t.w, id);
    }
  }

  /** The two tickets of a dequeued pair. */
  function TicketsOf(q: Q.State, i: nat): set<Q.Ticket>
    requires i < |q.pairs|
  {
    {q.pairs[i].0, q.pairs[i].1}
  }

  /** So no enqueued ticket ever makes two sessions. */
  lemma NoTicketMakesTwoSessions(parse: S.Parse, workers: nat, es: seq<Event>, t: Sys, id: S.Uuid, id': S.Uuid)
    requires Run(parse, Init(workers), es, t) && id in t.origin && id' in t.origin && id != id'
    ensures t.origin[id] < |t.bus| && PairOf(t, id) < |t.q.pairs|
    ensures t.origin[id'] < |t.bus| && PairOf(t, id') < |t.q.pairs|
    ensures TicketsOf(t.q, PairOf(t, id)) !! TicketsOf(t.q, PairOf(t, id'))
  {
    Reachable(parse, workers, es, t);
    DistinctPairs(parse, t, id, id');
    SessionShape(parse, t, id);
    SessionShape(parse, t, id');
    ProjectQueue(parse, Init(workers), es, t);
    Q.NoTicketMatchedTwice(workers, QueueEvents(es), t.q);
    DisjointTickets(t.q, PairOf(t, id), PairOf(t, id'));
  }

  lemma DisjointTickets(q: Q.State, i: nat, j: nat)
    requires i < |q.pairs| && j < |q.pairs| && i != j
    requires forall k, l :: 0 <= k < l < |Q.Flat(q.pairs)| ==> Q.Flat(q.pairs)[k] != Q.Flat(q.pairs)[l]
    ensures TicketsOf(q, i) !! TicketsOf(q, j)
  {
    var f := Q.Flat(q.pairs);
    var lo, hi := if i < j then i else j, if i < j then j else i;
    assert f[2 * lo] != f[2 * hi] && f[2 * lo] != f[2 * hi + 1];
    assert f[2 * lo + 1] != f[2 * hi] && f[2 * lo + 1] != f[2 * hi + 1];
  }

  // ---- one worker and no failed push-back: the players are neighbours ------------------

  lemma PairsAreAdjacent(parse: S.Parse, es: seq<Event>, t: Sys)
    requires Run(parse, Init(1), es, t) && Kept(es)
    ensures 2 * |t.q.pairs| <= |t.q.history| && Q.InOrder(t.q)
  {
    ProjectQueue(parse, Init(1), es, t);
    KeptQueue(es);
    Q.OneWorkerRefinesFifo(QueueEvents(es), t.q);
  }

  /** With one worker and no failed push-back, every message is about two players
      adjacent in the enqueue history. */
  lemma AnnouncedPlayersAreAdjacent(parse: S.Parse, es: seq<Event>, t: Sys, j: nat)
    requires Run(parse, Init(1), es, t) && Kept(es) && j < |t.bus|
    ensures var i := t.bus[j].pair;
            && 2 * i + 1 < |t.q.history| && i in t.talks && t.bus[j].k < 3
            && var (a, b, m) := (t.q.history[2 * i], t.q.history[2 * i + 1], t.talks[i].matchId);
               t.bus[j].msg.body == if t.bus[j].k == 0 then M.Matched(m, [a, b])
                                    else if t.bus[j].k == 1 then M.ToUser(a, m, b) else M.ToUser(b, m, a)
  {
    AnnouncedIsPrefix(parse, 1, es, t);
    PairsAreAdjacent(parse, es, t);
    assert NamesTheOther(t.q, t.talks, t.bus[j]);
  }

  /** With one worker and no failed push-back, any failed announcements, any database
      failures and any sessions users create for themselves: a session that came
      from a match has two players adjacent in the enqueue history for its members,
      the earlier one for its owner, and no two come from the same pair; every other
      session has its owner for only member. */
  lemma SessionsAreAdjacentPairs(parse: S.Parse, es: seq<Event>, t: Sys, id: S.Uuid)
    requires Run(parse, Init(1), es, t) && Kept(es) && id in t.w.db.sessions
    ensures id !in t.origin ==> Alone(t, id)
    ensures id in t.origin ==> t.origin[id] < |t.bus| && OfPair(parse, t, id, PairOf(t, id))
    ensures id in t.origin ==>
              forall id' :: id' in t.origin && id' != id ==>
                t.origin[id'] < |t.bus| && PairOf(t, id') != PairOf(t, id)
  {
    SessionsAreDequeuedPairs(parse, 1, es, t, id);
    PairsAreAdjacent(parse, es, t);
  }

  /** Seen from the tables alone: any session with a member besides its owner is
      that of a dequeued pair, and with one worker and no failed push-back of two
      players adjacent in the enqueue history. */
  lemma SharedSessionsAreMatches(parse: S.Parse, workers: nat, es: seq<Event>, t: Sys, id: S.Uuid, u: S.Uuid)
    requires Run(parse, Init(workers), es, t) && (id, u) in t.w.db.members
    ensures id in t.w.db.sessions
    ensures u != t.w.db.sessions[id].owner ==> exists i: nat :: OfDequeued(parse, t, id, i)
    ensures u != t.w.db.sessions[id].owner && workers == 1 && Kept(es) ==> exists i: nat :: OfPair(parse, t, id, i)
  {
    Reachable(parse, workers, es, t);
    SessionsAreDequeuedPairs(parse, workers, es, t, id);
    if workers == 1 && Kept(es) {
      SessionsAreAdjacentPairs(parse, es, t, id);
    }
  }

  // ---- behind them -------------------------------------------------------------------

  lemma DistinctPairs(parse: S.Parse, t: Sys, id: S.Uuid, id': S.Uuid)
    requires Inv(parse, t) && id in t.origin && id' in t.origin && id' != id
    ensures t.origin[id] < |t.bus|
    ensures t.origin[id'] < |t.bus| && PairOf(t, id') != PairOf(t, id)
  {
    assert MadeFrom(parse, t.bus, t.origin[id], t.w.lists[id]);
    assert MadeFrom(parse, t.bus, t.origin[id'], t.w.lists[id']);
    MatchedIsFirst(t, t.origin[id]);
    MatchedIsFirst(t, t.origin[id']);
  }

  /** The matched event is a pair's announcement 0 and names the two players. */
  lemma MatchedIsFirst(t: Sys, j: nat)
    requires BusInv(t) && j < |t.bus| && t.bus[j].msg.body.Matched?
    ensures t.bus[j].k == 0 && PairIn(t.q, t.bus[j].pair)
    ensures var (us, p) := (t.bus[j].msg.body.users, t.q.pairs[t.bus[j].pair]);
            |us| == 2 && us[0] == t.q.history[p.0] && us[1] == t.q.history[p.1]
  {
    assert NoteOk(t.q, t.talks, t.bus[j]);
  }

  lemma SessionShape(parse: S.Parse, t: Sys, id: S.Uuid)
    requires Inv(parse, t) && id in t.origin
    ensures t.origin[id] < |t.bus| && OfDequeued(parse, t, id, PairOf(t, id))
  {
    var us := OriginOf(parse, t, id);
    SessionOfPlayers(parse, t.w, id, us);
  }

  /** The member texts of a session made for a match. */
  lemma OriginOf(parse: S.Parse, t: Sys, id: S.Uuid) returns (us: seq<string>)
    requires BusInv(t) && OriginInv(parse, t.bus, t.delivered, t.origin, t.w.lists) && id in t.origin
    ensures t.origin[id] < |t.bus| && PairIn(t.q, PairOf(t, id)) && |us| == 2
    ensures var p := t.q.pairs[PairOf(t, id)]; us[0] == t.q.history[p.0] && us[1] == t.q.history[p.1]
    ensures id in t.w.lists && S.DistinctUuids(parse, us) && t.w.lists[id] == S.Uuids(parse, us)
  {
    var j := t.origin[id];
    assert MadeFrom(parse, t.bus, j, t.w.lists[id]);
    MatchedIsFirst(t, j);
    us := t.bus[j].msg.body.users;
  }

  lemma SessionOfPlayers(parse: S.Parse, w: S.World, id: S.Uuid, us: seq<string>)
    requires S.Consistent(w.db, w.lists) && id in w.lists && S.DistinctUuids(parse, us) && |us| == 2
    requires w.lists[id] == S.Uuids(parse, us)
    ensures OfPlayers(parse, w, id, us[0], us[1])
  {
    SessionOfTwo(w, id, S.Uuids(parse, us));
  }

  /** Two members are insertable exactly when the id is unused and they differ as UUIDs. */
  lemma InsertableTwo(parse: S.Parse, w: S.World, id: S.Uuid, a: string, b: string)
    requires S.Consistent(w.db, w.lists) && parse(a).Some? && parse(b).Some? && id !in w.db.sessions
    ensures S.Insertable(parse, w.db, id, a, [a, b]) <==> parse(a) != parse(b)
  {
    var us := [a, b];
    assert us[0] == a && us[1] == b;
    assert S.DistinctUuids(parse, us) <==> parse(a) != parse(b);
    assert forall u :: (id, u) !in w.db.members;
  }

  /** In every run, whatever the number of workers and the failures before: delivering
      a matched event with the database up, a fresh session id and
      well-formed player ids makes the session exactly when the two ids differ as
      UUIDs, with the first player its owner; otherwise both tables stay as they were. */
  lemma DeliveryMakesSessionIffPlayersDiffer(parse: S.Parse, workers: nat, es: seq<Event>, s: Sys,
                                             j: nat, id: S.Uuid, f: S.Faults, s': Sys)
    requires Run(parse, Init(workers), es, s)
    requires Step(parse, s, Deliver(j, Some(id), f), s')
    requires S.AllUp(f, 2) && id !in s.w.db.sessions
    requires forall u | u in s.bus[j].msg.body.users :: parse(u).Some?
    ensures PairIn(s.q, s.bus[j].pair)
    ensures var p := s.q.pairs[s.bus[j].pair];
            var (a, b) := (s.q.history[p.0], s.q.history[p.1]);
            && parse(a).Some? && parse(b).Some?
            && (parse(a) != parse(b) ==>
                  S.Adds(parse, s.w.db, s'.w.db, id, a, "created", [a, b]))
            && (parse(a) == parse(b) ==> s'.w.db == s.w.db)
  {
    Reachable(parse, workers, es, s);
    MatchedIsFirst(s, j);
    var us := s.bus[j].msg.body.users;
    assert us[0] in us && us[1] in us && us == [us[0], us[1]];
    InsertableTwo(parse, s.w, id, us[0], us[1]);
    assert S.OpMembers(OpOf(s.bus[j], Some(id), f)) == us;
  }

  // ---- the announcements of one uninterrupted ProcessOnce -----------------------

  function Messages(bus: seq<Note>): (ms: seq<M.Published>)
    ensures |ms| == |bus|
  {
    seq(|bus|, i requires 0 <= i < |bus| => bus[i].msg)
  }

  /** The events from `Say` number `k` of pair `i` up to the first failure. */
  function SayEvents(i: nat, env: M.Env, k: nat): seq<Event>
    requires k <= 3
    decreases 3 - k
  {
    if k == 3 then []
    else [Say(i, env.eventId(k), env.busUp(k))] + if M.GoesOut(env, k) then SayEvents(i, env, k + 1) else []
  }

  function ProcessEvents(i: nat, env: M.Env): seq<Event> {
    if env.matchId.None? || env.correlation.None? then []
    else [Begin(i, env.matchId.value, env.correlation.value)] + SayEvents(i, env, 0)
  }

  lemma RunCons(parse: S.Parse, s: Sys, e: Event, mid: Sys, rest: seq<Event>, t: Sys)
    requires Step(parse, s, e, mid) && Run(parse, mid, rest, t)
    ensures Run(parse, s, [e] + rest, t)
  {
    assert ([e] + rest)[1..] == rest;
  }

  /** Announcements `from` to `to` (exclusive) of the pair's players, each under its own event id. */
  ghost predicate Says(before: seq<M.Published>, after: seq<M.Published>, bodies: seq<M.Body>,
                       corr: M.Id, env: M.Env, from: nat, to: nat)
    requires |bodies| == 3
  {
    && from <= to <= 3 && |after| == |before| + (to - from) && after[..|before|] == before
    && forall k :: from <= k < to ==>
         env.eventId(k).Some?
         && after[|before| + (k - from)] == M.Published(env.eventId(k).value, corr, bodies[k])
  }

  lemma SaysMore(before: seq<M.Published>, msg: M.Published, after: seq<M.Published>, bodies: seq<M.Body>,
                 corr: M.Id, env: M.Env, from: nat, to: nat)
    requires |bodies| == 3 && from < 3 && env.eventId(from).Some?
    requires msg == M.Published(env.eventId(from).value, corr, bodies[from])
    requires Says(before + [msg], after, bodies, corr, env, from + 1, to)
    ensures Says(before, after, bodies, corr, env, from, to)
  {
    assert after[..|before| + 1][..|before|] == before;
    assert after[|before|] == after[..|before| + 1][|before|] == msg;
    forall k | from < k < to
      ensures env.eventId(k).Some?
      ensures after[|before| + (k - from)] == M.Published(env.eventId(k).value, corr, bodies[k])
    {
      assert |before + [msg]| + (k - (from + 1)) == |before| + (k - from);
    }
  }

  lemma {:induction false} SayRun(parse: S.Parse, s: Sys, i: nat, env: M.Env, k: nat) returns (t: Sys)
    requires PairIn(s.q, i) && i in s.talks && s.talks[i].said == k <= 3 && !s.talks[i].failed
    requires env.matchId.Some? && env.correlation.Some? && forall l :: 0 <= l < k ==> M.GoesOut(env, l)
    ensures Run(parse, s, SayEvents(i, env, k), t) && t.q == s.q && t.w == s.w
    ensures Says(Messages(s.bus), Messages(t.bus), Sayings(s.q, i, s.talks[i].matchId), s.talks[i].corr,
                 env, k, M.Announced(env))
    decreases 3 - k
  {
    if k == 3 {
      t := s;
    } else {
      var e := Say(i, env.eventId(k), env.busUp(k));
      var mid := SayNext(s, i, env.eventId(k), env.busUp(k));
      if M.GoesOut(env, k) {
        t := SayRun(parse, mid, i, env, k + 1);
        var msg := mid.bus[|s.bus|].msg;
        assert Messages(mid.bus) == Messages(s.bus) + [msg];
        SaysMore(Messages(s.bus), msg, Messages(t.bus), Sayings(s.q, i, s.talks[i].matchId), s.talks[i].corr,
                 env, k, M.Announced(env));
        RunCons(parse, s, e, mid, SayEvents(i, env, k + 1), t);
      } else {
        t := mid;
        RunCons(parse, s, e, mid, [], t);
      }
    }
  }

  /** The events of one pair, with none in between, put on the bus exactly what
      `ProcessOnce` publishes for its two players. */
  lemma EventsAreProcessOnce(parse: S.Parse, s: Sys, i: nat, env: M.Env)
    requires PairIn(s.q, i) && i !in s.talks
    ensures exists t :: Run(parse, s, ProcessEvents(i, env), t) && t.q == s.q && t.w == s.w
              && M.Announces(Messages(s.bus), Messages(t.bus),
                             s.q.history[s.q.pairs[i].0], s.q.history[s.q.pairs[i].1], env)
  {
    if env.matchId.None? || env.correlation.None? {
      assert Run(parse, s, [], s);
    } else {
      var t := ProcessRun(parse, s, i, env);
    }
  }

  lemma ProcessRun(parse: S.Parse, s: Sys, i: nat, env: M.Env) returns (t: Sys)
    requires PairIn(s.q, i) && i !in s.talks && env.matchId.Some? && env.correlation.Some?
    ensures Run(parse, s, ProcessEvents(i, env), t) && t.q == s.q && t.w == s.w
    ensures M.Announces(Messages(s.bus), Messages(t.bus),
                        s.q.history[s.q.pairs[i].0], s.q.history[s.q.pairs[i].1], env)
  {
    var e := Begin(i, env.matchId.value, env.correlation.value);
    var mid := s.(talks := s.talks[i := Talk(env.matchId.value, env.correlation.value, 0, false)]);
    t := SayRun(parse, mid, i, env, 0);
    RunCons(parse, s, e, mid, SayEvents(i, env, 0), t);
    SaysAll(Messages(s.bus), Messages(t.bus), s.q.history[s.q.pairs[i].0], s.q.history[s.q.pairs[i].1], env);
  }

  lemma SaysAll(before: seq<M.Published>, after: seq<M.Published>, a: M.User, b: M.User, env: M.Env)
    requires env.matchId.Some? && env.correlation.Some?
    requires Says(before, after, M.Announcements(a, b, env.matchId.value), env.correlation.value,
                  env, 0, M.Announced(env))
    ensures M.Announces(before, after, a, b, env)
  {
  }
}
