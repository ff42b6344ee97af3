/** The matchmaking queue: a Redis list from which a worker pops up to two
    entries and, when it got only one, pushes that one back at the head.
    First the code as a class; then the protocol as a state machine in which
    enqueues and any number of workers interleave between pop and push-back. */
module MatchQueue {
  import opened Prelude

  type User = string
  datatype RedisError = RedisError

  // ---- the code, uninterrupted -------------------------------------------

  /** List contents and returned value after `DequeuePair`; `popUp` and `pushUp`
      say whether the two Redis commands succeed. */
  function DequeueSpec(list: seq<User>, popUp: bool, pushUp: bool): (seq<User>, Result<seq<User>, RedisError>) {
    if !popUp then (list, Err(RedisError))
    else if |list| >= 2 then (list[2..], Ok(list[..2]))
    else if |list| == 1 && !pushUp then ([], Err(RedisError))
    else (list, Ok([]))
  }

  class RedisQueue {
    var list: seq<User>

    constructor ()
      ensures list == []
    {
      list := [];
    }

    /** RPUSH. */
    method Enqueue(u: User, up: bool) returns (ok: bool)
      modifies this
      ensures ok == up
      ensures list == old(list) + if up then [u] else []
    {
      if up { list := list + [u]; }
      ok := up;
    }

    /** LPOP with a count: `None` is the nil reply for an empty list. */
    method LPopCount(n: nat, up: bool) returns (r: Result<Option<seq<User>>, RedisError>)
      modifies this
      ensures !up ==> r == Err(RedisError) && list == old(list)
      ensures up && old(list) == [] ==> r == Ok(None) && list == []
      ensures up && old(list) != [] ==>
                var k := if n <= |old(list)| then n else |old(list)|;
                r == Ok(Some(old(list)[..k])) && list == old(list)[k..]
    {
      if !up { return Err(RedisError); }
      if list == [] { return Ok(None); }
      var k := if n <= |list| then n else |list|;
      r := Ok(Some(list[..k]));
      list := list[k..];
    }

    /** LPUSH. */
    method LPush(u: User, up: bool) returns (ok: bool)
      modifies this
      ensures ok == up
      ensures list == (if up then [u] else []) + old(list)
    {
      if up { list := [u] + list; }
      ok := up;
    }

    method DequeuePair(popUp: bool, pushUp: bool) returns (r: Result<seq<User>, RedisError>)
      modifies this
      ensures (list, r) == DequeueSpec(old(list), popUp, pushUp)
      ensures !popUp ==> r == Err(RedisError) && list == old(list)
      ensures popUp && |old(list)| >= 2 ==> r == Ok(old(list)[..2]) && list == old(list)[2..]
      ensures popUp && |old(list)| < 2 ==>
                if |old(list)| == 1 && !pushUp then r == Err(RedisError) && list == []
                else r == Ok([]) && list == old(list)
    {
      var popped := LPopCount(2, popUp);
      if popped.Err? { return Err(popped.error); }
      if popped.value.None? { return Ok([]); }
      var ids := popped.value.value;
      if |ids| == 1 {
        var ok := LPush(ids[0], pushUp);
        if !ok { return Err(RedisError); }
        assert list == old(list);
        return Ok([]);
      }
      if |ids| < 2 { return Ok([]); }
      return Ok(ids);
    }
  }

  // ---- the protocol --------------------------------------------------------

  /** A ticket is the number of the enqueue that created it. */
  type Ticket = nat
  type Worker = nat

  datatype State = State(
    history: seq<User>,               // every successful enqueue, in order
    list: seq<Ticket>,                // the Redis list
    hands: seq<seq<Ticket>>,          // what each worker holds between pop and push-back
    pairs: seq<(Ticket, Ticket)>,     // dequeued pairs, in order
    lost: seq<Ticket>)                // dropped by a failed push-back (or a crash before it)

  datatype Event =
    | Enqueue(u: User)
    | Pop(w: Worker)                  // a worker calls LPOP and it succeeds
    | PopFail(w: Worker)
    | PushBack(w: Worker, up: bool)

  function EmptyHands(n: nat): (hs: seq<seq<Ticket>>)
    ensures |hs| == n && forall i :: 0 <= i < n ==> hs[i] == []
  {
    seq(n, _ => [])
  }

  function Init(workers: nat): State {
    State([], [], EmptyHands(workers), [], [])
  }

  predicate Enabled(s: State, e: Event) {
    match e
    case Enqueue(_) => true
    case Pop(w) => w < |s.hands| && s.hands[w] == []
    case PopFail(w) => w < |s.hands| && s.hands[w] == []
    case PushBack(w, _) => w < |s.hands| && s.hands[w] != []
  }

  function Apply(s: State, e: Event): State
    requires Enabled(s, e)
  {
    match e
    case Enqueue(u) => s.(history := s.history + [u], list := s.list + [|s.history|])
    case Pop(w) =>
      if |s.list| >= 2 then s.(list := s.list[2..], pairs := s.pairs + [(s.list[0], s.list[1])])
      else s.(list := [], hands := s.hands[w := s.list])
    case PopFail(_) => s
    case PushBack(w, up) =>
      if up then s.(list := s.hands[w] + s.list, hands := s.hands[w := []])
      else s.(lost := s.lost + s.hands[w], hands := s.hands[w := []])
  }

  ghost predicate Run(s: State, es: seq<Event>, t: State)
    decreases |es|
  {
    if es == [] then s == t
    else Enabled(s, es[0]) && Run(Apply(s, es[0]), es[1..], t)
  }

  function Concat(ss: seq<seq<Ticket>>): seq<Ticket> {
    if ss == [] then [] else ss[0] + Concat(ss[1..])
  }

  /** The tickets of the dequeued pairs, in dequeue order. */
  function Flat(ps: seq<(Ticket, Ticket)>): (r: seq<Ticket>)
    ensures |r| == 2 * |ps|
    ensures forall i :: 0 <= i < |ps| ==> r[2 * i] == ps[i].0 && r[2 * i + 1] == ps[i].1
  {
    if ps == [] then [] else Flat(ps[..|ps| - 1]) + [ps[|ps| - 1].0, ps[|ps| - 1].1]
  }

  function Upto(n: nat): seq<Ticket> {
    seq(n, i requires 0 <= i => i)
  }

  // ---- any number of workers, any failures: conservation ---------------------

  /** In how many places ticket `k` is. */
  ghost function Places(s: State, k: Ticket): nat {
    multiset(s.list)[k] + multiset(Concat(s.hands))[k] + multiset(Flat(s.pairs))[k] + multiset(s.lost)[k]
  }

  ghost predicate Conserved(s: State) {
    forall k: Ticket :: Places(s, k) == if k < |s.history| then 1 else 0
  }

  lemma {:induction false} ConcatUpdate(ss: seq<seq<Ticket>>, w: nat, x: seq<Ticket>, k: Ticket)
    requires w < |ss|
    ensures multiset(Concat(ss[w := x]))[k] + multiset(ss[w])[k] == multiset(Concat(ss))[k] + multiset(x)[k]
  {
    if w == 0 {
      assert ss[w := x][1..] == ss[1..];
    } else {
      assert ss[w := x][1..] == ss[1..][w - 1 := x];
      ConcatUpdate(ss[1..], w - 1, x, k);
    }
  }

  lemma FlatSnoc(ps: seq<(Ticket, Ticket)>, p: (Ticket, Ticket))
    ensures Flat(ps + [p]) == Flat(ps) + [p.0, p.1]
  {
    assert (ps + [p])[..|ps|] == ps;
  }

  lemma PlacesPop(s: State, w: Worker, k: Ticket)
    requires Enabled(s, Pop(w))
    ensures Places(Apply(s, Pop(w)), k) == Places(s, k)
  {
    if |s.list| >= 2 {
      assert s.list == [s.list[0], s.list[1]] + s.list[2..];
      FlatSnoc(s.pairs, (s.list[0], s.list[1]));
    } else {
      ConcatUpdate(s.hands, w, s.list, k);
    }
  }

  lemma PlacesPushBack(s: State, w: Worker, up: bool, k: Ticket)
    requires Enabled(s, PushBack(w, up))
    ensures Places(Apply(s, PushBack(w, up)), k) == Places(s, k)
  {
    ConcatUpdate(s.hands, w, [], k);
  }

  /** Only an enqueue changes the count, and only that of the new ticket. */
  lemma PlacesStep(s: State, e: Event, k: Ticket)
    requires Enabled(s, e)
    ensures Places(Apply(s, e), k) == Places(s, k) + if e.Enqueue? && k == |s.history| then 1 else 0
  {
    match e
    case Enqueue(u) =>
    case Pop(w) => PlacesPop(s, w, k);
    case PopFail(_) =>
    case PushBack(w, up) => PlacesPushBack(s, w, up, k);
  }

  lemma ConserveStep(s: State, e: Event)
    requires Conserved(s) && Enabled(s, e)
    ensures Conserved(Apply(s, e))
  {
    var s' := Apply(s, e);
    assert |s'.history| == |s.history| + if e.Enqueue? then 1 else 0;
    forall k: Ticket
      ensures Places(s', k) == if k < |s'.history| then 1 else 0
    {
      PlacesStep(s, e, k);
    }
  }

  lemma {:induction false} ConserveRun(s: State, es: seq<Event>, t: State)
    requires Conserved(s) && Run(s, es, t)
    ensures Conserved(t)
    decreases |es|
  {
    if es != [] {
      ConserveStep(s, es[0]);
      ConserveRun(Apply(s, es[0]), es[1..], t);
    }
  }

  lemma {:induction false} ConcatEmpty(ss: seq<seq<Ticket>>)
    requires forall i :: 0 <= i < |ss| ==> ss[i] == []
    ensures Concat(ss) == []
  {
    if ss != [] {
      ConcatEmpty(ss[1..]);
    }
  }

  /** With any number of workers, any interleaving and any failures, every ticket
      ever enqueued is in exactly one place: the list, one worker's hand, one
      dequeued pair, or lost; nothing else is anywhere. */
  lemma ExactlyOnePlace(workers: nat, es: seq<Event>, t: State, k: Ticket)
    requires Run(Init(workers), es, t)
    ensures multiset(t.list)[k] + multiset(Concat(t.hands))[k] + multiset(Flat(t.pairs))[k] + multiset(t.lost)[k]
            == if k < |t.history| then 1 else 0
  {
    ConcatEmpty(EmptyHands(workers));
    ConserveRun(Init(workers), es, t);
    assert Places(t, k) == if k < |t.history| then 1 else 0;
  }

  lemma {:induction false} SeqOccurrences<T>(s: seq<T>, i: nat, j: nat)
    requires i < j < |s| && s[i] == s[j]
    ensures multiset(s)[s[i]] >= 2
  {
    assert s == s[..i] + [s[i]] + s[i + 1..];
    assert s[j] == s[i + 1..][j - i - 1];
  }

  /** No ticket is matched twice. */
  lemma NoTicketMatchedTwice(workers: nat, es: seq<Event>, t: State)
    requires Run(Init(workers), es, t)
    ensures forall i, j :: 0 <= i < j < |Flat(t.pairs)| ==> Flat(t.pairs)[i] != Flat(t.pairs)[j]
    ensures forall i :: 0 <= i < |Flat(t.pairs)| ==> Flat(t.pairs)[i] < |t.history|
  {
    var f := Flat(t.pairs);
    forall i, j | 0 <= i < j < |f|
      ensures f[i] != f[j]
    {
      ExactlyOnePlace(workers, es, t, f[i]);
      if f[i] == f[j] {
        SeqOccurrences(f, i, j);
      }
    }
    forall i | 0 <= i < |f|
      ensures f[i] < |t.history|
    {
      ExactlyOnePlace(workers, es, t, f[i]);
      assert f[i] in multiset(f);
    }
  }

  // ---- one worker: first in, first out ---------------------------------------

  /** A push-back that fails is the only event that breaks the order with one worker. */
  predicate Kept(e: Event) {
    e.PushBack? ==> e.up
  }

  predicate AllKept(es: seq<Event>) {
    forall i :: 0 <= i < |es| ==> Kept(es[i])
  }

  /** Enqueue history = dequeued pairs, then the held ticket if any, then the list. */
  ghost predicate Fifo(s: State) {
    |s.hands| == 1 && Upto(|s.history|) == Flat(s.pairs) + s.hands[0] + s.list
    && (s.hands[0] != [] ==> |s.hands[0]| == 1)
  }

  lemma FifoEnqueue(s: State, u: User)
    requires Fifo(s)
    ensures Fifo(Apply(s, Enqueue(u)))
  {
    assert Upto(|s.history| + 1) == Upto(|s.history|) + [|s.history|];
    assert Flat(s.pairs) + s.hands[0] + s.list + [|s.history|] == Flat(s.pairs) + s.hands[0] + (s.list + [|s.history|]);
  }

  lemma FifoPopTwo(s: State)
    requires Fifo(s) && Enabled(s, Pop(0)) && |s.list| >= 2
    ensures Fifo(Apply(s, Pop(0)))
  {
    FlatSnoc(s.pairs, (s.list[0], s.list[1]));
    assert Flat(s.pairs) + [] + s.list == Flat(s.pairs) + [s.list[0], s.list[1]] + [] + s.list[2..];
  }

  lemma FifoPopOne(s: State)
    requires Fifo(s) && Enabled(s, Pop(0)) && |s.list| < 2
    ensures Fifo(Apply(s, Pop(0)))
  {
    assert Flat(s.pairs) + [] + s.list == Flat(s.pairs) + s.list + [];
  }

  lemma FifoPushBack(s: State)
    requires Fifo(s) && Enabled(s, PushBack(0, true))
    ensures Fifo(Apply(s, PushBack(0, true)))
  {
    assert Flat(s.pairs) + s.hands[0] + s.list == Flat(s.pairs) + [] + (s.hands[0] + s.list);
  }

  lemma FifoStep(s: State, e: Event)
    requires Fifo(s) && Enabled(s, e) && Kept(e)
    ensures Fifo(Apply(s, e))
  {
    match e
    case Enqueue(u) => FifoEnqueue(s, u);
    case Pop(w) =>
      if |s.list| >= 2 {
        FifoPopTwo(s);
      } else {
        FifoPopOne(s);
      }
    case PopFail(_) =>
    case PushBack(w, up) => FifoPushBack(s);
  }

  /** Pair number i is tickets 2i and 2i + 1. */
  lemma FifoPairs(s: State)
    requires Fifo(s)
    ensures 2 * |s.pairs| <= |s.history|
    ensures forall i :: 0 <= i < |s.pairs| ==> s.pairs[i] == (2 * i, 2 * i + 1)
  {
    var f := Flat(s.pairs);
    assert f == Upto(|s.history|)[..|f|];
    forall i | 0 <= i < |s.pairs|
      ensures s.pairs[i] == (2 * i, 2 * i + 1)
    {
      assert f[2 * i] == 2 * i && f[2 * i + 1] == 2 * i + 1;
    }
  }

  // ---- refinement of the atomic queue ------------------------------------------

  /** The queue the unit tests use: enqueue appends, dequeue takes two or nothing. */
  datatype Atomic = Atomic(users: seq<User>, matched: seq<(User, User)>)

  function AtomicApply(q: Atomic, e: Event): Atomic {
    match e
    case Enqueue(u) => q.(users := q.users + [u])
    case Pop(_) =>
      if |q.users| < 2 then q
      else Atomic(q.users[2..], q.matched + [(q.users[0], q.users[1])])
    case _ => q
  }

  function AtomicRun(q: Atomic, es: seq<Event>): Atomic
    decreases |es|
  {
    if es == [] then q else AtomicRun(AtomicApply(q, es[0]), es[1..])
  }

  predicate InRange(history: seq<User>, ts: seq<Ticket>) {
    forall i :: 0 <= i < |ts| ==> ts[i] < |history|
  }

  function Users(history: seq<User>, ts: seq<Ticket>): (r: seq<User>)
    requires InRange(history, ts)
    ensures |r| == |ts|
  {
    seq(|ts|, i requires 0 <= i < |ts| => history[ts[i]])
  }

  ghost predicate InRangeState(s: State) {
    && |s.hands| == 1 && InRange(s.history, s.hands[0] + s.list)
    && forall i :: 0 <= i < |s.pairs| ==> s.pairs[i].0 < |s.history| && s.pairs[i].1 < |s.history|
  }

  lemma FifoInRange(s: State)
    requires Fifo(s)
    ensures InRangeState(s)
  {
    var all := Flat(s.pairs) + s.hands[0] + s.list;
    assert forall i :: 0 <= i < |all| ==> all[i] == i;
    forall i | 0 <= i < |s.pairs|
      ensures s.pairs[i].0 < |s.history| && s.pairs[i].1 < |s.history|
    {
      assert Flat(s.pairs)[2 * i] == all[2 * i] && Flat(s.pairs)[2 * i + 1] == all[2 * i + 1];
    }
    var waiting := s.hands[0] + s.list;
    forall i | 0 <= i < |waiting|
      ensures waiting[i] < |s.history|
    {
      assert waiting[i] == all[|Flat(s.pairs)| + i];
    }
  }

  /** The abstract queue: the held ticket goes in front of the list. */
  ghost function Abs(s: State): Atomic
    requires InRangeState(s)
  {
    Atomic(Users(s.history, s.hands[0] + s.list),
           seq(|s.pairs|, i requires 0 <= i < |s.pairs| => (s.history[s.pairs[i].0], s.history[s.pairs[i].1])))
  }

  lemma RefineEnqueue(s: State, u: User)
    requires InRangeState(s) && InRangeState(Apply(s, Enqueue(u)))
    ensures Abs(Apply(s, Enqueue(u))) == AtomicApply(Abs(s), Enqueue(u))
  {
    var s' := Apply(s, Enqueue(u));
    assert s'.hands[0] + s'.list == (s.hands[0] + s.list) + [|s.history|];
    assert Abs(s').users == Abs(s).users + [u];
    assert Abs(s').matched == Abs(s).matched;
  }

  lemma RefinePop(s: State)
    requires InRangeState(s) && Enabled(s, Pop(0)) && InRangeState(Apply(s, Pop(0)))
    ensures Abs(Apply(s, Pop(0))) == AtomicApply(Abs(s), Pop(0))
  {
    var s' := Apply(s, Pop(0));
    assert s.hands[0] + s.list == s.list;
    if |s.list| >= 2 {
      assert s'.hands[0] + s'.list == s.list[2..];
      assert Abs(s').users == Abs(s).users[2..];
      assert Abs(s').matched == Abs(s).matched + [(Abs(s).users[0], Abs(s).users[1])];
    } else {
      assert s'.hands[0] + s'.list == s.list;
    }
  }

  /** Each event is one step of the atomic queue or no step: the pop is where
      `DequeuePair` takes effect, the push-back is invisible. */
  lemma RefineStep(s: State, e: Event)
    requires Fifo(s) && Enabled(s, e) && Kept(e)
    ensures InRangeState(s) && InRangeState(Apply(s, e))
    ensures Abs(Apply(s, e)) == AtomicApply(Abs(s), e)
  {
    FifoStep(s, e);
    FifoInRange(s);
    FifoInRange(Apply(s, e));
    match e
    case Enqueue(u) => RefineEnqueue(s, u);
    case Pop(w) => RefinePop(s);
    case PopFail(_) =>
    case PushBack(w, up) =>
      assert [] + (s.hands[0] + s.list) == s.hands[0] + s.list;
  }

  lemma {:induction false} RefineRun(s: State, es: seq<Event>, t: State)
    requires Fifo(s) && Run(s, es, t) && AllKept(es)
    ensures Fifo(t) && InRangeState(s) && InRangeState(t)
    ensures Abs(t) == AtomicRun(Abs(s), es)
    decreases |es|
  {
    FifoInRange(s);
    if es != [] {
      FifoStep(s, es[0]);
      RefineStep(s, es[0]);
      RefineRun(Apply(s, es[0]), es[1..], t);
    }
  }

  /** One worker, no failed push-back, any interleaving of enqueues: in every
      reachable state the history is the pairs, the held ticket and the list in
      that order, and the queue behaves as the atomic queue run on the same events. */
  lemma OneWorkerRefinesFifo(es: seq<Event>, t: State)
    requires Run(Init(1), es, t) && AllKept(es)
    ensures |t.hands| == 1 && Upto(|t.history|) == Flat(t.pairs) + t.hands[0] + t.list
    ensures InRangeState(t) && Abs(t) == AtomicRun(Atomic([], []), es)
    ensures forall i :: 0 <= i < |t.pairs| ==> t.pairs[i] == (2 * i, 2 * i + 1)
    ensures 2 * |t.pairs| <= |t.history|
  {
    assert Fifo(Init(1));
    RefineRun(Init(1), es, t);
    assert Abs(Init(1)) == Atomic([], []);
    FifoPairs(t);
  }

  /** Tickets over all places, counted. */
  function Total(s: State): nat {
    |s.list| + |Concat(s.hands)| + |Flat(s.pairs)| + |s.lost|
  }

  lemma TotalStep(s: State, e: Event)
    requires |s.hands| == 1 && Enabled(s, e)
    ensures Total(Apply(s, e)) - |Apply(s, e).history| == Total(s) - |s.history|
    ensures |Apply(s, e).lost| >= |s.lost| && (!Kept(e) ==> Apply(s, e).lost != [])
  {
    assert Concat(s.hands) == s.hands[0];
    assert Concat(Apply(s, e).hands) == Apply(s, e).hands[0];
  }

  lemma {:induction false} TotalRun(s: State, es: seq<Event>, t: State)
    requires |s.hands| == 1 && Run(s, es, t)
    ensures |t.hands| == 1 && Total(t) - |t.history| == Total(s) - |s.history|
    ensures |t.lost| >= |s.lost| && (!AllKept(es) ==> t.lost != [])
    decreases |es|
  {
    if es != [] {
      TotalStep(s, es[0]);
      TotalRun(Apply(s, es[0]), es[1..], t);
    }
  }

  /** With one worker the order holds exactly in the runs without a failed push-back. */
  lemma OneWorkerFifoExactly(es: seq<Event>, t: State)
    requires Run(Init(1), es, t)
    ensures Fifo(t) <==> AllKept(es)
  {
    ConcatEmpty(EmptyHands(1));
    TotalRun(Init(1), es, t);
    if AllKept(es) {
      assert Fifo(Init(1));
      RefineRun(Init(1), es, t);
    } else {
      assert Concat(t.hands) == t.hands[0];
      assert |Upto(|t.history|)| > |Flat(t.pairs) + t.hands[0] + t.list|;
    }
  }

  /** Without interleaving, pop and push-back do to the list what `DequeuePair` does. */
  lemma UninterruptedDequeue(s: State, pushUp: bool)
    requires InRange(s.history, s.list) && Enabled(s, Pop(0))
    ensures var t := Apply(s, Pop(0));
            var u := if t.hands[0] != [] then Apply(t, PushBack(0, pushUp)) else t;
            var (list, r) := DequeueSpec(Users(s.history, s.list), true, pushUp);
            && InRange(s.history, u.list) && Users(u.history, u.list) == list
            && (u.pairs != s.pairs ==>
                  u.pairs == s.pairs + [(s.list[0], s.list[1])]
                  && r == Ok([s.history[s.list[0]], s.history[s.list[1]]]))
            && (u.pairs == s.pairs <==> r == Ok([]) || r.Err?)
            && (u.lost != s.lost <==> r.Err?)
  {
    var users := Users(s.history, s.list);
    if |s.list| >= 2 {
      assert users[2..] == Users(s.history, s.list[2..]);
      assert users[..2] == [s.history[s.list[0]], s.history[s.list[1]]];
    } else if |s.list| == 1 {
      assert s.list + [] == s.list;
      assert users != [];
    }
  }

  /** Pair number i is tickets 2i and 2i + 1. */
  ghost predicate InOrder(t: State) {
    forall i :: 0 <= i < |t.pairs| ==> t.pairs[i] == (2 * i, 2 * i + 1)
  }

  predicate AllEmpty(hands: seq<seq<Ticket>>) {
    forall w :: 0 <= w < |hands| ==> hands[w] == []
  }

  /** No pop while a worker still holds a ticket: `DequeuePair` calls do not overlap there. */
  ghost predicate Exclusive(s: State, es: seq<Event>)
    decreases |es|
  {
    es == [] || (Enabled(s, es[0]) && (es[0].Pop? ==> AllEmpty(s.hands)) && Exclusive(Apply(s, es[0]), es[1..]))
  }

  /** Only worker `w` may hold a ticket. */
  ghost predicate OnlyHolder(hands: seq<seq<Ticket>>, w: Worker) {
    forall v :: 0 <= v < |hands| && v != w ==> hands[v] == []
  }

  /** The order among any number of workers of whom at most one holds a ticket. */
  ghost predicate FifoAmong(s: State) {
    && Upto(|s.history|) == Flat(s.pairs) + Concat(s.hands) + s.list
    && exists w :: OnlyHolder(s.hands, w)
  }

  lemma {:induction false} ConcatOne(hands: seq<seq<Ticket>>, w: Worker)
    requires OnlyHolder(hands, w)
    ensures Concat(hands) == if w < |hands| then hands[w] else []
  {
    if hands != [] {
      if w == 0 {
        ConcatEmpty(hands[1..]);
      } else {
        assert hands[0] == [];
        assert OnlyHolder(hands[1..], w - 1);
        ConcatOne(hands[1..], w - 1);
      }
    }
  }

  lemma AmongPop(s: State, w: Worker)
    requires FifoAmong(s) && Enabled(s, Pop(w)) && AllEmpty(s.hands)
    ensures FifoAmong(Apply(s, Pop(w)))
  {
    var s' := Apply(s, Pop(w));
    assert OnlyHolder(s'.hands, w);
    ConcatEmpty(s.hands);
    ConcatOne(s'.hands, w);
    MoveFront(Flat(s.pairs), s.list);
    if |s.list| >= 2 {
      FlatSnoc(s.pairs, (s.list[0], s.list[1]));
    }
  }

  /** Where the tickets of a pop go does not change their order. */
  lemma MoveFront(done: seq<Ticket>, list: seq<Ticket>)
    ensures done + [] + list == done + list + []
    ensures |list| >= 2 ==> done + [] + list == done + [list[0], list[1]] + [] + list[2..]
  {
  }

  lemma AmongPushBack(s: State, w: Worker)
    requires FifoAmong(s) && Enabled(s, PushBack(w, true))
    ensures FifoAmong(Apply(s, PushBack(w, true)))
  {
    var s' := Apply(s, PushBack(w, true));
    var v :| OnlyHolder(s.hands, v);
    assert v == w;
    assert OnlyHolder(s'.hands, w);
    ConcatOne(s.hands, w);
    ConcatOne(s'.hands, w);
    PutFront(Flat(s.pairs), s.hands[w], s.list);
  }

  lemma PutFront(done: seq<Ticket>, held: seq<Ticket>, list: seq<Ticket>)
    ensures done + held + list == done + [] + (held + list)
  {
  }

  lemma AmongEnqueue(s: State, u: User)
    requires FifoAmong(s)
    ensures FifoAmong(Apply(s, Enqueue(u)))
  {
    var held := Concat(s.hands);
    assert Upto(|s.history| + 1) == Upto(|s.history|) + [|s.history|];
    assert Flat(s.pairs) + held + s.list + [|s.history|] == Flat(s.pairs) + held + (s.list + [|s.history|]);
  }

  lemma {:induction false} AmongRun(s: State, es: seq<Event>, t: State)
    requires FifoAmong(s) && Run(s, es, t) && AllKept(es) && Exclusive(s, es)
    ensures FifoAmong(t)
    decreases |es|
  {
    if es != [] {
      match es[0] {
        case Enqueue(u) => AmongEnqueue(s, u);
        case Pop(w) => AmongPop(s, w);
        case PopFail(_) =>
        case PushBack(w, up) => AmongPushBack(s, w);
      }
      AmongRun(Apply(s, es[0]), es[1..], t);
    }
  }

  /** Any number of workers keep the order as long as none pops while another holds
      a ticket and no push-back fails. */
  lemma ExclusiveWorkersKeepFifo(workers: nat, es: seq<Event>, t: State)
    requires Run(Init(workers), es, t) && AllKept(es) && Exclusive(Init(workers), es)
    ensures Upto(|t.history|) == Flat(t.pairs) + Concat(t.hands) + t.list
    ensures InOrder(t)
  {
    ConcatEmpty(EmptyHands(workers));
    assert OnlyHolder(EmptyHands(workers), 0);
    AmongRun(Init(workers), es, t);
    var all := Flat(t.pairs) + Concat(t.hands) + t.list;
    forall i | 0 <= i < |t.pairs|
      ensures t.pairs[i] == (2 * i, 2 * i + 1)
    {
      assert Flat(t.pairs)[2 * i] == all[2 * i] && Flat(t.pairs)[2 * i + 1] == all[2 * i + 1];
    }
  }

  /** One worker cannot get in its own way. */
  lemma {:induction false} LoneWorkerIsExclusive(s: State, es: seq<Event>, t: State)
    requires |s.hands| <= 1 && Run(s, es, t)
    ensures Exclusive(s, es)
    decreases |es|
  {
    if es != [] {
      LoneWorkerIsExclusive(Apply(s, es[0]), es[1..], t);
    }
  }

  /** Every run of so many workers in which no push-back fails dequeues in order. */
  ghost predicate AlwaysInOrder(workers: nat) {
    forall es, t :: Run(Init(workers), es, t) && AllKept(es) ==> InOrder(t)
  }

  /** The queue is first in, first out for at most one worker and for no larger number. */
  lemma InOrderIffAtMostOneWorker(workers: nat)
    ensures AlwaysInOrder(workers) <==> workers <= 1
  {
    if workers <= 1 {
      forall es, t | Run(Init(workers), es, t) && AllKept(es)
        ensures InOrder(t)
      {
        LoneWorkerIsExclusive(Init(workers), es, t);
        ExclusiveWorkersKeepFifo(workers, es, t);
      }
    } else {
      TwoWorkersBreakFifo(workers, "a", "b", "c");
      var es, t :| Run(Init(workers), es, t) && AllKept(es) && t.pairs == [(1, 2)] && t.list == [0];
      assert t.pairs[0] != (2 * 0, 2 * 0 + 1);
    }
  }

  /** A pop that fails changes nothing, and `DequeuePair` then reports the error. */
  lemma FailedDequeue(s: State, pushUp: bool)
    requires InRange(s.history, s.list) && Enabled(s, PopFail(0))
    ensures var users := Users(s.history, s.list);
            Apply(s, PopFail(0)) == s && DequeueSpec(users, false, pushUp) == (users, Err(RedisError))
  {
  }

  /** Two workers, among any number, are enough to lose the order: one holds the
      first player while the other matches the two who came later. */
  lemma TwoWorkersBreakFifo(workers: nat, a: User, b: User, c: User)
    requires workers >= 2
    ensures exists es, t :: Run(Init(workers), es, t) && AllKept(es) && t.pairs == [(1, 2)] && t.list == [0]
  {
    var s0 := Init(workers);
    var e0, e1, e2, e3, e4, e5 := Enqueue(a), Pop(0), Enqueue(b), Enqueue(c), Pop(1), PushBack(0, true);
    var s1 := Apply(s0, e0);
    var s2 := Apply(s1, e1);
    var s3 := Apply(s2, e2);
    var s4 := Apply(s3, e3);
    var s5 := Apply(s4, e4);
    var s6 := Apply(s5, e5);
    assert Run(s6, [], s6);
    RunCons(s5, e5, [], s6);
    RunCons(s4, e4, [e5], s6);
    RunCons(s3, e3, [e4, e5], s6);
    RunCons(s2, e2, [e3, e4, e5], s6);
    RunCons(s1, e1, [e2, e3, e4, e5], s6);
    RunCons(s0, e0, [e1, e2, e3, e4, e5], s6);
    assert AllKept([e0] + [e1, e2, e3, e4, e5]);
  }

  lemma RunCons(s: State, e: Event, rest: seq<Event>, t: State)
    requires Enabled(s, e) && Run(Apply(s, e), rest, t)
    ensures Run(s, [e] + rest, t)
  {
    assert ([e] + rest)[1..] == rest;
  }

  // ---- bounded waiting -----------------------------------------------------------

  /** Number of successful pops in a run. */
  function Pops(es: seq<Event>): nat {
    if es == [] then 0 else (if es[0].Pop? then 1 else 0) + Pops(es[1..])
  }

  /** Tickets not yet dequeued, in queue order. */
  function Waiting(s: State): seq<Ticket>
    requires |s.hands| == 1
  {
    s.hands[0] + s.list
  }

  lemma AdvanceStep(s: State, e: Event, i: nat)
    requires Fifo(s) && Enabled(s, e) && Kept(e) && i < |Waiting(s)| && (e.Pop? ==> i >= 2)
    ensures var i', s' := if e.Pop? then i - 2 else i, Apply(s, e);
            |s'.hands| == 1 && i' < |Waiting(s')| && Waiting(s')[i'] == Waiting(s)[i]
  {
    match e
    case Enqueue(u) =>
    case Pop(w) =>
      assert Waiting(s) == s.list;
    case PopFail(_) =>
    case PushBack(w, up) =>
      assert [] + (s.hands[0] + s.list) == s.hands[0] + s.list;
  }

  /** While the player at position `i` waits, each successful pop brings them two
      places forward, however many players arrive in between. */
  lemma {:induction false} PositionAdvances(s: State, es: seq<Event>, t: State, i: nat)
    requires Fifo(s) && Run(s, es, t) && AllKept(es)
    requires i < |Waiting(s)| && 2 * Pops(es) <= i
    ensures Fifo(t) && i - 2 * Pops(es) < |Waiting(t)|
    ensures Waiting(t)[i - 2 * Pops(es)] == Waiting(s)[i]
    decreases |es|
  {
    if es != [] {
      var s' := Apply(s, es[0]);
      FifoStep(s, es[0]);
      var i' := if es[0].Pop? then i - 2 else i;
      AdvanceStep(s, es[0], i);
      assert i - 2 * Pops(es) == i' - 2 * Pops(es[1..]);
      PositionAdvances(s', es[1..], t, i');
    }
  }

  /** After exactly i/2 successful pops, the next one dequeues the player from
      position i if and only if they are not alone in the queue at that moment. */
  lemma BoundedWaiting(s: State, es: seq<Event>, t: State, i: nat)
    requires Fifo(s) && Run(s, es, t) && AllKept(es)
    requires i < |Waiting(s)| && Pops(es) == i / 2
    requires Enabled(t, Pop(0))
    ensures |t.hands| == 1
    ensures var player := Waiting(s)[i];
            var t' := Apply(t, Pop(0));
            && (|Waiting(t)| >= 2 ==>
                  |t'.pairs| == |t.pairs| + 1
                  && player == if i % 2 == 0 then t'.pairs[|t.pairs|].0 else t'.pairs[|t.pairs|].1)
            && (|Waiting(t)| < 2 ==> i % 2 == 0 && t'.pairs == t.pairs && Waiting(t') == [player])
  {
    PositionAdvances(s, es, t, i);
    assert Waiting(t) == t.list;
  }
}
