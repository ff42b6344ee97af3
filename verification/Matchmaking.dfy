/** The matchmaking service: what is published for an enqueued player and for a
    dequeued pair, when any identifier or publication may fail. */
module Matchmaking {
  import opened Prelude
  import Q = MatchQueue

  type User = string
  type Id = string

  datatype Body =
    | Enqueued(ticket: Id, user: User)
    | Matched(matchId: Id, users: seq<User>)
    | ToUser(target: User, matchId: Id, other: User)

  /** An event on the bus: its own id, the correlation id, and what it says. */
  datatype Published = Published(id: Id, correlation: Id, body: Body)

  datatype MatchResult = MatchResult(userA: User, userB: User, matchId: Id)

  function BuildMatch(ids: seq<User>, matchId: Id): Option<MatchResult> {
    if |ids| < 2 then None else Some(MatchResult(ids[0], ids[1], matchId))
  }

  /** The outcome of every call `ProcessOnce` makes to the outside. */
  datatype Env = Env(popUp: bool, pushUp: bool, matchId: Option<Id>, correlation: Option<Id>,
                     eventId: nat -> Option<Id>, busUp: nat -> bool)

  /** The three announcements of a match, in order. */
  function Announcements(a: User, b: User, matchId: Id): (r: seq<Body>)
    ensures |r| == 3
  {
    [Matched(matchId, [a, b]), ToUser(a, matchId, b), ToUser(b, matchId, a)]
  }

  /** Announcement `i` goes out when its event id is generated and the bus takes it. */
  predicate GoesOut(env: Env, i: nat) {
    env.eventId(i).Some? && env.busUp(i)
  }

  /** How many announcements go out before the first failure. */
  function Announced(env: Env): (k: nat)
    ensures k <= 3
  {
    if env.matchId.None? || env.correlation.None? || !GoesOut(env, 0) then 0
    else if !GoesOut(env, 1) then 1
    else if !GoesOut(env, 2) then 2
    else 3
  }

  /** `log` gained the first announcements of the match of `a` and `b`, all under
      one match id and one correlation id, each under its own event id. */
  ghost predicate Announces(before: seq<Published>, after: seq<Published>, a: User, b: User, env: Env) {
    var k := Announced(env);
    && |after| == |before| + k
    && after[..|before|] == before
    && (k > 0 ==> env.matchId.Some? && env.correlation.Some?)
    && forall i :: 0 <= i < k ==>
         env.eventId(i).Some? &&
         after[|before| + i] == Published(env.eventId(i).value, env.correlation.value,
                                          Announcements(a, b, env.matchId.value)[i])
  }

  predicate AllGoesWell(env: Env) {
    && env.matchId.Some? && env.correlation.Some?
    && env.eventId(0).Some? && env.eventId(1).Some? && env.eventId(2).Some?
    && env.busUp(0) && env.busUp(1) && env.busUp(2)
  }

  /** Each of the two players is told of the other; the earlier one is A. */
  lemma EachHearsOfTheOther(a: User, b: User, m: Id)
    ensures Announcements(a, b, m) == [Matched(m, [a, b]), ToUser(a, m, b), ToUser(b, m, a)]
  {
  }

  class Service {
    const queue: Q.RedisQueue
    var published: seq<Published>

    constructor (queue: Q.RedisQueue)
      ensures this.queue == queue && published == []
    {
      this.queue := queue;
      published := [];
    }

    method Publish(id: Option<Id>, corr: Id, body: Body, up: bool) returns (ok: bool)
      modifies this
      ensures ok == (id.Some? && up)
      ensures published == old(published) + if id.Some? && up then [Published(id.value, corr, body)] else []
    {
      if id.None? { return false; }
      if up { published := published + [Published(id.value, corr, body)]; }
      ok := up;
    }

    /** The push comes first: a failed publication leaves the player queued all the same. */
    method Enqueue(u: User, corr: Id, redisUp: bool, id: Option<Id>, up: bool) returns (ok: bool)
      modifies this, queue
      ensures queue.list == old(queue.list) + if redisUp then [u] else []
      ensures ok == (redisUp && id.Some? && up)
      ensures published == old(published) + if ok then [Published(id.value, corr, Enqueued(id.value, u))] else []
    {
      ok := queue.Enqueue(u, redisUp);
      if !ok { return; }
      if id.None? { return false; }
      ok := Publish(id, corr, Enqueued(id.value, u), up);
    }

    method ProcessOnce(env: Env) returns (ok: bool)
      modifies this, queue
      ensures queue.list == Q.DequeueSpec(old(queue.list), env.popUp, env.pushUp).0
      ensures var r := Q.DequeueSpec(old(queue.list), env.popUp, env.pushUp).1;
              if r.Ok? && |r.value| == 2 then
                && Announces(old(published), published, r.value[0], r.value[1], env)
                && ok == (Announced(env) == 3)
              else published == old(published) && ok == r.Ok?
      ensures env.matchId.None? || env.correlation.None? || env.eventId(0).None? || !env.busUp(0) ==>
                published == old(published)
      ensures env.popUp && |old(queue.list)| >= 2 ==> (ok <==> AllGoesWell(env))
      ensures !env.popUp ==> !ok && published == old(published) && queue.list == old(queue.list)
      ensures env.popUp && |old(queue.list)| >= 2 && AllGoesWell(env) ==>
                var (a, b, m) := (old(queue.list)[0], old(queue.list)[1], env.matchId.value);
                && ok
                && published == old(published) + [
                     Published(env.eventId(0).value, env.correlation.value, Matched(m, [a, b])),
                     Published(env.eventId(1).value, env.correlation.value, ToUser(a, m, b)),
                     Published(env.eventId(2).value, env.correlation.value, ToUser(b, m, a))]
    {
      var r := queue.DequeuePair(env.popUp, env.pushUp);
      if r.Err? { return false; }
      if |r.value| < 2 { return true; }
      if env.matchId.None? { return false; }
      var m := BuildMatch(r.value, env.matchId.value);
      if m.None? { return true; }
      var res := m.value;
      if env.correlation.None? { return false; }
      var corr := env.correlation.value;
      ok := Publish(env.eventId(0), corr, Matched(res.matchId, [res.userA, res.userB]), env.busUp(0));
      if !ok { return; }
      ok := Publish(env.eventId(1), corr, ToUser(res.userA, res.matchId, res.userB), env.busUp(1));
      if !ok { return; }
      ok := Publish(env.eventId(2), corr, ToUser(res.userB, res.matchId, res.userA), env.busUp(2));
    }
  }
}
