/** The gateway's map from users to connections.  A handler registers its
    connection on entry and, on the way out, deletes the entry of its user id,
    whichever connection that entry holds by then. */
module GatewayRegistry {
  import opened Prelude

  type User = string
  type Handler = nat

  /** What happens to the map, in the order of its lock. */
  datatype Event = Register(h: Handler, u: User) | Deregister(h: Handler, u: User)

  function Conns(es: seq<Event>): map<User, Handler> {
    if es == [] then map[]
    else
      var m := Conns(es[..|es| - 1]);
      match es[|es| - 1]
      case Register(h, u) => m[u := h]
      case Deregister(_, u) => m - {u}
  }

  datatype SendError = NotConnected

  class UserSender {
    var conns: map<User, Handler>
    ghost var history: seq<Event>

    ghost predicate Valid()
      reads this
    {
      conns == Conns(history)
    }

    constructor ()
      ensures Valid() && history == []
    {
      conns, history := map[], [];
    }

    method Enter(h: Handler, u: User)
      requires Valid()
      modifies this
      ensures Valid() && history == old(history) + [Register(h, u)]
      ensures conns == old(conns)[u := h]
    {
      conns := conns[u := h];
      history := history + [Register(h, u)];
      assert history[..|history| - 1] == old(history);
    }

    method Leave(h: Handler, u: User)
      requires Valid()
      modifies this
      ensures Valid() && history == old(history) + [Deregister(h, u)]
      ensures conns == old(conns) - {u}
    {
      conns := conns - {u};
      history := history + [Deregister(h, u)];
      assert history[..|history| - 1] == old(history);
    }

    /** The connection a message for `u` is written to. */
    method SendToUser(u: User) returns (r: Result<Handler, SendError>)
      requires Valid()
      ensures r == if u in Conns(history) then Ok(Conns(history)[u]) else Err(NotConnected)
    {
      if u !in conns { return Err(NotConnected); }
      r := Ok(conns[u]);
    }
  }

  // ---- well-formed runs ------------------------------------------------------

  predicate About(e: Event, u: User) {
    e.u == u
  }

  /** Every handler registers once, for one user, and deregisters at most once, later, for that user. */
  ghost predicate WellFormed(es: seq<Event>) {
    && (forall i, j :: 0 <= i < j < |es| && es[i].Register? && es[j].Register? ==> es[i].h != es[j].h)
    && (forall j :: 0 <= j < |es| && es[j].Deregister? ==>
          exists i :: 0 <= i < j && es[i] == Register(es[j].h, es[j].u))
    && (forall i, j :: 0 <= i < j < |es| && es[i].Deregister? && es[j].Deregister? ==> es[i].h != es[j].h)
  }

  /** Handler `h` has registered for `u` and has not deregistered. */
  ghost predicate Live(es: seq<Event>, h: Handler, u: User) {
    Register(h, u) in es && Deregister(h, u) !in es
  }

  /** Event `i` registers a connection of `u` and is the last event about `u`. */
  ghost predicate LastWord(es: seq<Event>, u: User, i: nat) {
    i < |es| && es[i].Register? && About(es[i], u) && forall j :: i < j < |es| ==> !About(es[j], u)
  }

  lemma LastWordSnoc(es: seq<Event>, u: User, i: nat)
    requires es != [] && !About(es[|es| - 1], u)
    ensures LastWord(es, u, i) <==> LastWord(es[..|es| - 1], u, i)
  {
    var p := es[..|es| - 1];
    assert forall j :: 0 <= j < |p| ==> p[j] == es[j];
    assert LastWord(p, u, i) ==> forall j :: i < j < |es| ==> !About(es[j], u);
  }

  /** The entry of `u` is decided by the last event about `u`. */
  lemma {:induction false} LastEventDecides(es: seq<Event>, u: User)
    ensures u in Conns(es) ==> exists i: nat :: LastWord(es, u, i)
    ensures forall i: nat :: LastWord(es, u, i) ==> u in Conns(es) && Conns(es)[u] == es[i].h
  {
    if es != [] {
      var n := |es| - 1;
      var p := es[..n];
      LastEventDecides(p, u);
      if About(es[n], u) {
        assert es[n].Register? ==> LastWord(es, u, n);
        assert forall i: nat :: LastWord(es, u, i) ==> i >= n;
      } else {
        forall i: nat
          ensures LastWord(es, u, i) <==> LastWord(p, u, i)
        {
          LastWordSnoc(es, u, i);
        }
        assert forall i: nat :: LastWord(p, u, i) ==> p[i] == es[i];
      }
    }
  }

  // ---- main results ------------------------------------------------------------

  /** In every run a registered connection belongs to a handler of that user that
      has not yet deregistered. */
  lemma RegisteredIsLive(es: seq<Event>, u: User)
    requires WellFormed(es) && u in Conns(es)
    ensures Live(es, Conns(es)[u], u)
  {
    LastEventDecides(es, u);
    var i: nat :| LastWord(es, u, i);
    var h := es[i].h;
    assert es[i] == Register(h, u);
    assert forall j :: i < j < |es| ==> About(es[j], u) || es[j] != Deregister(h, u);
  }

  /** Exactly when a live handler can be reached: no other handler of its user has
      registered or deregistered since it registered. */
  lemma ReachableIffUndisturbed(es: seq<Event>, i: nat, h: Handler, u: User)
    requires WellFormed(es) && i < |es| && es[i] == Register(h, u) && Live(es, h, u)
    ensures (u in Conns(es) && Conns(es)[u] == h) <==> forall j :: i < j < |es| ==> !About(es[j], u)
  {
    LastEventDecides(es, u);
    assert LastWord(es, u, i) <==> forall j :: i < j < |es| ==> !About(es[j], u);
    if u in Conns(es) && Conns(es)[u] == h {
      var k: nat :| LastWord(es, u, k);
      assert es[k].h == h;
      assert k == i;
    }
  }

  /** At every moment of the run each user has at most one live handler. */
  ghost predicate OneAtATime(es: seq<Event>) {
    forall n, h, g, u :: 0 <= n <= |es| && Live(es[..n], h, u) && Live(es[..n], g, u) ==> h == g
  }

  lemma RegisteredUser(es: seq<Event>, i: nat, n: nat)
    requires i < n <= |es|
    ensures es[i] in es[..n]
  {
    assert es[..n][i] == es[i];
  }

  /** A handler that has not deregistered by the end is live at every moment after it registered. */
  lemma LiveThroughout(es: seq<Event>, i: nat, h: Handler, u: User, n: nat)
    requires i < n <= |es| && es[i] == Register(h, u) && Deregister(h, u) !in es
    ensures Live(es[..n], h, u)
  {
    RegisteredUser(es, i, n);
  }

  /** A handler is live right after it registers, and right before it deregisters. */
  lemma LiveAround(es: seq<Event>, j: nat)
    requires WellFormed(es) && j < |es|
    ensures es[j].Register? ==> Live(es[..j + 1], es[j].h, es[j].u)
    ensures es[j].Deregister? ==> Live(es[..j], es[j].h, es[j].u)
  {
    if es[j].Register? {
      RegisteredUser(es, j, j + 1);
      NotYetDeregistered(es, j, j + 1);
    } else {
      var k :| 0 <= k < j && es[k] == Register(es[j].h, es[j].u);
      RegisteredUser(es, k, j);
      NotYetDeregisteredBefore(es, j);
    }
  }

  /** Nothing about `u` happens after the registration of its live handler. */
  lemma UndisturbedWhenAlone(es: seq<Event>, i: nat, h: Handler, u: User, j: nat)
    requires WellFormed(es) && OneAtATime(es) && Live(es, h, u)
    requires i < j < |es| && es[i] == Register(h, u)
    ensures !About(es[j], u)
  {
    LiveAround(es, j);
    LiveThroughout(es, i, h, u, j);
    LiveThroughout(es, i, h, u, j + 1);
    assert es[j] in es;
  }

  lemma NotYetDeregistered(es: seq<Event>, i: nat, n: nat)
    requires WellFormed(es) && i < |es| && es[i].Register? && n == i + 1
    ensures Deregister(es[i].h, es[i].u) !in es[..n]
  {
  }

  lemma NotYetDeregisteredBefore(es: seq<Event>, j: nat)
    requires WellFormed(es) && j < |es| && es[j].Deregister?
    ensures es[j] !in es[..j]
  {
  }

  /** With at most one live handler per user at any time, the map is exactly the live handlers. */
  lemma MapIsLiveHandlers(es: seq<Event>, h: Handler, u: User)
    requires WellFormed(es) && OneAtATime(es)
    ensures (u in Conns(es) && Conns(es)[u] == h) <==> Live(es, h, u)
  {
    if u in Conns(es) && Conns(es)[u] == h {
      RegisteredIsLive(es, u);
    }
    if Live(es, h, u) {
      var i :| 0 <= i < |es| && es[i] == Register(h, u);
      forall j | i < j < |es|
        ensures !About(es[j], u)
      {
        UndisturbedWhenAlone(es, i, h, u, j);
      }
      ReachableIffUndisturbed(es, i, h, u);
    }
  }

  /** A reconnect that overlaps the old handler loses the new connection: the old
      handler's cleanup deletes the entry, and the user is unreachable while connected. */
  lemma OverlappingReconnectDropsNewConnection(u: User)
    ensures var es := [Register(1, u), Register(2, u), Deregister(1, u)];
            WellFormed(es) && Live(es, 2, u) && u !in Conns(es)
  {
    var es := [Register(1, u), Register(2, u), Deregister(1, u)];
    assert es[0] == Register(1, u) && es[1] == Register(2, u);
    assert Register(2, u) in es;
    assert es[..2] == [Register(1, u), Register(2, u)];
  }
}
