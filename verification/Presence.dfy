/** The presence key of one user in Redis: set with a 60-second lifetime on
    connection and again at every 20-second tick, deleted on the way out.
    Times are in seconds. */
module Presence {
  import opened Prelude

  const TTL: real := 60.0
  const TICK: real := 20.0

  datatype Command = Set(at: real) | Del(at: real)

  /** The key's expiry after commands. */
  function Expiry(cs: seq<Command>): Option<real> {
    if cs == [] then None
    else match cs[|cs| - 1]
         case Set(at) => Some(at + TTL)
         case Del(_) => None
  }

  ghost predicate Ordered(cs: seq<Command>) {
    forall i, j :: 0 <= i < j < |cs| ==> cs[i].at <= cs[j].at
  }

  /** The commands executed up to time `t`. */
  function Before(cs: seq<Command>, t: real): (p: seq<Command>)
    ensures p <= cs
    ensures forall i :: 0 <= i < |p| ==> p[i].at <= t
  {
    if cs == [] || cs[0].at > t then []
    else
      var p := [cs[0]] + Before(cs[1..], t);
      assert forall i :: 1 <= i < |p| ==> p[i] == Before(cs[1..], t)[i - 1] && cs[i] == cs[1..][i - 1];
      p
  }

  predicate Present(cs: seq<Command>, t: real) {
    var e := Expiry(Before(cs, t));
    e.Some? && t < e.value
  }

  lemma {:induction false} BeforeIsMaximal(cs: seq<Command>, t: real, i: nat)
    requires Ordered(cs) && i < |cs| && cs[i].at <= t
    ensures i < |Before(cs, t)|
  {
    if i > 0 {
      assert cs[0].at <= cs[i].at;
      BeforeIsMaximal(cs[1..], t, i - 1);
    }
  }

  /** `cs[i]` is a refresh within the last 60 seconds that no deletion has followed. */
  ghost predicate Fresh(cs: seq<Command>, t: real, i: nat) {
    && i < |cs| && cs[i].Set? && cs[i].at <= t < cs[i].at + TTL
    && forall j :: i < j < |cs| && cs[j].at <= t ==> cs[j].Set?
  }

  lemma FreshIsPresent(cs: seq<Command>, t: real, i: nat)
    requires Ordered(cs) && Fresh(cs, t, i)
    ensures Present(cs, t)
  {
    var p := Before(cs, t);
    BeforeIsMaximal(cs, t, i);
    var k := |p| - 1;
    assert p[k] == cs[k];
    if i < k {
      assert cs[i].at <= cs[k].at;
    }
  }

  /** The key is present exactly when some refresh of the last 60 seconds was not followed by a deletion. */
  lemma PresentIffFresh(cs: seq<Command>, t: real)
    requires Ordered(cs)
    ensures Present(cs, t) <==> exists i :: Fresh(cs, t, i)
  {
    var p := Before(cs, t);
    if Present(cs, t) {
      var k := |p| - 1;
      forall j | k < j < |cs|
        ensures cs[j].at > t
      {
        if cs[j].at <= t {
          BeforeIsMaximal(cs, t, j);
        }
      }
      assert cs[k] == p[k];
      assert Fresh(cs, t, k);
    }
    if i: nat :| Fresh(cs, t, i) {
      FreshIsPresent(cs, t, i);
    }
  }

  // ---- the refresh schedule ---------------------------------------------------

  /** Attempt 0 is the one on connection; attempt k lands `delay(k)` after tick k. */
  function Landing(t0: real, delay: nat -> real, k: nat): real {
    t0 + TICK * (k as real) + delay(k)
  }

  /** The delays of the first n + 1 attempts differ by less than one tick. */
  ghost predicate Steady(delay: nat -> real, n: nat) {
    forall i, j :: 0 <= i <= n && 0 <= j <= n ==> delay(i) - delay(j) < TICK
  }

  /** The refreshes that reached Redis among the first n attempts. */
  function Refreshes(t0: real, delay: nat -> real, ok: nat -> bool, n: nat): seq<Command> {
    if n == 0 then []
    else Refreshes(t0, delay, ok, n - 1) + if ok(n - 1) then [Set(Landing(t0, delay, n - 1))] else []
  }

  class Key {
    ghost var commands: seq<Command>
    var expiry: Option<real>

    ghost predicate Valid()
      reads this
    {
      expiry == Expiry(commands)
    }

    constructor ()
      ensures Valid() && commands == []
    {
      commands, expiry := [], None;
    }

    method Refresh(at: real, up: bool)
      requires Valid()
      modifies this
      ensures Valid() && commands == old(commands) + if up then [Set(at)] else []
    {
      if up {
        expiry := Some(at + TTL);
        commands := commands + [Set(at)];
      }
    }

    method Delete(at: real)
      requires Valid()
      modifies this
      ensures Valid() && commands == old(commands) + [Del(at)]
    {
      expiry := None;
      commands := commands + [Del(at)];
    }
  }

  /** The refresh on connection and the presence loop's, a failed one only being logged. */
  method KeepPresent(key: Key, t0: real, delay: nat -> real, ok: nat -> bool, n: nat)
    requires key.Valid()
    modifies key
    ensures key.Valid() && key.commands == old(key.commands) + Refreshes(t0, delay, ok, n)
  {
    var k := 0;
    while k < n
      invariant 0 <= k <= n
      invariant key.Valid() && key.commands == old(key.commands) + Refreshes(t0, delay, ok, k)
    {
      key.Refresh(Landing(t0, delay, k), ok(k));
      k := k + 1;
    }
  }

  lemma LandingsIncrease(t0: real, delay: nat -> real, n: nat, i: nat, j: nat)
    requires Steady(delay, n) && i < j <= n
    ensures Landing(t0, delay, i) < Landing(t0, delay, j)
    ensures Landing(t0, delay, j) - Landing(t0, delay, i) == TICK * ((j - i) as real) + delay(j) - delay(i)
  {
    assert TICK * (j as real) - TICK * (i as real) == TICK * ((j - i) as real);
    assert TICK * ((j - i) as real) >= TICK;
  }

  /** The command is the refresh of a successful attempt among the first n. */
  ghost predicate FromAttempt(t0: real, delay: nat -> real, ok: nat -> bool, n: nat, c: Command) {
    c.Set? && exists k: nat :: k < n && ok(k) && c == Set(Landing(t0, delay, k))
  }

  lemma OrderedSnoc(p: seq<Command>, c: Command)
    requires Ordered(p) && forall i :: 0 <= i < |p| ==> p[i].at <= c.at
    ensures Ordered(p + [c])
  {
  }

  /** A later attempt lands after every earlier refresh. */
  lemma LandsLater(t0: real, delay: nat -> real, ok: nat -> bool, n: nat, c: Command)
    requires Steady(delay, n) && FromAttempt(t0, delay, ok, n, c)
    ensures c.at <= Landing(t0, delay, n)
  {
    var k: nat :| k < n && ok(k) && c == Set(Landing(t0, delay, k));
    LandingsIncrease(t0, delay, n, k, n);
  }

  lemma EarlierAttempt(t0: real, delay: nat -> real, ok: nat -> bool, n: nat, c: Command)
    requires FromAttempt(t0, delay, ok, n, c)
    ensures FromAttempt(t0, delay, ok, n + 1, c)
  {
  }

  lemma NextAttempt(t0: real, delay: nat -> real, ok: nat -> bool, n: nat)
    requires ok(n)
    ensures FromAttempt(t0, delay, ok, n + 1, Set(Landing(t0, delay, n)))
  {
  }

  /** The log holds exactly the landings of the successful ones of the first n attempts, in order. */
  ghost predicate LogOf(t0: real, delay: nat -> real, ok: nat -> bool, n: nat, cs: seq<Command>) {
    && Ordered(cs)
    && (forall i :: 0 <= i < |cs| ==> FromAttempt(t0, delay, ok, n, cs[i]))
    && (forall k: nat :: k < n && ok(k) ==> Set(Landing(t0, delay, k)) in cs)
  }

  lemma LogNext(t0: real, delay: nat -> real, ok: nat -> bool, n: nat, p: seq<Command>)
    requires Steady(delay, n) && LogOf(t0, delay, ok, n, p)
    ensures LogOf(t0, delay, ok, n + 1, p + if ok(n) then [Set(Landing(t0, delay, n))] else [])
  {
    var last := Set(Landing(t0, delay, n));
    var cs := p + if ok(n) then [last] else [];
    forall i | 0 <= i < |p|
      ensures p[i].at <= last.at && FromAttempt(t0, delay, ok, n + 1, p[i])
    {
      LandsLater(t0, delay, ok, n, p[i]);
      EarlierAttempt(t0, delay, ok, n, p[i]);
    }
    if ok(n) {
      OrderedSnoc(p, last);
      NextAttempt(t0, delay, ok, n);
      assert cs[|p|] == last;
    } else {
      assert cs == p;
    }
  }

  lemma {:induction false} RefreshesAre(t0: real, delay: nat -> real, ok: nat -> bool, n: nat)
    requires n > 0 ==> Steady(delay, n - 1)
    ensures LogOf(t0, delay, ok, n, Refreshes(t0, delay, ok, n))
  {
    if n > 0 {
      RefreshesAre(t0, delay, ok, n - 1);
      LogNext(t0, delay, ok, n - 1, Refreshes(t0, delay, ok, n - 1));
    }
  }

  /** A successful attempt keeps the key present for the next 60 seconds. */
  lemma AttemptCovers(t0: real, delay: nat -> real, ok: nat -> bool, n: nat, k: nat, t: real)
    requires Steady(delay, n) && k <= n && ok(k)
    requires Landing(t0, delay, k) <= t < Landing(t0, delay, k) + TTL
    ensures Present(Refreshes(t0, delay, ok, n + 1), t)
  {
    var cs := Refreshes(t0, delay, ok, n + 1);
    RefreshesAre(t0, delay, ok, n + 1);
    var i :| 0 <= i < |cs| && cs[i] == Set(Landing(t0, delay, k));
    assert Fresh(cs, t, i);
    PresentIffFresh(cs, t);
  }

  // ---- main results --------------------------------------------------------------

  function Sets(rs: seq<real>): (cs: seq<Command>)
    ensures |cs| == |rs| && forall i :: 0 <= i < |rs| ==> cs[i] == Set(rs[i])
  {
    seq(|rs|, i requires 0 <= i < |rs| => Set(rs[i]))
  }

  /** Successive refreshes are at most 60 seconds apart. */
  ghost predicate Close(rs: seq<real>) {
    forall i :: 0 <= i < |rs| - 1 ==> rs[i + 1] <= rs[i] + TTL
  }

  lemma {:induction false} CoveringRefresh(rs: seq<real>, t: real) returns (i: nat)
    requires rs != [] && Close(rs)
    requires rs[0] <= t < rs[|rs| - 1] + TTL
    ensures i < |rs| && rs[i] <= t < rs[i] + TTL
  {
    i := |rs| - 1;
    if t < rs[i] {
      i := CoveringRefresh(rs[..i], t);
    }
  }

  /** Where two refreshes are further apart, the key is gone when the first expires. */
  lemma LapsesInGap(rs: seq<real>, k: nat)
    requires Ordered(Sets(rs)) && k + 1 < |rs| && rs[k + 1] > rs[k] + TTL
    ensures !Present(Sets(rs), rs[k] + TTL)
  {
    var cs, t := Sets(rs), rs[k] + TTL;
    PresentIffFresh(cs, t);
    forall i: nat
      ensures !Fresh(cs, t, i)
    {
      if i < k {
        assert cs[i].at <= cs[k].at;
      } else if k + 1 < i < |cs| {
        assert cs[k + 1].at <= cs[i].at;
      }
    }
  }

  /** Without deletions the key is present at every moment from the first refresh
      until 60 seconds after the last if and only if successive refreshes land at
      most 60 seconds apart. */
  lemma NoLapse(rs: seq<real>)
    requires rs != [] && Ordered(Sets(rs))
    ensures (forall t :: rs[0] <= t < rs[|rs| - 1] + TTL ==> Present(Sets(rs), t)) <==> Close(rs)
  {
    if Close(rs) {
      forall t | rs[0] <= t < rs[|rs| - 1] + TTL
        ensures Present(Sets(rs), t)
      {
        var i := CoveringRefresh(rs, t);
        FreshIsPresent(Sets(rs), t, i);
      }
    } else {
      var k :| 0 <= k < |rs| - 1 && rs[k + 1] > rs[k] + TTL;
      LapsesInGap(rs, k);
      var cs := Sets(rs);
      assert cs[0].at <= cs[k].at && cs[k + 1].at <= cs[|rs| - 1].at;
    }
  }

  /** The attempt in whose interval `t` falls. */
  lemma {:induction false} IntervalOf(t0: real, delay: nat -> real, a: nat, n: nat, t: real) returns (k: nat)
    requires a <= n && Landing(t0, delay, a) <= t < Landing(t0, delay, n)
    ensures a <= k < n && Landing(t0, delay, k) <= t < Landing(t0, delay, k + 1)
  {
    k := n - 1;
    if t < Landing(t0, delay, k) {
      k := IntervalOf(t0, delay, a, n - 1, t);
    }
  }

  /** From attempt `a`, a success, to attempt `n` no two in a row fail. */
  ghost predicate NoTwoFail(ok: nat -> bool, a: nat, n: nat) {
    a <= n && ok(a) && forall k: nat :: a <= k < n ==> ok(k) || ok(k + 1)
  }

  /** Then some successful attempt covers every moment in between. */
  lemma CoveringAttempt(t0: real, delay: nat -> real, ok: nat -> bool, a: nat, n: nat, t: real) returns (k: nat)
    requires Steady(delay, n) && NoTwoFail(ok, a, n)
    requires Landing(t0, delay, a) <= t < Landing(t0, delay, n)
    ensures k <= n && ok(k) && Landing(t0, delay, k) <= t < Landing(t0, delay, k) + TTL
  {
    k := IntervalOf(t0, delay, a, n, t);
    LandingsIncrease(t0, delay, n, k, k + 1);
    if !ok(k) {
      LandingsIncrease(t0, delay, n, k - 1, k);
      LandingsIncrease(t0, delay, n, k - 1, k + 1);
      assert ok(k - 1);
      k := k - 1;
    }
  }

  /** With 20-second ticks and steady delays, from the first successful attempt on
      and as long as no two in a row fail, the key is present at every moment up to
      the last attempt. */
  lemma IsolatedFailuresAreTolerated(t0: real, delay: nat -> real, ok: nat -> bool, a: nat, n: nat, t: real)
    requires Steady(delay, n) && NoTwoFail(ok, a, n)
    requires Landing(t0, delay, a) <= t < Landing(t0, delay, n)
    ensures Present(Refreshes(t0, delay, ok, n + 1), t)
  {
    var k := CoveringAttempt(t0, delay, ok, a, n, t);
    AttemptCovers(t0, delay, ok, n, k, t);
  }

  // ---- deletions by other handlers of the user --------------------------------------

  /** A refresh has been executed by time `t`, and no deletion since. */
  ghost predicate NotDeletedSince(cs: seq<Command>, t: real) {
    exists i: nat :: Undeleted(cs, t, i)
  }

  ghost predicate Undeleted(cs: seq<Command>, t: real, i: nat) {
    i < |cs| && cs[i].Set? && cs[i].at <= t && forall j :: i < j < |cs| && cs[j].at <= t ==> cs[j].Set?
  }

  /** While some refresh is less than 60 seconds old, only a deletion can take the key away. */
  lemma CoveredKeyIffNotDeleted(cs: seq<Command>, t: real, i: nat)
    requires Ordered(cs) && i < |cs| && cs[i].Set? && cs[i].at <= t < cs[i].at + TTL
    ensures Present(cs, t) <==> NotDeletedSince(cs, t)
  {
    PresentIffFresh(cs, t);
    if k: nat :| Fresh(cs, t, k) {
      assert Undeleted(cs, t, k);
    }
    if k: nat :| Undeleted(cs, t, k) {
      if k < i {
        assert Fresh(cs, t, i);
      } else {
        assert i < k ==> cs[i].at <= cs[k].at;
        assert Fresh(cs, t, k);
      }
    }
  }

  /** When a live connection has its key, whatever other handlers of its user add to
      the log: with its own successful refreshes in the log and no two of them
      failing in a row, exactly when no deletion followed the latest refresh. */
  lemma LiveConnectionHasKeyIff(t0: real, delay: nat -> real, ok: nat -> bool, a: nat, n: nat,
                                cs: seq<Command>, t: real)
    requires Steady(delay, n) && NoTwoFail(ok, a, n) && Ordered(cs)
    requires forall k: nat :: k <= n && ok(k) ==> Set(Landing(t0, delay, k)) in cs
    requires Landing(t0, delay, a) <= t < Landing(t0, delay, n)
    ensures Present(cs, t) <==> NotDeletedSince(cs, t)
  {
    var k := CoveringAttempt(t0, delay, ok, a, n, t);
    var i :| 0 <= i < |cs| && cs[i] == Set(Landing(t0, delay, k));
    CoveredKeyIffNotDeleted(cs, t, i);
  }

  /** So the cleanup of an older handler hides a live connection until its next refresh. */
  lemma CleanupHidesUntilNextRefresh(cs: seq<Command>, i: nat, t: real)
    requires Ordered(cs) && i < |cs| && cs[i].Del? && cs[i].at <= t
    requires forall j :: i < j < |cs| ==> cs[j].at > t
    ensures !Present(cs, t)
  {
    PresentIffFresh(cs, t);
  }

  /** And a refresh in flight that lands after the cleanup, which does not wait for
      the presence loop, leaves a key for 60 seconds without a connection. */
  lemma LateRefreshOutlivesCleanup(cs: seq<Command>, deleted: real, landed: real, t: real)
    requires Ordered(cs + [Del(deleted), Set(landed)])
    requires landed <= t < landed + TTL
    ensures Present(cs + [Del(deleted), Set(landed)], t)
  {
    var all := cs + [Del(deleted), Set(landed)];
    assert all[|cs| + 1] == Set(landed);
    FreshIsPresent(all, t, |cs| + 1);
  }

  /** The key is present from attempt `a` until attempt `b` lands. */
  ghost predicate PresentBetween(t0: real, delay: nat -> real, cs: seq<Command>, a: nat, b: nat) {
    forall t :: Landing(t0, delay, a) <= t < Landing(t0, delay, b) ==> Present(cs, t)
  }

  /** Attempts k and m succeed, and none in between. */
  ghost predicate Gap(ok: nat -> bool, k: nat, m: nat) {
    k < m && ok(k) && ok(m) && forall j: nat :: k < j < m ==> !ok(j)
  }

  /** If every successful attempt is over or yet to come at time t, the key is absent. */
  lemma AbsentBetween(t0: real, delay: nat -> real, ok: nat -> bool, n: nat, cs: seq<Command>, t: real)
    requires Ordered(cs) && forall i :: 0 <= i < |cs| ==> FromAttempt(t0, delay, ok, n, cs[i])
    requires forall j: nat :: j < n && ok(j) ==> Landing(t0, delay, j) + TTL <= t || Landing(t0, delay, j) > t
    ensures !Present(cs, t)
  {
    PresentIffFresh(cs, t);
    forall i: nat
      ensures !Fresh(cs, t, i)
    {
      if i < |cs| {
        assert FromAttempt(t0, delay, ok, n, cs[i]);
      }
    }
  }

  /** Once attempt k's key has expired and before attempt m lands, no attempt's key is left. */
  lemma LapsesInsideGap(t0: real, delay: nat -> real, ok: nat -> bool, n: nat, k: nat, m: nat)
    requires Steady(delay, n) && m <= n && Gap(ok, k, m)
    requires Landing(t0, delay, m) > Landing(t0, delay, k) + TTL
    ensures !Present(Refreshes(t0, delay, ok, n + 1), Landing(t0, delay, k) + TTL)
  {
    var t := Landing(t0, delay, k) + TTL;
    forall j: nat | j < n + 1 && ok(j)
      ensures Landing(t0, delay, j) + TTL <= t || Landing(t0, delay, j) > t
    {
      if j < k {
        LandingsIncrease(t0, delay, n, j, k);
      } else if j > m {
        LandingsIncrease(t0, delay, n, m, j);
      }
    }
    RefreshesAre(t0, delay, ok, n + 1);
    AbsentBetween(t0, delay, ok, n + 1, Refreshes(t0, delay, ok, n + 1), t);
  }

  /** Between two successes with any number of failures in between, the key is
      present throughout if and only if they land at most 60 seconds apart. */
  lemma GapSurvivedIff(t0: real, delay: nat -> real, ok: nat -> bool, n: nat, k: nat, m: nat)
    requires Steady(delay, n) && m <= n && Gap(ok, k, m)
    ensures PresentBetween(t0, delay, Refreshes(t0, delay, ok, n + 1), k, m)
            <==> Landing(t0, delay, m) <= Landing(t0, delay, k) + TTL
  {
    var cs := Refreshes(t0, delay, ok, n + 1);
    if Landing(t0, delay, m) <= Landing(t0, delay, k) + TTL {
      forall t | Landing(t0, delay, k) <= t < Landing(t0, delay, m)
        ensures Present(cs, t)
      {
        AttemptCovers(t0, delay, ok, n, k, t);
      }
    } else {
      LapsesInsideGap(t0, delay, ok, n, k, m);
    }
  }

  /** How many failures in a row are survived: one always; two exactly when the next
      successful refresh lands no later after its tick than the last one before them
      did; three or more never. */
  lemma FailuresSurvivedIff(t0: real, delay: nat -> real, ok: nat -> bool, n: nat, k: nat, m: nat)
    requires Steady(delay, n) && m <= n && Gap(ok, k, m)
    ensures PresentBetween(t0, delay, Refreshes(t0, delay, ok, n + 1), k, m)
            <==> m - k <= 2 || (m - k == 3 && delay(m) <= delay(k))
  {
    GapSurvivedIff(t0, delay, ok, n, k, m);
    LandingsIncrease(t0, delay, n, k, m);
    TicksApart(m - k);
    assert delay(m) - delay(k) < TICK && delay(k) - delay(m) < TICK;
  }

  lemma TicksApart(d: nat)
    ensures d <= 2 ==> TICK * (d as real) <= 40.0
    ensures d == 3 ==> TICK * (d as real) == TTL
    ensures d >= 4 ==> TICK * (d as real) >= 80.0
  {
  }

  /** Two failures in a row between two successes. */
  lemma TwoFailuresSurvivedIff(t0: real, delay: nat -> real, ok: nat -> bool, n: nat, k: nat)
    requires Steady(delay, n) && k + 3 <= n
    requires ok(k) && !ok(k + 1) && !ok(k + 2) && ok(k + 3)
    ensures PresentBetween(t0, delay, Refreshes(t0, delay, ok, n + 1), k, k + 3) <==> delay(k + 3) <= delay(k)
  {
    assert Gap(ok, k, k + 3);
    FailuresSurvivedIff(t0, delay, ok, n, k, k + 3);
  }

  /** The durations in seconds: a refresh makes the key present for 60, and attempts are 20 apart. */
  lemma Durations(at: real, t: real, delay: nat -> real, k: nat)
    ensures Present([Set(at)], t) <==> at <= t < at + 60.0
    ensures Landing(at, delay, k) == at + 20.0 * (k as real) + delay(k)
  {
    var cs := [Set(at)];
    assert cs[1..] == [];
  }
}
