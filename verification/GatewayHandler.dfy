/** One handler from its registration to its cleanup, with no other handler of the
    user in between: what it leaves behind in the map and in Redis. */
module GatewayHandler {
  import opened Prelude
  import Registry = GatewayRegistry
  import P = Presence

  /** The connection is registered, its presence refreshed `n` times, and then
      entry and key are removed again; the map is otherwise as it was. */
  method HandleConnection(users: Registry.UserSender, key: P.Key, h: Registry.Handler, u: Registry.User,
                          t0: real, delay: nat -> real, ok: nat -> bool, n: nat, closed: real)
    requires users.Valid() && key.Valid()
    modifies users, key
    ensures users.Valid() && key.Valid()
    ensures users.history == old(users.history) + [Registry.Register(h, u), Registry.Deregister(h, u)]
    ensures users.conns == old(users.conns) - {u}
    ensures key.commands == old(key.commands) + P.Refreshes(t0, delay, ok, n) + [P.Del(closed)]
    ensures key.expiry == None
  {
    users.Enter(h, u);
    P.KeepPresent(key, t0, delay, ok, n);
    users.Leave(h, u);
    key.Delete(closed);
    assert P.Expiry(key.commands) == None;
  }
}
