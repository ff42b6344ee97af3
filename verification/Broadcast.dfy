/** The admin broadcast: scan the presence keys, turn each back into a user id,
    publish one message per user, and count. */
module Broadcast {
  import opened Prelude

  const PREFIX: string := "pcgb:gateway:user:"

  function PresenceKey(u: string): string {
    PREFIX + u
  }

  predicate HasPrefix(s: string, p: string) {
    |s| >= |p| && s[..|p|] == p
  }

  function TrimPrefix(s: string, p: string): string {
    if HasPrefix(s, p) then s[|p|..] else s
  }

  /** Trimming undoes the making of the key, and every scanned key is the key of what trimming yields. */
  lemma TrimUndoesKey(u: string, key: string)
    ensures PresenceKey(u) == "pcgb:gateway:user:" + u
    ensures TrimPrefix(PresenceKey(u), PREFIX) == u
    ensures HasPrefix(key, PREFIX) ==> PresenceKey(TrimPrefix(key, PREFIX)) == key
  {
    assert PresenceKey(u)[|PREFIX|..] == u;
    assert HasPrefix(key, PREFIX) ==> key == key[..|PREFIX|] + key[|PREFIX|..];
  }

  /** A reply to KEYS with the pattern `pcgb:gateway:user:*`: each matching key once, in any order. */
  ghost predicate ScanOf(store: set<string>, keys: seq<string>) {
    && (forall i, j :: 0 <= i < j < |keys| ==> keys[i] != keys[j])
    && (forall k :: k in keys <==> k in store && HasPrefix(k, PREFIX))
  }

  predicate Distinct(us: seq<string>) {
    forall i, j :: 0 <= i < j < |us| ==> us[i] != us[j]
  }

  /** Every non-empty user id among the first `n` keys is published. */
  predicate AllGoOut(keys: seq<string>, up: nat -> bool, n: nat)
    requires n <= |keys|
  {
    forall j :: 0 <= j < n && TrimPrefix(keys[j], PREFIX) != "" ==> up(j)
  }

  /** Key `n` is the first whose message cannot be published. */
  predicate StopsAt(keys: seq<string>, up: nat -> bool, n: nat) {
    n < |keys| && AllGoOut(keys, up, n) && TrimPrefix(keys[n], PREFIX) != "" && !up(n)
  }

  datatype ScanError = ScanError

  /** `published` are the users a message actually went out to.  Without a NATS
      connection the publish function reports success and sends nothing, so the
      returned count is the number of messages exactly when connected (or zero). */
  method BroadcastToOnlineUsers(hasRedis: bool, scan: Result<seq<string>, ScanError>, ghost store: set<string>,
                                connected: bool, up: nat -> bool)
    returns (count: nat, ok: bool, published: seq<string>)
    requires scan.Ok? ==> ScanOf(store, scan.value)
    ensures !hasRedis ==> count == 0 && ok && published == []
    ensures hasRedis && scan.Err? ==> count == 0 && !ok && published == []
    ensures count == |published| <==> connected || count == 0
    ensures Distinct(published)
    ensures forall u :: u in published ==> u != "" && PresenceKey(u) in store
    ensures hasRedis && scan.Ok? && ok && connected ==>
              forall u :: u in published <==> u != "" && PresenceKey(u) in store
    ensures hasRedis && scan.Ok? ==>
              if ok then
                && (connected ==> AllGoOut(scan.value, up, |scan.value|))
                && count == |Targets(scan.value)|
              else connected && exists n: nat :: StopsAt(scan.value, up, n) && published == Targets(scan.value[..n])
  {
    count, ok, published := 0, true, [];
    if !hasRedis { return; }
    if scan.Err? { return 0, false, []; }
    var n;
    count, ok, published, n := PublishEach(scan.value, connected, up);
    TargetsAre(store, scan.value, n);
    assert ok ==> scan.value[..n] == scan.value;
  }

  /** The loop over the keys; `n` of them are dealt with when it ends. */
  method PublishEach(keys: seq<string>, connected: bool, up: nat -> bool)
    returns (count: nat, ok: bool, published: seq<string>, n: nat)
    ensures n <= |keys| && count == |Targets(keys[..n])|
    ensures published == if connected then Targets(keys[..n]) else []
    ensures if ok then n == |keys| && (connected ==> AllGoOut(keys, up, n)) else connected && StopsAt(keys, up, n)
  {
    count, ok, published, n := 0, true, [], 0;
    var i := 0;
    while i < |keys|
      invariant 0 <= i <= |keys|
      invariant published == if connected then Targets(keys[..i]) else []
      invariant count == |Targets(keys[..i])|
      invariant connected ==> AllGoOut(keys, up, i)
    {
      assert keys[..i + 1] == keys[..i] + [keys[i]];
      TargetsSnoc(keys[..i], keys[i]);
      var u := TrimPrefix(keys[i], PREFIX);
      if u != "" {
        if connected && !up(i) {
          return count, false, published, i;
        }
        if connected {
          published := published + [u];
        }
        count := count + 1;
      }
      i := i + 1;
    }
    n := i;
  }

  /** The users behind a list of keys, the empty one skipped. */
  function Targets(keys: seq<string>): seq<string> {
    if keys == [] then []
    else
      var u := TrimPrefix(keys[|keys| - 1], PREFIX);
      Targets(keys[..|keys| - 1]) + if u == "" then [] else [u]
  }

  lemma TargetsSnoc(keys: seq<string>, k: string)
    ensures Targets(keys + [k]) == Targets(keys) + if TrimPrefix(k, PREFIX) == "" then [] else [TrimPrefix(k, PREFIX)]
  {
    assert (keys + [k])[..|keys|] == keys;
  }

  /** The targets of a prefix of a scan are distinct, and exactly the users of its keys. */
  lemma {:induction false} TargetsAre(store: set<string>, keys: seq<string>, n: nat)
    requires ScanOf(store, keys) && n <= |keys|
    ensures Distinct(Targets(keys[..n]))
    ensures forall u :: u in Targets(keys[..n]) <==> u != "" && PresenceKey(u) in keys[..n]
    ensures forall u :: u in Targets(keys[..n]) ==> PresenceKey(u) in store
  {
    if n > 0 {
      TargetsAre(store, keys, n - 1);
      var k := keys[n - 1];
      assert keys[..n] == keys[..n - 1] + [k];
      TargetsSnoc(keys[..n - 1], k);
      assert k in keys;
      TrimUndoesKey("", k);
      var t := TrimPrefix(k, PREFIX);
      forall u
        ensures PresenceKey(u) == k <==> u == t
      {
        TrimUndoesKey(u, k);
      }
      assert k !in keys[..n - 1];
      assert t !in Targets(keys[..n - 1]);
    }
  }
}
