/** The request counters: one counter per (method, path, status) in a concurrent
    map and one global total, bumped by two separate atomic additions. */
module Metrics {
  import opened Sums

  datatype Key = Key(verb: string, path: string, status: int)
  type Request = nat

  datatype Stage = Loaded | Counted | Finished

  datatype State = State(
    perKey: map<Key, nat>,
    total: nat,
    reqs: map<Request, (Key, Stage)>)

  datatype Event =
    | LoadOrStore(r: Request, k: Key)   // the key's counter, created at zero if absent
    | AddKey(r: Request)
    | AddTotal(r: Request)

  const INIT: State := State(map[], 0, map[])

  predicate Enabled(s: State, e: Event) {
    match e
    case LoadOrStore(r, _) => r !in s.reqs
    case AddKey(r) => r in s.reqs && s.reqs[r].1 == Loaded && s.reqs[r].0 in s.perKey
    case AddTotal(r) => r in s.reqs && s.reqs[r].1 == Counted
  }

  function Apply(s: State, e: Event): State
    requires Enabled(s, e)
  {
    match e
    case LoadOrStore(r, k) =>
      s.(perKey := if k in s.perKey then s.perKey else s.perKey[k := 0], reqs := s.reqs[r := (k, Loaded)])
    case AddKey(r) =>
      var k := s.reqs[r].0;
      s.(perKey := s.perKey[k := s.perKey[k] + 1], reqs := s.reqs[r := (k, Counted)])
    case AddTotal(r) => s.(total := s.total + 1, reqs := s.reqs[r := (s.reqs[r].0, Finished)])
  }

  ghost predicate Run(s: State, es: seq<Event>, t: State)
    decreases |es|
  {
    if es == [] then s == t
    else Enabled(s, es[0]) && Run(Apply(s, es[0]), es[1..], t)
  }

  class Counters {
    var perKey: map<Key, nat>
    var total: nat

    constructor ()
      ensures perKey == map[] && total == 0
    {
      perKey, total := map[], 0;
    }

    method IncRequestCounter(verb: string, path: string, status: int)
      modifies this
      ensures var k := Key(verb, path, status);
              perKey == old(perKey)[k := (if k in old(perKey) then old(perKey)[k] else 0) + 1]
      ensures total == old(total) + 1
    {
      var k := Key(verb, path, status);
      if k !in perKey {
        perKey := perKey[k := 0];
      }
      perKey := perKey[k := perKey[k] + 1];
      total := total + 1;
    }
  }

  // ---- the invariant -----------------------------------------------------------

  function AtStage(s: State, g: Stage): set<Request> {
    set r | r in s.reqs && s.reqs[r].1 == g
  }

  /** Requests for key `k` whose first addition is done. */
  function CountedFor(s: State, k: Key): set<Request> {
    set r | r in s.reqs && s.reqs[r].0 == k && s.reqs[r].1 != Loaded
  }

  ghost predicate Inv(s: State) {
    && s.total == |AtStage(s, Finished)|
    && Sum(s.perKey) == s.total + |AtStage(s, Counted)|
    && (forall r :: r in s.reqs ==> s.reqs[r].0 in s.perKey)
    && (forall k :: k in s.perKey ==> s.perKey[k] == |CountedFor(s, k)|)
  }

  lemma LoadSets(s: State, r: Request, k: Key, j: Key)
    requires Enabled(s, LoadOrStore(r, k))
    ensures var s' := Apply(s, LoadOrStore(r, k));
            && AtStage(s', Finished) == AtStage(s, Finished) && AtStage(s', Counted) == AtStage(s, Counted)
            && CountedFor(s', j) == CountedFor(s, j)
  {
  }

  lemma LoadStep(s: State, r: Request, k: Key)
    requires Inv(s) && Enabled(s, LoadOrStore(r, k))
    ensures Inv(Apply(s, LoadOrStore(r, k)))
  {
    var s' := Apply(s, LoadOrStore(r, k));
    SumSet(s.perKey, k, 0);
    LoadSets(s, r, k, k);
    forall j | j in s'.perKey
      ensures s'.perKey[j] == |CountedFor(s', j)|
    {
      LoadSets(s, r, k, j);
      if j !in s.perKey {
        assert CountedFor(s, j) == {};
      }
    }
  }

  lemma AddKeySets(s: State, r: Request, j: Key)
    requires Enabled(s, AddKey(r))
    ensures var s' := Apply(s, AddKey(r));
            && AtStage(s', Finished) == AtStage(s, Finished)
            && r !in AtStage(s, Counted) && AtStage(s', Counted) == AtStage(s, Counted) + {r}
            && r !in CountedFor(s, j)
            && CountedFor(s', j) == if j == s.reqs[r].0 then CountedFor(s, j) + {r} else CountedFor(s, j)
  {
  }

  lemma AddKeyStep(s: State, r: Request)
    requires Inv(s) && Enabled(s, AddKey(r))
    ensures Inv(Apply(s, AddKey(r)))
  {
    var s' := Apply(s, AddKey(r));
    var k := s.reqs[r].0;
    SumSet(s.perKey, k, s.perKey[k] + 1);
    AddKeySets(s, r, k);
    forall j | j in s'.perKey
      ensures s'.perKey[j] == |CountedFor(s', j)|
    {
      AddKeySets(s, r, j);
    }
  }

  lemma AddTotalSets(s: State, r: Request, j: Key)
    requires Enabled(s, AddTotal(r))
    ensures var s' := Apply(s, AddTotal(r));
            && r !in AtStage(s, Finished) && AtStage(s', Finished) == AtStage(s, Finished) + {r}
            && r !in AtStage(s', Counted) && AtStage(s, Counted) == AtStage(s', Counted) + {r}
            && CountedFor(s', j) == CountedFor(s, j)
  {
  }

  lemma AddTotalStep(s: State, r: Request)
    requires Inv(s) && Enabled(s, AddTotal(r))
    ensures Inv(Apply(s, AddTotal(r)))
  {
    var s' := Apply(s, AddTotal(r));
    AddTotalSets(s, r, s.reqs[r].0);
    forall j | j in s'.perKey
      ensures s'.perKey[j] == |CountedFor(s', j)|
    {
      AddTotalSets(s, r, j);
    }
  }

  lemma {:induction false} InvRun(s: State, es: seq<Event>, t: State)
    requires Inv(s) && Run(s, es, t)
    ensures Inv(t)
    decreases |es|
  {
    if es != [] {
      match es[0] {
        case LoadOrStore(r, k) => LoadStep(s, r, k);
        case AddKey(r) => AddKeyStep(s, r);
        case AddTotal(r) => AddTotalStep(s, r);
      }
      InvRun(Apply(s, es[0]), es[1..], t);
    }
  }

  /** In every interleaving of request completions: each key's counter is the number
      of its requests that passed the first addition, the total the number that
      passed both, and the sum of the counters exceeds the total by exactly the
      requests between the two; with none in between, they agree. */
  lemma CountersAgree(es: seq<Event>, t: State)
    requires Run(INIT, es, t)
    ensures Sum(t.perKey) == t.total + |AtStage(t, Counted)|
    ensures t.total == |AtStage(t, Finished)|
    ensures forall k :: k in t.perKey ==> t.perKey[k] == |CountedFor(t, k)|
    ensures AtStage(t, Counted) == {} ==> Sum(t.perKey) == t.total
  {
    assert AtStage(INIT, Finished) == {} && AtStage(INIT, Counted) == {};
    InvRun(INIT, es, t);
  }

  // ---- one completion after the other ---------------------------------------------

  /** The three steps of one request with none in between do what `IncRequestCounter` does. */
  lemma EventsAreIncRequestCounter(s: State, r: Request, k: Key)
    requires r !in s.reqs
    ensures exists t :: Run(s, [LoadOrStore(r, k), AddKey(r), AddTotal(r)], t)
              && t.perKey == s.perKey[k := (if k in s.perKey then s.perKey[k] else 0) + 1]
              && t.total == s.total + 1
  {
    var e1, e2, e3 := LoadOrStore(r, k), AddKey(r), AddTotal(r);
    var s1 := Apply(s, e1);
    var s2 := Apply(s1, e2);
    var s3 := Apply(s2, e3);
    RunCons(s2, e3, [], s3);
    RunCons(s1, e2, [e3], s3);
    RunCons(s, e1, [e2, e3], s3);
  }

  lemma RunCons(s: State, e: Event, rest: seq<Event>, t: State)
    requires Enabled(s, e) && Run(Apply(s, e), rest, t)
    ensures Run(s, [e] + rest, t)
  {
    assert ([e] + rest)[1..] == rest;
  }
}
