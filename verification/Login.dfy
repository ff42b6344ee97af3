/** The login protocol: look a user up, create the row if there is none, verify
    the password otherwise, then issue a token.  Requests interleave between
    these steps; the UNIQUE constraint on usernames settles races.
    bcrypt is a parameter: `verify(hash, password)` is any relation, and hashing
    yields any non-empty hash that verifies its password, or fails. */
module Login {
  import opened Prelude

  type Id = string
  type Verify = (string, string) -> bool

  datatype User = User(id: Id, username: string, hash: string)

  // ---- the users table -------------------------------------------------------

  function ByUsername(rows: seq<User>, name: string): (r: Option<User>)
    ensures r.Some? ==> r.value in rows && r.value.username == name
    ensures r.None? ==> forall u | u in rows :: u.username != name
  {
    if rows == [] then None
    else if rows[0].username == name then Some(rows[0])
    else
      assert forall u | u in rows :: u == rows[0] || u in rows[1..];
      ByUsername(rows[1..], name)
  }

  predicate HasId(rows: seq<User>, id: Id) {
    exists i :: 0 <= i < |rows| && rows[i].id == id
  }

  /** The primary key on id and the UNIQUE constraint on username. */
  ghost predicate Keyed(rows: seq<User>) {
    forall i, j :: 0 <= i < j < |rows| ==> rows[i].id != rows[j].id && rows[i].username != rows[j].username
  }

  /** Whether the two constraints admit the row. */
  predicate Admits(rows: seq<User>, id: Id, name: string) {
    !HasId(rows, id) && ByUsername(rows, name).None?
  }

  function WithHash(rows: seq<User>, id: Id, hash: string): (r: seq<User>)
    ensures |r| == |rows|
    ensures forall i :: 0 <= i < |rows| ==> r[i] == if rows[i].id == id then rows[i].(hash := hash) else rows[i]
  {
    seq(|rows|, i requires 0 <= i < |rows| => if rows[i].id == id then rows[i].(hash := hash) else rows[i])
  }

  datatype LoginError = NotFound | DbFailed | HashFailed | InvalidCredentials | BusFailed

  class Repository {
    var rows: seq<User>

    constructor ()
      ensures rows == []
    {
      rows := [];
    }

    method GetByUsername(name: string, up: bool) returns (r: Result<User, LoginError>)
      ensures r == if !up then Err(DbFailed)
                   else match ByUsername(rows, name) case None => Err(NotFound) case Some(u) => Ok(u)
    {
      if !up { return Err(DbFailed); }
      var u := ByUsername(rows, name);
      r := if u.Some? then Ok(u.value) else Err(NotFound);
    }

    /** An insert that violates a constraint fails and changes nothing. */
    method Create(id: Option<Id>, name: string, hash: string, up: bool) returns (r: Result<User, LoginError>)
      requires Keyed(rows)
      modifies this
      ensures Keyed(rows)
      ensures r.Ok? <==> id.Some? && up && Admits(old(rows), id.value, name)
      ensures r.Ok? ==> r.value == User(id.value, name, hash) && rows == old(rows) + [r.value]
      ensures r.Err? ==> r.error == DbFailed && rows == old(rows)
    {
      if id.None? || !up || !Admits(rows, id.value, name) { return Err(DbFailed); }
      var u := User(id.value, name, hash);
      forall i | 0 <= i < |rows|
        ensures rows[i].id != u.id && rows[i].username != u.username
      {
        assert rows[i] in rows;
      }
      rows := rows + [u];
      r := Ok(u);
    }

    method UpdatePassword(id: Id, hash: string, up: bool) returns (ok: bool)
      requires Keyed(rows)
      modifies this
      ensures Keyed(rows)
      ensures ok == up
      ensures rows == if up then WithHash(old(rows), id, hash) else old(rows)
    {
      if up { rows := WithHash(rows, id, hash); }
      ok := up;
    }
  }

  /** What each call of one login does to the outside. */
  datatype Env = Env(lookupUp: bool, hash: Option<string>, id: Option<Id>, writeUp: bool, busUp: bool)

  /** bcrypt's law for the hash of a password. */
  predicate GoodHash(verify: Verify, hash: Option<string>, password: string) {
    hash.Some? ==> hash.value != "" && verify(hash.value, password)
  }

  /** The name has a row with a password hash. */
  predicate Stored(rows: seq<User>, name: string) {
    ByUsername(rows, name).Some? && ByUsername(rows, name).value.hash != ""
  }

  /** When a login gets as far as its token: a stored hash must verify; otherwise
      a hash must be obtained and written, and a new row must meet the constraints. */
  predicate Grants(verify: Verify, rows: seq<User>, name: string, password: string, env: Env) {
    && env.lookupUp
    && if Stored(rows, name) then verify(ByUsername(rows, name).value.hash, password)
       else
         && env.hash.Some? && env.writeUp
         && (ByUsername(rows, name).None? ==> env.id.Some? && !HasId(rows, env.id.value))
  }

  /** The table after a granted login: only a missing row or an empty hash is filled in. */
  function RowsAfter(rows: seq<User>, name: string, env: Env): seq<User> {
    match ByUsername(rows, name)
    case None => if env.id.Some? && env.hash.Some? then rows + [User(env.id.value, name, env.hash.value)] else rows
    case Some(u) => if u.hash == "" && env.hash.Some? then WithHash(rows, u.id, env.hash.value) else rows
  }

  /** One uninterrupted login: afterwards the granted user is stored, under the
      requested name, with a hash the password verifies against; existing rows with
      a hash never change. */
  method LoginOnce(repo: Repository, verify: Verify, name: string, password: string, env: Env)
    returns (r: Result<User, LoginError>)
    requires Keyed(repo.rows) && GoodHash(verify, env.hash, password)
    modifies repo
    ensures Keyed(repo.rows)
    ensures r.Ok? ==> ByUsername(repo.rows, name).Some?
                      && var u := ByUsername(repo.rows, name).value;
                         u.id == r.value.id && u.username == r.value.username == name && verify(u.hash, password)
    ensures forall u | u in old(repo.rows) && u.hash != "" :: u in repo.rows
    ensures r.Ok? <==> env.busUp && Grants(verify, old(repo.rows), name, password, env)
    ensures !env.lookupUp ==> r == Err(DbFailed) && repo.rows == old(repo.rows)
    ensures env.lookupUp && Stored(old(repo.rows), name) ==>
              && repo.rows == old(repo.rows)
              && (!verify(ByUsername(repo.rows, name).value.hash, password) ==> r == Err(InvalidCredentials))
    ensures env.lookupUp && ByUsername(old(repo.rows), name).None? && env.hash.None? ==> r == Err(HashFailed)
    ensures r.Ok? && ByUsername(old(repo.rows), name).None? ==>
              env.id.Some? && env.hash.Some?
              && repo.rows == old(repo.rows) + [User(env.id.value, name, env.hash.value)]
    ensures r == Err(InvalidCredentials) <==>
              env.lookupUp && Stored(old(repo.rows), name) && !Grants(verify, old(repo.rows), name, password, env)
    ensures repo.rows == if Grants(verify, old(repo.rows), name, password, env)
                         then RowsAfter(old(repo.rows), name, env) else old(repo.rows)
  {
    var got := repo.GetByUsername(name, env.lookupUp);
    var user;
    if got.Err? {
      if got.error != NotFound { return Err(got.error); }
      if env.hash.None? { return Err(HashFailed); }
      var made := repo.Create(env.id, name, env.hash.value, env.writeUp);
      if made.Err? { return Err(made.error); }
      user := made.value;
      FoundIn(repo.rows, user);
    } else {
      user := got.value;
      if user.hash == "" {
        if env.hash.None? { return Err(HashFailed); }
        ghost var before := repo.rows;
        var ok := repo.UpdatePassword(user.id, env.hash.value, env.writeUp);
        if !ok { return Err(DbFailed); }
        UpdatedRow(before, user, env.hash.value);
      } else if !verify(user.hash, password) {
        return Err(InvalidCredentials);
      }
    }
    if !env.busUp { return Err(BusFailed); }
    r := Ok(user);
  }

  lemma FoundIn(rows: seq<User>, u: User)
    requires Keyed(rows) && u in rows
    ensures ByUsername(rows, u.username) == Some(u)
  {
    var r := ByUsername(rows, u.username);
    var i :| 0 <= i < |rows| && rows[i] == u;
    var j :| 0 <= j < |rows| && rows[j] == r.value;
  }

  lemma UpdatedRow(rows: seq<User>, u: User, hash: string)
    requires Keyed(rows) && u in rows && u.hash == ""
    ensures ByUsername(WithHash(rows, u.id, hash), u.username) == Some(u.(hash := hash))
    ensures forall v | v in rows && v.hash != "" :: v in WithHash(rows, u.id, hash)
  {
    var rows' := WithHash(rows, u.id, hash);
    var i :| 0 <= i < |rows| && rows[i] == u;
    assert rows'[i] == u.(hash := hash);
    FoundIn(rows', rows'[i]);
    forall v | v in rows && v.hash != ""
      ensures v in rows'
    {
      var j :| 0 <= j < |rows| && rows[j] == v;
      assert rows'[j] == v;
    }
  }

  // ---- interleaved logins ------------------------------------------------------

  datatype Phase =
    | Begun
    | Hashing                      // no such user: about to hash
    | Creating(hash: string)       // about to insert
    | Rehashing(user: User)        // user with an empty hash: about to hash
    | Updating(user: User, hash: string)
    | Granted(user: User)          // about to generate the token
    | Done

  datatype Request = Request(name: string, password: string, phase: Phase)
  type Rid = nat

  /** A token carries an id and a username; `password` is the one it was issued for. */
  datatype Token = Token(id: Id, username: string, password: string)

  datatype State = State(rows: seq<User>, reqs: map<Rid, Request>, tokens: seq<Token>)

  datatype Event =
    | Begin(r: Rid, name: string, password: string)
    | Lookup(r: Rid, up: bool)
    | Hash(r: Rid, h: Option<string>)
    | Create(r: Rid, id: Option<Id>, up: bool)
    | Update(r: Rid, up: bool)
    | Issue(r: Rid)

  predicate Enabled(verify: Verify, s: State, e: Event) {
    match e
    case Begin(r, _, _) => r !in s.reqs
    case Lookup(r, _) => r in s.reqs && s.reqs[r].phase.Begun?
    case Hash(r, h) =>
      r in s.reqs && (s.reqs[r].phase.Hashing? || s.reqs[r].phase.Rehashing?)
      && GoodHash(verify, h, s.reqs[r].password)
    case Create(r, _, _) => r in s.reqs && s.reqs[r].phase.Creating?
    case Update(r, _) => r in s.reqs && s.reqs[r].phase.Updating?
    case Issue(r) => r in s.reqs && s.reqs[r].phase.Granted?
  }

  /** The phase of a request after its next step; `rows` is the table it acts on. */
  function NextPhase(verify: Verify, rows: seq<User>, q: Request, e: Event): Phase {
    match e
    case Lookup(_, up) =>
      if !up then Done
      else (match ByUsername(rows, q.name)
            case None => Hashing
            case Some(u) =>
              if u.hash == "" then Rehashing(u)
              else if verify(u.hash, q.password) then Granted(u) else Done)
    case Hash(_, h) =>
      if h.None? then Done
      else if q.phase.Rehashing? then Updating(q.phase.user, h.value) else Creating(h.value)
    case Create(_, id, up) =>
      if q.phase.Creating? && id.Some? && up && Admits(rows, id.value, q.name)
      then Granted(User(id.value, q.name, q.phase.hash)) else Done
    case Update(_, up) => if q.phase.Updating? && up then Granted(q.phase.user) else Done
    case _ => Done
  }

  function NextRows(rows: seq<User>, q: Request, e: Event): seq<User> {
    match e
    case Create(_, id, up) =>
      if q.phase.Creating? && id.Some? && up && Admits(rows, id.value, q.name)
      then rows + [User(id.value, q.name, q.phase.hash)] else rows
    case Update(_, up) =>
      if q.phase.Updating? && up then WithHash(rows, q.phase.user.id, q.phase.hash) else rows
    case _ => rows
  }

  function NextTokens(tokens: seq<Token>, q: Request, e: Event): seq<Token> {
    if e.Issue? && q.phase.Granted? then tokens + [Token(q.phase.user.id, q.phase.user.username, q.password)]
    else tokens
  }

  function Apply(verify: Verify, s: State, e: Event): State
    requires Enabled(verify, s, e)
  {
    match e
    case Begin(r, name, password) => s.(reqs := s.reqs[r := Request(name, password, Begun)])
    case _ =>
      var q := s.reqs[e.r];
      State(NextRows(s.rows, q, e),
            s.reqs[e.r := q.(phase := NextPhase(verify, s.rows, q, e))],
            NextTokens(s.tokens, q, e))
  }

  ghost predicate Run(verify: Verify, s: State, es: seq<Event>, t: State)
    decreases |es|
  {
    if es == [] then s == t
    else Enabled(verify, s, es[0]) && Run(verify, Apply(verify, s, es[0]), es[1..], t)
  }

  function Start(rows: seq<User>): State {
    State(rows, map[], [])
  }

  ghost predicate NoEmptyHash(rows: seq<User>) {
    forall i :: 0 <= i < |rows| ==> rows[i].hash != ""
  }

  /** What a request in progress may rely on. */
  ghost predicate Sound(verify: Verify, rows: seq<User>, q: Request) {
    match q.phase
    case Creating(h) => h != "" && verify(h, q.password)
    case Rehashing(_) => false
    case Updating(_, _) => false
    case Granted(u) => u in rows && u.username == q.name && verify(u.hash, q.password)
    case _ => true
  }

  /** A token's id is the stored id of its username, and its password verifies against the stored hash. */
  ghost predicate Backed(verify: Verify, rows: seq<User>, t: Token) {
    exists u :: u in rows && u.id == t.id && u.username == t.username && verify(u.hash, t.password)
  }

  ghost predicate Inv(verify: Verify, s: State) {
    && Keyed(s.rows) && NoEmptyHash(s.rows)
    && (forall r :: r in s.reqs ==> Sound(verify, s.rows, s.reqs[r]))
    && (forall i :: 0 <= i < |s.tokens| ==> Backed(verify, s.rows, s.tokens[i]))
  }

  lemma RowsGrow(verify: Verify, s: State, e: Event)
    requires Inv(verify, s) && Enabled(verify, s, e)
    ensures s.rows <= Apply(verify, s, e).rows
    ensures Keyed(Apply(verify, s, e).rows) && NoEmptyHash(Apply(verify, s, e).rows)
  {
    if !e.Begin? {
      var q := s.reqs[e.r];
      assert Sound(verify, s.rows, q);
      if e.Create? && NextRows(s.rows, q, e) != s.rows {
        forall i | 0 <= i < |s.rows|
          ensures s.rows[i].id != e.id.value && s.rows[i].username != q.name
        {
          assert s.rows[i] in s.rows;
        }
      }
    }
  }

  lemma SoundNext(verify: Verify, s: State, e: Event)
    requires Inv(verify, s) && Enabled(verify, s, e) && !e.Begin?
    ensures var q := s.reqs[e.r];
            Sound(verify, NextRows(s.rows, q, e), q.(phase := NextPhase(verify, s.rows, q, e)))
  {
    var q := s.reqs[e.r];
    assert Sound(verify, s.rows, q);
    if e.Create? {
      var rows' := NextRows(s.rows, q, e);
      assert rows' != s.rows ==> rows'[|rows'| - 1] in rows';
    }
  }

  lemma InvStep(verify: Verify, s: State, e: Event)
    requires Inv(verify, s) && Enabled(verify, s, e)
    ensures Inv(verify, Apply(verify, s, e))
  {
    var s' := Apply(verify, s, e);
    RowsGrow(verify, s, e);
    assert forall u :: u in s.rows ==> u in s'.rows;
    if !e.Begin? {
      SoundNext(verify, s, e);
      assert Sound(verify, s.rows, s.reqs[e.r]);
    }
    forall r | r in s'.reqs
      ensures Sound(verify, s'.rows, s'.reqs[r])
    {
      if r != e.r {
        assert Sound(verify, s.rows, s.reqs[r]);
      }
    }
    forall i | 0 <= i < |s'.tokens|
      ensures Backed(verify, s'.rows, s'.tokens[i])
    {
      if i < |s.tokens| {
        assert Backed(verify, s.rows, s.tokens[i]);
      }
    }
  }

  lemma {:induction false} InvRun(verify: Verify, s: State, es: seq<Event>, t: State)
    requires Inv(verify, s) && Run(verify, s, es, t)
    ensures Inv(verify, t) && s.rows <= t.rows
    decreases |es|
  {
    if es != [] {
      InvStep(verify, s, es[0]);
      RowsGrow(verify, s, es[0]);
      InvRun(verify, Apply(verify, s, es[0]), es[1..], t);
    }
  }

  /** Every token of a run from this table is backed by it, and no stored row changes. */
  ghost predicate SafeRun(verify: Verify, rows: seq<User>, t: State) {
    && Keyed(t.rows) && rows <= t.rows
    && forall i :: 0 <= i < |t.tokens| ==> Backed(verify, t.rows, t.tokens[i])
  }

  /** From a table without empty hashes, in every interleaving of logins: each
      username keeps at most one id, stored ids and hashes never change, and every
      token carries the stored id of its username and was issued for a password
      that verifies against the stored hash. */
  lemma LoginsAreSafe(verify: Verify, rows: seq<User>, es: seq<Event>, t: State)
    requires Keyed(rows) && NoEmptyHash(rows) && Run(verify, Start(rows), es, t)
    ensures SafeRun(verify, rows, t)
    ensures forall i, j :: 0 <= i < |t.tokens| && 0 <= j < |t.tokens| && t.tokens[i].username == t.tokens[j].username
              ==> t.tokens[i].id == t.tokens[j].id
  {
    InvRun(verify, Start(rows), es, t);
    forall i, j | 0 <= i < |t.tokens| && 0 <= j < |t.tokens| && t.tokens[i].username == t.tokens[j].username
      ensures t.tokens[i].id == t.tokens[j].id
    {
      assert Backed(verify, t.rows, t.tokens[i]) && Backed(verify, t.rows, t.tokens[j]);
      var u :| u in t.rows && u.id == t.tokens[i].id && u.username == t.tokens[i].username;
      var v :| v in t.rows && v.id == t.tokens[j].id && v.username == t.tokens[j].username;
      FoundIn(t.rows, u);
      FoundIn(t.rows, v);
    }
  }

  // ---- the condition is exact --------------------------------------------------

  lemma RunCons(verify: Verify, s: State, e: Event, rest: seq<Event>, t: State)
    requires Enabled(verify, s, e) && Run(verify, Apply(verify, s, e), rest, t)
    ensures Run(verify, s, [e] + rest, t)
  {
    assert ([e] + rest)[1..] == rest;
  }

  /** Any row with an empty hash already breaks "a stored hash never changes":
      a single login overwrites it. */
  lemma EmptyHashIsOverwritten(verify: Verify, rows: seq<User>, i: nat, password: string, h: string)
    requires Keyed(rows) && i < |rows| && rows[i].hash == ""
    requires h != "" && verify(h, password)
    ensures exists es, t :: Run(verify, Start(rows), es, t) && !SafeRun(verify, rows, t)
  {
    var u := rows[i];
    var s0 := Start(rows);
    assert rows[i] in rows;
    FoundIn(rows, u);
    var e1, e2, e3, e4 := Begin(0, u.username, password), Lookup(0, true), Hash(0, Some(h)), Update(0, true);
    var s1 := Apply(verify, s0, e1);
    var s2 := Apply(verify, s1, e2);
    var s3 := Apply(verify, s2, e3);
    var s4 := Apply(verify, s3, e4);
    assert s4.rows == WithHash(rows, u.id, h);
    assert s4.rows[i] != rows[i];
    assert Run(verify, s4, [], s4);
    RunCons(verify, s3, e4, [], s4);
    RunCons(verify, s2, e3, [e4], s4);
    RunCons(verify, s1, e2, [e3, e4], s4);
    RunCons(verify, s0, e1, [e2, e3, e4], s4);
  }

  /** As long as some password can be hashed at all, the safety above holds of all
      runs exactly from the tables without empty hashes. */
  lemma SafeExactlyWithoutEmptyHashes(verify: Verify, rows: seq<User>, password: string, h: string)
    requires Keyed(rows) && h != "" && verify(h, password)
    ensures NoEmptyHash(rows) <==> forall es, t :: Run(verify, Start(rows), es, t) ==> SafeRun(verify, rows, t)
  {
    if NoEmptyHash(rows) {
      forall es, t | Run(verify, Start(rows), es, t)
        ensures SafeRun(verify, rows, t)
      {
        LoginsAreSafe(verify, rows, es, t);
      }
    } else {
      var i: nat :| i < |rows| && rows[i].hash == "";
      EmptyHashIsOverwritten(verify, rows, i, password, h);
    }
  }

  lemma {:induction false} RunAppend(verify: Verify, s: State, es: seq<Event>, t: State, fs: seq<Event>, u: State)
    requires Run(verify, s, es, t) && Run(verify, t, fs, u)
    ensures Run(verify, s, es + fs, u)
    decreases |es|
  {
    if es == [] {
      assert es + fs == fs;
    } else {
      RunAppend(verify, Apply(verify, s, es[0]), es[1..], t, fs, u);
      assert (es + fs)[1..] == es[1..] + fs;
    }
  }

  /** A request finds the empty hash and computes a new one. */
  lemma FindEmpty(verify: Verify, s: State, r: Rid, u: User, p: string, h: string)
    returns (es: seq<Event>, t: State)
    requires r !in s.reqs && ByUsername(s.rows, u.username) == Some(u) && u.hash == ""
    requires h != "" && verify(h, p)
    ensures Run(verify, s, es, t)
    ensures t == s.(reqs := s.reqs[r := Request(u.username, p, Updating(u, h))])
  {
    var e1, e2, e3 := Begin(r, u.username, p), Lookup(r, true), Hash(r, Some(h));
    var s1 := Apply(verify, s, e1);
    var s2 := Apply(verify, s1, e2);
    t := Apply(verify, s2, e3);
    assert t.reqs == s.reqs[r := Request(u.username, p, Updating(u, h))];
    RunCons(verify, s2, e3, [], t);
    RunCons(verify, s1, e2, [e3], t);
    RunCons(verify, s, e1, [e2, e3], t);
    es := [e1] + [e2, e3];
  }

  /** Both requests store their hash and the first gets its token. */
  lemma UpdateBoth(verify: Verify, s: State, u: User, p1: string, h1: string, p2: string, h2: string)
    returns (es: seq<Event>, t: State)
    requires s == State([u], map[0 := Request(u.username, p1, Updating(u, h1)),
                                 1 := Request(u.username, p2, Updating(u, h2))], [])
    ensures Run(verify, s, es, t)
    ensures t.tokens == [Token(u.id, u.username, p1)] && t.rows == [u.(hash := h2)]
  {
    var e1, e2, e3 := Update(0, true), Update(1, true), Issue(0);
    var s1 := Apply(verify, s, e1);
    var s2 := Apply(verify, s1, e2);
    t := Apply(verify, s2, e3);
    RunCons(verify, s2, e3, [], t);
    RunCons(verify, s1, e2, [e3], t);
    RunCons(verify, s, e1, [e2, e3], t);
    es := [e1] + [e2, e3];
  }

  /** Worse, two first logins to such a row can both be granted with different
      passwords: the later update wins, and the earlier request's token was issued
      for a password that does not verify against what is stored. */
  lemma EmptyHashRace(verify: Verify, id: Id, name: string, p1: string, h1: string, p2: string, h2: string)
    requires h1 != "" && h2 != "" && verify(h1, p1) && verify(h2, p2) && !verify(h2, p1)
    ensures exists es, t :: Run(verify, Start([User(id, name, "")]), es, t)
              && t.tokens == [Token(id, name, p1)] && !Backed(verify, t.rows, t.tokens[0])
  {
    var u := User(id, name, "");
    var s0 := Start([u]);
    var es1, s1 := FindEmpty(verify, s0, 0, u, p1, h1);
    var es2, s2 := FindEmpty(verify, s1, 1, u, p2, h2);
    var es3, t := UpdateBoth(verify, s2, u, p1, h1, p2, h2);
    RunAppend(verify, s0, es1, s1, es2, s2);
    RunAppend(verify, s0, es1 + es2, s2, es3, t);
  }

  // ---- one request after the other ---------------------------------------------

  /** The steps of one login whose calls turn out as in `env`, with no other request in between. */
  function LoginEvents(verify: Verify, rows: seq<User>, r: Rid, name: string, password: string, env: Env): seq<Event> {
    [Begin(r, name, password), Lookup(r, env.lookupUp)] + WriteEvents(rows, r, name, env)
    + if Grants(verify, rows, name, password, env) && env.busUp then [Issue(r)] else []
  }

  function WriteEvents(rows: seq<User>, r: Rid, name: string, env: Env): seq<Event> {
    if !env.lookupUp || Stored(rows, name) then []
    else if env.hash.None? then [Hash(r, env.hash)]
    else if ByUsername(rows, name).None? then [Hash(r, env.hash), Create(r, env.id, env.writeUp)]
    else [Hash(r, env.hash), Update(r, env.writeUp)]
  }

  /** The user a granted login is for. */
  function Grantee(rows: seq<User>, name: string, env: Env): User
    requires ByUsername(rows, name).None? ==> env.id.Some? && env.hash.Some?
  {
    match ByUsername(rows, name)
    case None => User(env.id.value, name, env.hash.value)
    case Some(u) => u
  }

  lemma StartRun(verify: Verify, s: State, r: Rid, name: string, password: string, up: bool) returns (t: State)
    requires r !in s.reqs
    ensures Run(verify, s, [Begin(r, name, password), Lookup(r, up)], t)
    ensures r in t.reqs && t.rows == s.rows && t.tokens == s.tokens
    ensures t.reqs[r] == Request(name, password,
                                 NextPhase(verify, s.rows, Request(name, password, Begun), Lookup(r, up)))
  {
    var e1, e2 := Begin(r, name, password), Lookup(r, up);
    var s1 := Apply(verify, s, e1);
    t := Apply(verify, s1, e2);
    RunCons(verify, s1, e2, [], t);
    RunCons(verify, s, e1, [e2], t);
  }

  lemma HashRun(verify: Verify, s: State, r: Rid, h: string, e: Event) returns (t: State)
    requires r in s.reqs && (s.reqs[r].phase.Hashing? || s.reqs[r].phase.Rehashing?)
    requires GoodHash(verify, Some(h), s.reqs[r].password)
    requires e.r == r && if s.reqs[r].phase.Hashing? then e.Create? else e.Update?
    ensures Run(verify, s, [Hash(r, Some(h)), e], t)
    ensures var q := s.reqs[r].(phase := NextPhase(verify, s.rows, s.reqs[r], Hash(r, Some(h))));
            && r in t.reqs && t.reqs[r] == q.(phase := NextPhase(verify, s.rows, q, e))
            && t.rows == NextRows(s.rows, q, e) && t.tokens == s.tokens
  {
    var e1 := Hash(r, Some(h));
    var s1 := Apply(verify, s, e1);
    t := Apply(verify, s1, e);
    RunCons(verify, s1, e, [], t);
    RunCons(verify, s, e1, [e], t);
  }

  /** From the looked-up row to the grant or the failure. */
  lemma WriteRun(verify: Verify, s: State, r: Rid, name: string, password: string, env: Env) returns (t: State)
    requires r in s.reqs && GoodHash(verify, env.hash, password)
    requires s.reqs[r] == Request(name, password,
                                  NextPhase(verify, s.rows, Request(name, password, Begun), Lookup(r, env.lookupUp)))
    ensures Run(verify, s, WriteEvents(s.rows, r, name, env), t)
    ensures r in t.reqs && t.tokens == s.tokens && t.reqs[r].password == password
    ensures t.rows == if Grants(verify, s.rows, name, password, env) then RowsAfter(s.rows, name, env) else s.rows
    ensures t.reqs[r].phase == if Grants(verify, s.rows, name, password, env)
                               then Granted(Grantee(s.rows, name, env)) else Done
  {
    var es := WriteEvents(s.rows, r, name, env);
    if es == [] {
      t := s;
    } else if env.hash.None? {
      t := Apply(verify, s, es[0]);
      RunCons(verify, s, es[0], [], t);
    } else {
      t := HashRun(verify, s, r, env.hash.value, es[1]);
    }
  }

  /** The interleaved model and the uninterrupted method agree: the steps of one
      login leave the table that `LoginOnce` leaves, and issue its user's token
      exactly when `LoginOnce` succeeds. */
  lemma EventsAreLoginOnce(verify: Verify, s: State, r: Rid, name: string, password: string, env: Env)
    requires r !in s.reqs && GoodHash(verify, env.hash, password)
    ensures var granted := Grants(verify, s.rows, name, password, env);
            exists t :: Run(verify, s, LoginEvents(verify, s.rows, r, name, password, env), t)
              && t.rows == (if granted then RowsAfter(s.rows, name, env) else s.rows)
              && t.tokens == s.tokens
                 + (if granted && env.busUp then [Token(Grantee(s.rows, name, env).id, name, password)] else [])
              && r in t.reqs && (t.reqs[r].phase.Done? <==> !granted || env.busUp)
  {
    var t := LoginRun(verify, s, r, name, password, env);
  }

  lemma LoginRun(verify: Verify, s: State, r: Rid, name: string, password: string, env: Env) returns (t: State)
    requires r !in s.reqs && GoodHash(verify, env.hash, password)
    ensures Run(verify, s, LoginEvents(verify, s.rows, r, name, password, env), t)
    ensures t.rows == if Grants(verify, s.rows, name, password, env) then RowsAfter(s.rows, name, env) else s.rows
    ensures t.tokens == s.tokens
              + if Grants(verify, s.rows, name, password, env) && env.busUp
                then [Token(Grantee(s.rows, name, env).id, name, password)] else []
    ensures r in t.reqs && (t.reqs[r].phase.Done? <==> !Grants(verify, s.rows, name, password, env) || env.busUp)
  {
    var first, writes := [Begin(r, name, password), Lookup(r, env.lookupUp)], WriteEvents(s.rows, r, name, env);
    var s1 := StartRun(verify, s, r, name, password, env.lookupUp);
    t := WriteRun(verify, s1, r, name, password, env);
    RunAppend(verify, s, first, s1, writes, t);
    if Grants(verify, s.rows, name, password, env) && env.busUp {
      var s2 := t;
      t := Apply(verify, s2, Issue(r));
      RunCons(verify, s2, Issue(r), [], t);
      RunAppend(verify, s, first + writes, s2, [Issue(r)], t);
    } else {
      assert first + writes + [] == first + writes;
    }
  }

  /** A failed lookup ends the request; a missing user is hashed for and created; a
      user whose stored hash does not verify is refused; one without a hash gets one. */
  lemma AfterLookup(verify: Verify, s: State, r: Rid, up: bool)
    requires Enabled(verify, s, Lookup(r, up))
    ensures var (q, q') := (s.reqs[r], Apply(verify, s, Lookup(r, up)).reqs[r]);
            && Apply(verify, s, Lookup(r, up)).rows == s.rows
            && (!up ==> q'.phase == Done)
            && (up && (forall u | u in s.rows :: u.username != q.name) ==> q'.phase == Hashing)
            && (forall u | u in s.rows && Keyed(s.rows) && u.username == q.name && up ::
                  q'.phase == if u.hash == "" then Rehashing(u)
                              else if verify(u.hash, q.password) then Granted(u) else Done)
  {
    var q := s.reqs[r];
    forall u | u in s.rows && Keyed(s.rows) && u.username == q.name
      ensures ByUsername(s.rows, q.name) == Some(u)
    {
      FoundIn(s.rows, u);
    }
  }

  /** A failed hash, insert or update ends the request without touching the table. */
  lemma AfterFailure(verify: Verify, s: State, e: Event)
    requires Enabled(verify, s, e)
    requires (e.Hash? && e.h.None?) || (e.Create? && (e.id.None? || !e.up)) || (e.Update? && !e.up)
    ensures Apply(verify, s, e).rows == s.rows && Apply(verify, s, e).reqs[e.r].phase == Done
  {
  }

  /** An insert clashes exactly with a row of the same id or the same username. */
  lemma AdmitsIff(rows: seq<User>, id: Id, name: string)
    ensures Admits(rows, id, name) <==> forall u | u in rows :: u.id != id && u.username != name
  {
    if HasId(rows, id) {
      var i :| 0 <= i < |rows| && rows[i].id == id;
      assert rows[i] in rows;
    }
    forall u | u in rows && u.id == id
      ensures HasId(rows, id)
    {
      var i :| 0 <= i < |rows| && rows[i] == u;
    }
  }
}
