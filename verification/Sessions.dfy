/** Session creation: one transaction that inserts a session row and its member
    rows under the primary and foreign keys of the schema, and the service
    operations that drive it. */
module Sessions {
  import opened Prelude

  /** Identifiers arrive as text and are stored as UUIDs; `Parse` is Postgres's
      reading of a text as a UUID, which may fail and may identify different texts. */
  type Uuid = nat
  type Parse = string -> Option<Uuid>

  datatype Role = Owner | Player
  datatype Session = Session(owner: Uuid, status: string)
  datatype Db = Db(sessions: map<Uuid, Session>, members: map<(Uuid, Uuid), Role>)
  datatype DbError = DbError

  /** Which of the steps outside the data itself succeed. */
  datatype Faults = Faults(beginUp: bool, sessionUp: bool, memberUp: nat -> bool, commitUp: bool)

  predicate AllUp(f: Faults, n: nat) {
    f.beginUp && f.sessionUp && f.commitUp && forall i :: 0 <= i < n ==> f.memberUp(i)
  }

  function RoleOf(owner: string, user: string): Role {
    if user == owner then Owner else Player
  }

  /** All texts are UUIDs and no two name the same UUID. */
  predicate DistinctUuids(parse: Parse, us: seq<string>) {
    && (forall i :: 0 <= i < |us| ==> parse(us[i]).Some?)
    && (forall i, j :: 0 <= i < j < |us| ==> parse(us[i]) != parse(us[j]))
  }

  function Uuids(parse: Parse, us: seq<string>): (r: seq<Uuid>)
    requires DistinctUuids(parse, us)
    ensures |r| == |us|
    ensures forall i :: 0 <= i < |us| ==> r[i] == parse(us[i]).value
    ensures forall i, j :: 0 <= i < j < |us| ==> r[i] != r[j]
  {
    seq(|us|, i requires 0 <= i < |us| => parse(us[i]).value)
  }

  /** Exactly when the data allow the transaction: fresh id, well-formed distinct
      members, and no left-over member row under that id. */
  ghost predicate Insertable(parse: Parse, db: Db, id: Uuid, owner: string, us: seq<string>) {
    && id !in db.sessions
    && parse(owner).Some?
    && DistinctUuids(parse, us)
    && (forall i :: 0 <= i < |us| ==> (id, parse(us[i]).value) !in db.members)
  }

  /** A list that names a member twice, be it in two spellings of one UUID, is refused. */
  lemma DuplicatesAreRefused(parse: Parse, db: Db, id: Uuid, owner: string, us: seq<string>, i: nat, j: nat)
    requires i < j < |us| && parse(us[i]) == parse(us[j])
    ensures !Insertable(parse, db, id, owner, us)
  {
  }

  /** `db'` is `db` plus one session and one row for each listed member. */
  ghost predicate Adds(parse: Parse, db: Db, db': Db, id: Uuid, owner: string, status: string, us: seq<string>)
    requires parse(owner).Some? && DistinctUuids(parse, us)
  {
    && db'.sessions == db.sessions[id := Session(parse(owner).value, status)]
    && (forall i :: 0 <= i < |us| ==>
          (id, Uuids(parse, us)[i]) in db'.members
          && db'.members[(id, Uuids(parse, us)[i])] == RoleOf(owner, us[i]))
    && (forall k :: k in db.members && !(k.0 == id && k.1 in Uuids(parse, us)) ==>
          k in db'.members && db'.members[k] == db.members[k])
    && (forall k :: k in db'.members ==> k in db.members || (k.0 == id && k.1 in Uuids(parse, us)))
  }

  /** `after` is `before` plus the rows of the listed members. */
  ghost predicate MembersAdded(parse: Parse, before: map<(Uuid, Uuid), Role>, after: map<(Uuid, Uuid), Role>,
                               id: Uuid, owner: string, us: seq<string>) {
    && (forall j :: 0 <= j < |us| && parse(us[j]).Some? ==>
          (id, parse(us[j]).value) in after && after[(id, parse(us[j]).value)] == RoleOf(owner, us[j]))
    && (forall k :: k in before ==> k in after && after[k] == before[k])
    && (forall k :: k in after ==>
          k in before || (k.0 == id && exists j :: 0 <= j < |us| && parse(us[j]) == Some(k.1)))
  }

  lemma NextDistinct(parse: Parse, before: map<(Uuid, Uuid), Role>, after: map<(Uuid, Uuid), Role>,
                     id: Uuid, owner: string, us: seq<string>, u: string)
    requires MembersAdded(parse, before, after, id, owner, us) && DistinctUuids(parse, us)
    requires parse(u).Some? && (id, parse(u).value) !in after
    ensures DistinctUuids(parse, us + [u])
  {
    forall j | 0 <= j < |us|
      ensures parse(us[j]) != parse(u)
    {
      assert (id, parse(us[j]).value) in after;
    }
  }

  lemma NextAdded(parse: Parse, before: map<(Uuid, Uuid), Role>, after: map<(Uuid, Uuid), Role>,
                  id: Uuid, owner: string, us: seq<string>, u: string)
    requires MembersAdded(parse, before, after, id, owner, us)
    requires parse(u).Some? && (id, parse(u).value) !in after
    ensures MembersAdded(parse, before, after[(id, parse(u).value) := RoleOf(owner, u)], id, owner, us + [u])
  {
    var us' := us + [u];
    assert us'[|us|] == u && forall j :: 0 <= j < |us| ==> us'[j] == us[j];
  }

  lemma NextMember(parse: Parse, before: map<(Uuid, Uuid), Role>, after: map<(Uuid, Uuid), Role>,
                   id: Uuid, owner: string, us: seq<string>, i: nat)
    requires i < |us| && MembersAdded(parse, before, after, id, owner, us[..i]) && DistinctUuids(parse, us[..i])
    requires parse(us[i]).Some? && (id, parse(us[i]).value) !in after
    ensures DistinctUuids(parse, us[..i + 1]) && (id, parse(us[i]).value) !in before
    ensures MembersAdded(parse, before, after[(id, parse(us[i]).value) := RoleOf(owner, us[i])], id, owner, us[..i + 1])
  {
    NextDistinct(parse, before, after, id, owner, us[..i], us[i]);
    NextAdded(parse, before, after, id, owner, us[..i], us[i]);
    assert us[..i + 1] == us[..i] + [us[i]];
  }

  lemma ClashMeans(parse: Parse, before: map<(Uuid, Uuid), Role>, after: map<(Uuid, Uuid), Role>,
                   id: Uuid, owner: string, us: seq<string>, i: nat)
    requires i < |us| && MembersAdded(parse, before, after, id, owner, us[..i])
    requires parse(us[i]).Some? && (id, parse(us[i]).value) in after
    ensures (id, parse(us[i]).value) in before || !DistinctUuids(parse, us)
  {
    if (id, parse(us[i]).value) !in before {
      var j :| 0 <= j < i && parse(us[..i][j]) == parse(us[i]);
      assert us[j] == us[..i][j];
    }
  }

  class Repository {
    const parse: Parse
    var db: Db

    constructor (parse: Parse)
      ensures this.parse == parse && db == Db(map[], map[])
    {
      this.parse := parse;
      db := Db(map[], map[]);
    }

    /** The call succeeds exactly when every step is up and the data allow it; it
        then adds exactly the listed rows, and otherwise it leaves both tables as
        they were, a duplicate member included. */
    method CreateSession(id: Option<Uuid>, owner: string, status: string, us: seq<string>, f: Faults)
      returns (r: Result<Uuid, DbError>)
      modifies this
      ensures r.Ok? <==> id.Some? && AllUp(f, |us|) && Insertable(parse, old(db), id.value, owner, us)
      ensures r.Ok? ==> r.value == id.value && Adds(parse, old(db), db, id.value, owner, status, us)
      ensures r.Ok? ==> parse(owner).Some? && id.value in db.sessions
                        && db.sessions[id.value] == Session(parse(owner).value, status)
      ensures r.Err? ==> db == old(db)
      ensures !f.beginUp || !f.sessionUp || !f.commitUp || (exists i :: 0 <= i < |us| && !f.memberUp(i)) ==>
                r.Err? && db == old(db)
    {
      if id.None? { return Err(DbError); }
      var sessionId := id.value;
      if !f.beginUp { return Err(DbError); }
      var ownerId := parse(owner);
      if ownerId.None? || sessionId in db.sessions || !f.sessionUp { return Err(DbError); }
      var sessions := db.sessions[sessionId := Session(ownerId.value, status)];
      var ok, members := InsertMembers(sessionId, owner, us, f);
      if !ok || !f.commitUp { return Err(DbError); }
      db := Db(sessions, members);
      ghost var ids := Uuids(parse, us);
      assert forall j :: 0 <= j < |us| ==> ids[j] in ids;
      return Ok(sessionId);
    }

    /** The member rows of the transaction, one insert after the other. */
    method InsertMembers(sessionId: Uuid, owner: string, us: seq<string>, f: Faults)
      returns (ok: bool, members: map<(Uuid, Uuid), Role>)
      ensures ok <==> && (forall i :: 0 <= i < |us| ==> f.memberUp(i)) && DistinctUuids(parse, us)
                      && (forall i :: 0 <= i < |us| ==> (sessionId, parse(us[i]).value) !in db.members)
      ensures ok ==> MembersAdded(parse, db.members, members, sessionId, owner, us)
    {
      members := db.members;
      var i := 0;
      while i < |us|
        invariant 0 <= i <= |us|
        invariant forall j :: 0 <= j < i ==> f.memberUp(j)
        invariant DistinctUuids(parse, us[..i])
        invariant forall j :: 0 <= j < i ==> (sessionId, parse(us[j]).value) !in db.members
        invariant MembersAdded(parse, db.members, members, sessionId, owner, us[..i])
      {
        var role := RoleOf(owner, us[i]);
        var user := parse(us[i]);
        if user.None? || !f.memberUp(i) { return false, members; }
        var key := (sessionId, user.value);
        if key in members {
          // primary key violation: an earlier entry of the list, or a left-over row
          ClashMeans(parse, db.members, members, sessionId, owner, us, i);
          return false, members;
        }
        NextMember(parse, db.members, members, sessionId, owner, us, i);
        members := members[key := role];
        i := i + 1;
      }
      assert us[..i] == us;
      ok := true;
    }

    method IsMember(session: string, user: string, up: bool) returns (r: Result<bool, DbError>)
      ensures r.Ok? <==> up && parse(session).Some? && parse(user).Some?
      ensures r.Ok? ==> r.value == ((parse(session).value, parse(user).value) in db.members)
    {
      var s, u := parse(session), parse(user);
      if !up || s.None? || u.None? { return Err(DbError); }
      r := Ok((s.value, u.value) in db.members);
    }
  }

  // ---- the service ---------------------------------------------------------

  datatype Notice =
    | Created(correlation: string, user: string, session: Uuid)
    | Assigned(correlation: string, user: string, sessionText: string)

  datatype AssignError = Forbidden | Failed

  class Service {
    const repo: Repository
    /** With no NATS connection the publish functions do nothing and report success. */
    const connected: bool
    var notices: seq<Notice>

    constructor (repo: Repository, connected: bool)
      ensures this.repo == repo && this.connected == connected && notices == []
    {
      this.repo, this.connected, notices := repo, connected, [];
    }

    method Publish(n: Notice, up: bool) returns (ok: bool)
      modifies this
      ensures ok == (!connected || up)
      ensures notices == old(notices) + if connected && up then [n] else []
    {
      if !connected { return true; }
      if up { notices := notices + [n]; }
      ok := up;
    }

    /** A session that is created but cannot be announced stays created although an error is returned. */
    method CreateSessionForUser(user: string, corr: string, id: Option<Uuid>, f: Faults, up: bool)
      returns (r: Result<Uuid, DbError>)
      modifies this, repo
      ensures var made := id.Some? && AllUp(f, 1) && Insertable(repo.parse, old(repo.db), id.value, user, [user]);
              && (made ==> Adds(repo.parse, old(repo.db), repo.db, id.value, user, "created", [user]))
              && (!made ==> repo.db == old(repo.db))
              && (r.Ok? <==> made && (!connected || up))
              && notices == old(notices) + if made && connected && up then [Created(corr, user, id.value)] else []
      ensures OpStep(repo.parse, old(repo.db), ForUser(user, id, f), repo.db)
    {
      r := repo.CreateSession(id, user, "created", [user], f);
      if r.Err? { return; }
      var ok := Publish(Created(corr, user, r.value), up);
      if !ok { r := Err(DbError); }
    }

    /** Only a member is assigned a server, and only a member's assignment is announced. */
    method AssignServer(user: string, session: string, corr: string, dbUp: bool, up: bool)
      returns (error: Option<AssignError>)
      modifies this
      ensures var parse := repo.parse;
              var readable := dbUp && parse(session).Some? && parse(user).Some?;
              var member := readable && (parse(session).value, parse(user).value) in repo.db.members;
              && (error.None? <==> member && (!connected || up))
              && (error == Some(Forbidden) <==> readable && !member)
              && notices == old(notices) + if member && connected && up then [Assigned(corr, user, session)] else []
    {
      var r := repo.IsMember(session, user, dbUp);
      if r.Err? { return Some(Failed); }
      if !r.value { return Some(Forbidden); }
      var ok := Publish(Assigned(corr, user, session), up);
      error := if ok then None else Some(Failed);
    }

    /** The first of the user ids, or failing those of the session ids, owns the session. */
    method HandleMatched(userIds: seq<string>, sessionIds: seq<string>, corr: string,
                         id: Option<Uuid>, f: Faults, up: bool)
      modifies this, repo
      ensures var us := MatchedMembers(userIds, sessionIds);
              var made := us != [] && id.Some? && AllUp(f, |us|)
                          && Insertable(repo.parse, old(repo.db), id.value, us[0], us);
              && (made ==> Adds(repo.parse, old(repo.db), repo.db, id.value, us[0], "created", us))
              && (!made ==> repo.db == old(repo.db))
              && notices == old(notices) + if made && connected && up then [Created(corr, us[0], id.value)] else []
      ensures OpStep(repo.parse, old(repo.db), ForMatch(userIds, sessionIds, id, f), repo.db)
      ensures userIds != [] && id.Some? && id.value !in old(repo.db).sessions && id.value in repo.db.sessions ==>
                Adds(repo.parse, old(repo.db), repo.db, id.value, userIds[0], "created", userIds)
      ensures userIds == [] && sessionIds != []
              && id.Some? && id.value !in old(repo.db).sessions && id.value in repo.db.sessions ==>
                Adds(repo.parse, old(repo.db), repo.db, id.value, sessionIds[0], "created", sessionIds)
      ensures userIds == [] && sessionIds == [] ==> repo.db == old(repo.db) && notices == old(notices)
    {
      var us := userIds;
      if |us| == 0 { us := sessionIds; }
      if |us| == 0 { return; }
      var owner := us[0];
      var r := repo.CreateSession(id, owner, "created", us, f);
      if r.Err? { return; }
      var _ := Publish(Created(corr, owner, r.value), up);
    }
  }

  function MatchedMembers(userIds: seq<string>, sessionIds: seq<string>): seq<string> {
    if |userIds| == 0 then sessionIds else userIds
  }

  // ---- every database state the service reaches -----------------------------

  /** The two ways the service creates a session both list the owner first. */
  datatype Op =
    | ForUser(user: string, id: Option<Uuid>, f: Faults)
    | ForMatch(userIds: seq<string>, sessionIds: seq<string>, id: Option<Uuid>, f: Faults)

  function OpMembers(op: Op): seq<string> {
    match op
    case ForUser(user, _, _) => [user]
    case ForMatch(us, ss, _, _) => MatchedMembers(us, ss)
  }

  ghost predicate Takes(parse: Parse, db: Db, op: Op) {
    var us := OpMembers(op);
    us != [] && op.id.Some? && AllUp(op.f, |us|) && Insertable(parse, db, op.id.value, us[0], us)
  }

  /** One operation: it adds the listed session, or changes nothing. */
  ghost predicate OpStep(parse: Parse, db: Db, op: Op, db': Db) {
    if Takes(parse, db, op) then
      Adds(parse, db, db', op.id.value, OpMembers(op)[0], "created", OpMembers(op))
    else db' == db
  }

  /** `lists[s]` is the member list given when session `s` was created. */
  ghost predicate Consistent(db: Db, lists: map<Uuid, seq<Uuid>>) {
    && lists.Keys == db.sessions.Keys
    && (forall s :: s in lists ==> lists[s] != [] && db.sessions[s].owner == lists[s][0])
    && (forall s, u :: (s, u) in db.members <==> s in lists && u in lists[s])
    && (forall s, u :: (s, u) in db.members ==>
          (db.members[(s, u)] == Owner <==> s in db.sessions && u == db.sessions[s].owner))
  }

  ghost function NextLists(parse: Parse, db: Db, op: Op, lists: map<Uuid, seq<Uuid>>): map<Uuid, seq<Uuid>> {
    if Takes(parse, db, op) then lists[op.id.value := Uuids(parse, OpMembers(op))] else lists
  }

  /** When a session is created for a match: the user ids are its members, the session
      ids only when there are none. */
  lemma UserIdsComeFirst(userIds: seq<string>, sessionIds: seq<string>, id: Option<Uuid>, f: Faults)
    ensures userIds != [] ==> OpMembers(ForMatch(userIds, sessionIds, id, f)) == userIds
    ensures userIds == [] ==> OpMembers(ForMatch(userIds, sessionIds, id, f)) == sessionIds
  {
  }

  /** Only the first entry of a list of distinct UUIDs can be the owner's text. */
  lemma OwnerIsFirst(parse: Parse, us: seq<string>, i: nat)
    requires DistinctUuids(parse, us) && i < |us|
    ensures RoleOf(us[0], us[i]) == Owner <==> i == 0
  {
    assert i > 0 ==> parse(us[0]) != parse(us[i]);
  }

  lemma ConsistentAdd(parse: Parse, db: Db, op: Op, db': Db, lists: map<Uuid, seq<Uuid>>)
    requires Consistent(db, lists) && Takes(parse, db, op) && OpStep(parse, db, op, db')
    ensures Consistent(db', NextLists(parse, db, op, lists))
  {
    var us, id := OpMembers(op), op.id.value;
    var ids := Uuids(parse, us);
    var lists' := lists[id := ids];
    forall s, u
      ensures (s, u) in db'.members <==> s in lists' && u in lists'[s]
      ensures (s, u) in db'.members ==>
                (db'.members[(s, u)] == Owner <==> s in db'.sessions && u == db'.sessions[s].owner)
    {
      if s == id {
        assert (s, u) !in db.members;
        if u in ids {
          var i :| 0 <= i < |ids| && ids[i] == u;
          OwnerIsFirst(parse, us, i);
          assert db'.members[(id, ids[i])] == RoleOf(us[0], us[i]);
        }
      } else {
        assert (s, u) in db'.members <==> (s, u) in db.members;
      }
    }
  }

  /** The tables together with the member list each session was created with. */
  datatype World = World(db: Db, lists: map<Uuid, seq<Uuid>>)

  ghost predicate WorldStep(parse: Parse, w: World, op: Op, w': World) {
    OpStep(parse, w.db, op, w'.db) && w'.lists == NextLists(parse, w.db, op, w.lists)
  }

  ghost predicate WorldRun(parse: Parse, w: World, ops: seq<Op>, w': World)
    decreases |ops|
  {
    if ops == [] then w == w'
    else exists mid :: WorldStep(parse, w, ops[0], mid) && WorldRun(parse, mid, ops[1..], w')
  }

  lemma {:induction false} ConsistentRun(parse: Parse, w: World, ops: seq<Op>, w': World)
    requires Consistent(w.db, w.lists) && WorldRun(parse, w, ops, w')
    ensures Consistent(w'.db, w'.lists)
    decreases |ops|
  {
    if ops != [] {
      var mid :| WorldStep(parse, w, ops[0], mid) && WorldRun(parse, mid, ops[1..], w');
      if Takes(parse, w.db, ops[0]) {
        ConsistentAdd(parse, w.db, ops[0], mid.db, w.lists);
      }
      ConsistentRun(parse, mid, ops[1..], w');
    }
  }

  const EMPTY: World := World(Db(map[], map[]), map[])

  /** From empty tables, after any operations with any failures: every session has
      exactly one owner row and it is that of its `owner_user_id`, every other
      member is a player, every member row belongs to an existing session, and the
      members are exactly those listed at creation. */
  lemma OneOwnerPerSession(parse: Parse, ops: seq<Op>, w: World)
    requires WorldRun(parse, EMPTY, ops, w)
    ensures forall s :: s in w.db.sessions ==>
              (s, w.db.sessions[s].owner) in w.db.members && w.db.members[(s, w.db.sessions[s].owner)] == Owner
    ensures forall s, u :: (s, u) in w.db.members && w.db.members[(s, u)] == Owner ==>
              s in w.db.sessions && u == w.db.sessions[s].owner
    ensures w.lists.Keys == w.db.sessions.Keys
    ensures forall s, u :: (s, u) in w.db.members <==> s in w.lists && u in w.lists[s]
  {
    ConsistentRun(parse, EMPTY, ops, w);
    forall s | s in w.db.sessions
      ensures (s, w.db.sessions[s].owner) in w.db.members && w.db.members[(s, w.db.sessions[s].owner)] == Owner
    {
      assert w.lists[s][0] in w.lists[s];
    }
  }
}
