/** The migration runner: which migrations a run selects, how each is executed in
    its own transaction, and what sequences of runs, each possibly stopping at a
    failed migration, do to the set of applied versions.  Scripts are opaque. */
module Migrations {
  import opened MigrationPlan

  datatype Direction = Up | Down

  // ---- selection ---------------------------------------------------------------

  /** Migrations not yet applied, in plan order. */
  function Unapplied(plan: seq<Migration>, applied: set<string>): seq<Migration> {
    if plan == [] then []
    else (if plan[0].version in applied then [] else [plan[0]]) + Unapplied(plan[1..], applied)
  }

  /** Applied migrations of the plan, last first. */
  function AppliedDown(plan: seq<Migration>, applied: set<string>): seq<Migration> {
    if plan == [] then []
    else
      var n := |plan| - 1;
      (if plan[n].version in applied then [plan[n]] else []) + AppliedDown(plan[..n], applied)
  }

  function Pending(dir: Direction, plan: seq<Migration>, applied: set<string>): seq<Migration> {
    if dir == Up then Unapplied(plan, applied) else AppliedDown(plan, applied)
  }

  /** A positive step count below the number of candidates cuts the list; any other takes all. */
  function Cut(steps: int, n: nat): nat {
    if 0 < steps < n then steps else n
  }

  function Select(dir: Direction, steps: int, plan: seq<Migration>, applied: set<string>): seq<Migration> {
    var all := Pending(dir, plan, applied);
    all[..Cut(steps, |all|)]
  }

  lemma {:induction false} UnappliedSnoc(plan: seq<Migration>, i: nat, applied: set<string>)
    requires i < |plan|
    ensures Unapplied(plan[..i + 1], applied)
            == Unapplied(plan[..i], applied) + if plan[i].version in applied then [] else [plan[i]]
  {
    if i > 0 {
      UnappliedSnoc(plan[1..], i - 1, applied);
      assert plan[1..][..i] == plan[..i + 1][1..] && plan[1..][..i - 1] == plan[..i][1..];
    }
  }

  method CollectUp(plan: seq<Migration>, applied: set<string>) returns (selected: seq<Migration>)
    ensures selected == Unapplied(plan, applied)
  {
    selected := [];
    var i := 0;
    while i < |plan|
      invariant 0 <= i <= |plan|
      invariant selected == Unapplied(plan[..i], applied)
    {
      UnappliedSnoc(plan, i, applied);
      if plan[i].version !in applied {
        selected := selected + [plan[i]];
      }
      i := i + 1;
    }
    assert plan[..i] == plan;
  }

  lemma AppliedDownSnoc(plan: seq<Migration>, i: nat, applied: set<string>, before: seq<Migration>)
    requires i < |plan|
    ensures before + AppliedDown(plan[..i + 1], applied)
            == (if plan[i].version in applied then before + [plan[i]] else before) + AppliedDown(plan[..i], applied)
  {
    assert plan[..i + 1][..i] == plan[..i];
    var rest := AppliedDown(plan[..i], applied);
    assert before + ([plan[i]] + rest) == before + [plan[i]] + rest;
  }

  method CollectDown(plan: seq<Migration>, applied: set<string>) returns (selected: seq<Migration>)
    ensures selected == AppliedDown(plan, applied)
  {
    selected := [];
    var i := |plan|;
    assert plan[..i] == plan;
    while i > 0
      invariant 0 <= i <= |plan|
      invariant selected + AppliedDown(plan[..i], applied) == AppliedDown(plan, applied)
    {
      i := i - 1;
      AppliedDownSnoc(plan, i, applied, selected);
      if plan[i].version in applied {
        selected := selected + [plan[i]];
      }
    }
    assert selected + [] == selected;
  }

  method SelectMigrations(dir: Direction, steps: int, plan: seq<Migration>, applied: set<string>)
    returns (selected: seq<Migration>)
    ensures selected == Select(dir, steps, plan, applied)
  {
    match dir {
      case Up => selected := CollectUp(plan, applied);
      case Down => selected := CollectDown(plan, applied);
    }
    if 0 < steps < |selected| {
      selected := selected[..steps];
    }
  }

  // ---- execution -----------------------------------------------------------------

  /** One script executed: the direction, the version and the file. */
  datatype Exec = Exec(dir: Direction, version: string, path: string)

  function ScriptOf(dir: Direction, m: Migration): string {
    if dir == Down then m.downPath else m.upPath
  }

  /** The `schema_migrations` table and the scripts committed so far. */
  datatype Db = Db(applied: set<string>, log: seq<Exec>)

  function Versions(ms: seq<Migration>): set<string> {
    set i | 0 <= i < |ms| :: ms[i].version
  }

  function Execs(dir: Direction, ms: seq<Migration>): seq<Exec> {
    seq(|ms|, i requires 0 <= i < |ms| => Exec(dir, ms[i].version, ScriptOf(dir, ms[i])))
  }

  /** The database after the scripts of `ms` have been committed in order. */
  function Ran(db: Db, dir: Direction, ms: seq<Migration>): Db {
    Db(if dir == Up then db.applied + Versions(ms) else db.applied - Versions(ms), db.log + Execs(dir, ms))
  }

  lemma VersionsSnoc(ms: seq<Migration>, m: Migration)
    ensures Versions(ms + [m]) == Versions(ms) + {m.version}
  {
    var all := ms + [m];
    forall v
      ensures v in Versions(all) <==> v in Versions(ms) || v == m.version
    {
      if v in Versions(ms) {
        var i :| 0 <= i < |ms| && ms[i].version == v;
        assert all[i].version == v;
      }
      if v == m.version {
        assert all[|ms|].version == v;
      }
      if v in Versions(all) {
        var i :| 0 <= i < |all| && all[i].version == v;
        assert i < |ms| ==> ms[i].version == v;
      }
    }
  }

  lemma RanNone(db: Db, dir: Direction)
    ensures Ran(db, dir, []) == db
  {
  }

  lemma RanSnoc(db: Db, dir: Direction, ms: seq<Migration>, m: Migration)
    ensures Ran(db, dir, ms + [m]) == Ran(Ran(db, dir, ms), dir, [m])
  {
    VersionsSnoc(ms, m);
    VersionsSnoc([], m);
    assert [] + [m] == [m];
    assert Execs(dir, ms + [m]) == Execs(dir, ms) + Execs(dir, [m]);
  }

  lemma RanNext(db: Db, dir: Direction, ms: seq<Migration>, i: nat)
    requires i < |ms|
    ensures Ran(db, dir, ms[..i + 1]) == Ran(Ran(db, dir, ms[..i]), dir, [ms[i]])
  {
    RanSnoc(db, dir, ms[..i], ms[i]);
    assert ms[..i + 1] == ms[..i] + [ms[i]];
  }

  /** Which of the steps of one migration succeed. */
  datatype Faults = Faults(readable: bool, beginUp: bool, scriptOk: bool, recordUp: bool, commitUp: bool)

  predicate AllUp(f: Faults) {
    f.readable && f.beginUp && f.scriptOk && f.recordUp && f.commitUp
  }

  class Runner {
    var db: Db

    constructor (db: Db)
      ensures this.db == db
    {
      this.db := db;
    }

    /** All or nothing: the script and its record are committed together. */
    method RunMigration(dir: Direction, m: Migration, f: Faults) returns (ok: bool)
      modifies this
      ensures ok <==> AllUp(f) && (dir == Up ==> m.version !in old(db).applied)
      ensures db == if ok then Ran(old(db), dir, [m]) else old(db)
      ensures !f.readable || !f.beginUp || !f.scriptOk || !f.recordUp || !f.commitUp ==> !ok && db == old(db)
      ensures ok && dir == Up ==>
                && db.log == old(db).log + [Exec(Up, m.version, m.upPath)]
                && db.applied == old(db).applied + {m.version} && m.version !in old(db).applied
      ensures ok && dir == Down ==>
                && db.log == old(db).log + [Exec(Down, m.version, m.downPath)]
                && db.applied == old(db).applied - {m.version}
    {
      var path := m.upPath;
      if dir == Down { path := m.downPath; }
      if !f.readable { return false; }
      if !f.beginUp { return false; }
      var tx := db;
      if !f.scriptOk { return false; }
      tx := tx.(log := tx.log + [Exec(dir, m.version, path)]);
      if dir == Up {
        if !f.recordUp || m.version in tx.applied { return false; }
        tx := tx.(applied := tx.applied + {m.version});
      } else {
        if !f.recordUp { return false; }
        tx := tx.(applied := tx.applied - {m.version});
      }
      if !f.commitUp { return false; }
      VersionsSnoc([], m);
      assert [] + [m] == [m];
      db := tx;
      ok := true;
    }

    /** A run commits a prefix of what it selects and stops at the first failure. */
    method Migrate(dir: Direction, steps: int, plan: seq<Migration>, faults: nat -> Faults)
      returns (done: nat, ok: bool)
      requires Increasing(plan)
      modifies this
      ensures var sel := Select(dir, steps, plan, old(db).applied);
              && done <= |sel| && db == Ran(old(db), dir, sel[..done])
              && (ok <==> done == |sel|)
              && (forall i :: 0 <= i < done ==> AllUp(faults(i)))
              && (!ok ==> !AllUp(faults(done)))
    {
      var sel := SelectMigrations(dir, steps, plan, db.applied);
      done := 0;
      assert sel[..0] == [];
      ghost var before := db;
      RanNone(before, dir);
      while done < |sel|
        invariant 0 <= done <= |sel|
        invariant db == Ran(before, dir, sel[..done])
        invariant forall i :: 0 <= i < done ==> AllUp(faults(i))
      {
        if dir == Up {
          SelectedIsNew(steps, plan, before, done);
        }
        ok := RunMigration(dir, sel[done], faults(done));
        if !ok { return; }
        RanNext(before, dir, sel, done);
        done := done + 1;
      }
      ok := true;
    }
  }

  lemma {:induction false} UnappliedIncreasing(plan: seq<Migration>, applied: set<string>)
    requires Increasing(plan)
    ensures Increasing(Unapplied(plan, applied))
    ensures forall m :: m in Unapplied(plan, applied) <==> m in plan && m.version !in applied
  {
    if plan != [] {
      UnappliedIncreasing(plan[1..], applied);
      assert forall m :: m in plan <==> m == plan[0] || m in plan[1..];
      var rest := Unapplied(plan[1..], applied);
      forall i | 0 <= i < |rest|
        ensures Below(plan[0].version, rest[i].version)
      {
        assert rest[i] in plan[1..];
        var j :| 0 <= j < |plan[1..]| && plan[1..][j] == rest[i];
        assert plan[j + 1] == rest[i];
      }
    }
  }

  /** No selected migration is recorded before its turn, so the insert never clashes. */
  lemma SelectedIsNew(steps: int, plan: seq<Migration>, db: Db, i: nat)
    requires Increasing(plan) && i < |Select(Up, steps, plan, db.applied)|
    ensures var sel := Select(Up, steps, plan, db.applied);
            sel[i].version !in Ran(db, Up, sel[..i]).applied
  {
    var all := Unapplied(plan, db.applied);
    UnappliedIncreasing(plan, db.applied);
    IncreasingDistinct(all);
    assert all[i] in all;
  }

  // ---- an applied prefix stays a prefix ---------------------------------------------

  /** Exactly the first `n` versions of the plan are applied. */
  ghost predicate PrefixApplied(plan: seq<Migration>, applied: set<string>, n: nat) {
    n <= |plan| && forall i :: 0 <= i < |plan| ==> (plan[i].version in applied <==> i < n)
  }

  function Reverse(ms: seq<Migration>): (r: seq<Migration>)
    ensures |r| == |ms|
    ensures forall i :: 0 <= i < |ms| ==> r[i] == ms[|ms| - 1 - i]
  {
    seq(|ms|, i requires 0 <= i < |ms| => ms[|ms| - 1 - i])
  }

  lemma {:induction false} UnappliedOfPrefix(plan: seq<Migration>, applied: set<string>, n: nat)
    requires PrefixApplied(plan, applied, n)
    ensures Unapplied(plan, applied) == plan[n..]
  {
    if plan != [] {
      var n' := if n == 0 then 0 else n - 1;
      assert PrefixApplied(plan[1..], applied, n');
      UnappliedOfPrefix(plan[1..], applied, n');
      if n > 0 {
        assert plan[1..][n - 1..] == plan[n..];
      }
    }
  }

  lemma {:induction false} AppliedDownOfPrefix(plan: seq<Migration>, applied: set<string>, n: nat)
    requires PrefixApplied(plan, applied, n)
    ensures AppliedDown(plan, applied) == Reverse(plan[..n])
  {
    if plan != [] {
      var k := |plan| - 1;
      if n <= k {
        AppliedDownOfPrefix(plan[..k], applied, n);
        assert plan[..k][..n] == plan[..n];
      } else {
        AppliedDownOfPrefix(plan[..k], applied, k);
        ReverseSnoc(plan);
        assert plan[..n] == plan && plan[..k][..k] == plan[..k];
      }
    }
  }

  lemma ReverseTake(plan: seq<Migration>, n: nat, k: nat)
    requires k <= n <= |plan|
    ensures Reverse(plan[..n])[..k] == Reverse(plan[n - k..n])
  {
  }

  lemma ReverseSnoc(ms: seq<Migration>)
    requires ms != []
    ensures Reverse(ms) == [ms[|ms| - 1]] + Reverse(ms[..|ms| - 1])
  {
  }

  lemma VersionsOfSlice(plan: seq<Migration>, a: nat, b: nat, i: nat)
    requires Increasing(plan) && a <= b <= |plan| && i < |plan|
    ensures plan[i].version in Versions(plan[a..b]) <==> a <= i < b
    ensures plan[i].version in Versions(Reverse(plan[a..b])) <==> a <= i < b
  {
    IncreasingDistinct(plan);
    var ms := plan[a..b];
    if a <= i < b {
      assert ms[i - a].version == plan[i].version;
      assert Reverse(ms)[|ms| - 1 - (i - a)].version == plan[i].version;
    }
  }

  /** An up run, stopped after any number of migrations, moves the prefix up by that number. */
  lemma UpMovesPrefix(plan: seq<Migration>, db: Db, n: nat, steps: int, k: nat)
    requires Increasing(plan) && PrefixApplied(plan, db.applied, n)
    requires k <= |Select(Up, steps, plan, db.applied)|
    ensures n + k <= |plan| && Select(Up, steps, plan, db.applied)[..k] == plan[n..n + k]
    ensures PrefixApplied(plan, Ran(db, Up, plan[n..n + k]).applied, n + k)
  {
    UnappliedOfPrefix(plan, db.applied, n);
    forall i | 0 <= i < |plan|
      ensures plan[i].version in Ran(db, Up, plan[n..n + k]).applied <==> i < n + k
    {
      VersionsOfSlice(plan, n, n + k, i);
    }
  }

  /** A down run, stopped after any number of migrations, moves it down, last first. */
  lemma DownMovesPrefix(plan: seq<Migration>, db: Db, n: nat, steps: int, k: nat)
    requires Increasing(plan) && PrefixApplied(plan, db.applied, n)
    requires k <= |Select(Down, steps, plan, db.applied)|
    ensures k <= n && Select(Down, steps, plan, db.applied)[..k] == Reverse(plan[n - k..n])
    ensures PrefixApplied(plan, Ran(db, Down, Reverse(plan[n - k..n])).applied, n - k)
  {
    DownSelectsTop(plan, db.applied, n, steps, k);
    DownLowersPrefix(plan, db, n, k);
  }

  lemma DownSelectsTop(plan: seq<Migration>, applied: set<string>, n: nat, steps: int, k: nat)
    requires PrefixApplied(plan, applied, n)
    requires k <= |Select(Down, steps, plan, applied)|
    ensures k <= n && Select(Down, steps, plan, applied)[..k] == Reverse(plan[n - k..n])
  {
    AppliedDownOfPrefix(plan, applied, n);
    ReverseTake(plan, n, k);
  }

  lemma DownLowersPrefix(plan: seq<Migration>, db: Db, n: nat, k: nat)
    requires Increasing(plan) && PrefixApplied(plan, db.applied, n) && k <= n
    ensures PrefixApplied(plan, Ran(db, Down, Reverse(plan[n - k..n])).applied, n - k)
  {
    forall i | 0 <= i < |plan|
      ensures plan[i].version in Ran(db, Down, Reverse(plan[n - k..n])).applied <==> i < n - k
    {
      VersionsOfSlice(plan, n - k, n, i);
    }
  }

  /** One invocation of the program: its arguments and how many migrations it committed. */
  datatype Invocation = Invocation(dir: Direction, steps: int, done: nat)

  ghost predicate Runs(plan: seq<Migration>, db: Db, calls: seq<Invocation>, db': Db)
    decreases |calls|
  {
    if calls == [] then db == db'
    else
      var sel := Select(calls[0].dir, calls[0].steps, plan, db.applied);
      calls[0].done <= |sel| && Runs(plan, Ran(db, calls[0].dir, sel[..calls[0].done]), calls[1..], db')
  }

  /** Over every sequence of up and down runs with any step counts, each possibly
      cut short by a failure, an applied prefix stays a prefix. */
  lemma {:induction false} PrefixIsKept(plan: seq<Migration>, db: Db, n: nat, calls: seq<Invocation>, db': Db)
    returns (n': nat)
    requires Increasing(plan) && PrefixApplied(plan, db.applied, n) && Runs(plan, db, calls, db')
    ensures PrefixApplied(plan, db'.applied, n')
    decreases |calls|
  {
    if calls == [] {
      n' := n;
    } else {
      var i := calls[0];
      var mid := Ran(db, i.dir, Select(i.dir, i.steps, plan, db.applied)[..i.done]);
      if i.dir == Up {
        UpMovesPrefix(plan, db, n, i.steps, i.done);
        n' := PrefixIsKept(plan, mid, n + i.done, calls[1..], db');
      } else {
        DownMovesPrefix(plan, db, n, i.steps, i.done);
        n' := PrefixIsKept(plan, mid, n - i.done, calls[1..], db');
      }
    }
  }

  // ---- up, then down as many: exactly from a prefix ----------------------------------

  /** In the list of applied migrations, last first, whatever comes before a taken one is taken too. */
  lemma {:induction false} DownTakesLaterFirst(plan: seq<Migration>, applied: set<string>, i: nat, j: nat, k: nat)
    requires Increasing(plan) && i < j < |plan| && plan[j].version in applied
    requires k <= |AppliedDown(plan, applied)| && plan[i] in AppliedDown(plan, applied)[..k]
    ensures plan[j] in AppliedDown(plan, applied)[..k]
  {
    var n := |plan| - 1;
    var all := AppliedDown(plan, applied);
    var rest := AppliedDown(plan[..n], applied);
    IncreasingDistinct(plan);
    if plan[n].version in applied {
      assert all == [plan[n]] + rest;
      assert k > 0 && all[..k][0] == plan[n];
      if j < n {
        assert all[..k] == [plan[n]] + rest[..k - 1];
        DownTakesLaterFirst(plan[..n], applied, i, j, k - 1);
        assert plan[..n][j] == plan[j];
      }
    } else {
      assert all == rest;
      DownTakesLaterFirst(plan[..n], applied, i, j, k);
    }
  }

  lemma {:induction false} AppliedDownMembers(plan: seq<Migration>, applied: set<string>)
    ensures forall m :: m in AppliedDown(plan, applied) <==> m in plan && m.version in applied
  {
    if plan != [] {
      var n := |plan| - 1;
      AppliedDownMembers(plan[..n], applied);
      assert forall m :: m in plan <==> m == plan[n] || m in plan[..n];
    }
  }

  /** The first migration an up run takes is the lowest unapplied one. */
  lemma {:induction false} FirstUnapplied(plan: seq<Migration>, applied: set<string>) returns (i: nat)
    requires Unapplied(plan, applied) != []
    ensures i < |plan| && plan[i] == Unapplied(plan, applied)[0]
    ensures plan[i].version !in applied
    ensures forall h :: 0 <= h < i ==> plan[h].version in applied
  {
    if plan[0].version in applied {
      var h := FirstUnapplied(plan[1..], applied);
      i := h + 1;
      forall g | 0 <= g < i
        ensures plan[g].version in applied
      {
        if g > 0 {
          assert plan[g] == plan[1..][g - 1];
        }
      }
    } else {
      i := 0;
    }
  }

  ghost predicate SomePrefix(plan: seq<Migration>, applied: set<string>) {
    exists n :: PrefixApplied(plan, applied, n)
  }

  /** The state after `k` applied ups and a successful down of `k` steps. */
  ghost function UpDown(plan: seq<Migration>, db: Db, steps: int, k: nat): (Db, seq<Migration>, seq<Migration>)
    requires k <= |Select(Up, steps, plan, db.applied)|
  {
    var ups := Select(Up, steps, plan, db.applied)[..k];
    var mid := Ran(db, Up, ups);
    var downs := Select(Down, k, plan, mid.applied);
    (Ran(mid, Down, downs), ups, downs)
  }

  /** Undoing in reverse what was new leaves the set as it was. */
  lemma UndoRestores(db: Db, ups: seq<Migration>)
    requires forall i :: 0 <= i < |ups| ==> ups[i].version !in db.applied
    ensures Ran(Ran(db, Up, ups), Down, Reverse(ups)).applied == db.applied
  {
    forall v
      ensures v in Versions(Reverse(ups)) <==> v in Versions(ups)
    {
      ReverseVersions(ups, v);
    }
  }

  lemma UpDownFromPrefix(plan: seq<Migration>, db: Db, n: nat, steps: int, k: nat)
    requires Increasing(plan) && PrefixApplied(plan, db.applied, n)
    requires 0 < k <= |Select(Up, steps, plan, db.applied)|
    ensures var (after, ups, downs) := UpDown(plan, db, steps, k);
            downs == Reverse(ups) && after.applied == db.applied
  {
    UpMovesPrefix(plan, db, n, steps, k);
    DownUndoes(plan, db, n, k);
    UpDownIs(plan, db, steps, k, plan[n..n + k]);
  }

  lemma DownUndoes(plan: seq<Migration>, db: Db, n: nat, k: nat)
    requires PrefixApplied(plan, db.applied, n) && 0 < k && n + k <= |plan|
    requires PrefixApplied(plan, Ran(db, Up, plan[n..n + k]).applied, n + k)
    ensures var mid := Ran(db, Up, plan[n..n + k]);
            && Select(Down, k, plan, mid.applied) == Reverse(plan[n..n + k])
            && Ran(mid, Down, Reverse(plan[n..n + k])).applied == db.applied
  {
    SelectDownOfPrefix(plan, Ran(db, Up, plan[n..n + k]).applied, n, k);
    UndoRestoresSlice(plan, db, n, k);
  }

  lemma UpDownIs(plan: seq<Migration>, db: Db, steps: int, k: nat, ups: seq<Migration>)
    requires k <= |Select(Up, steps, plan, db.applied)| && Select(Up, steps, plan, db.applied)[..k] == ups
    ensures var mid := Ran(db, Up, ups);
            UpDown(plan, db, steps, k)
            == (Ran(mid, Down, Select(Down, k, plan, mid.applied)), ups, Select(Down, k, plan, mid.applied))
  {
  }

  lemma UndoRestoresSlice(plan: seq<Migration>, db: Db, n: nat, k: nat)
    requires PrefixApplied(plan, db.applied, n) && n + k <= |plan|
    ensures Ran(Ran(db, Up, plan[n..n + k]), Down, Reverse(plan[n..n + k])).applied == db.applied
  {
    UndoRestores(db, plan[n..n + k]);
  }

  lemma SelectDownOfPrefix(plan: seq<Migration>, applied: set<string>, n: nat, k: nat)
    requires PrefixApplied(plan, applied, n + k) && 0 < k
    ensures Select(Down, k, plan, applied) == Reverse(plan[n..n + k])
  {
    AppliedDownOfPrefix(plan, applied, n + k);
    ReverseCut(plan, n, k);
  }

  lemma ReverseCut(plan: seq<Migration>, n: nat, k: nat)
    requires 0 < k && n + k <= |plan|
    ensures Reverse(plan[..n + k])[..Cut(k, n + k)] == Reverse(plan[n..n + k])
  {
    ReverseTake(plan, n + k, k);
  }

  lemma ReverseVersions(ms: seq<Migration>, v: string)
    ensures v in Versions(Reverse(ms)) <==> v in Versions(ms)
  {
    if v in Versions(ms) {
      var i :| 0 <= i < |ms| && ms[i].version == v;
      assert Reverse(ms)[|ms| - 1 - i].version == v;
    }
  }

  lemma AppliedAbove(plan: seq<Migration>, applied: set<string>, i: nat) returns (j: nat)
    requires !SomePrefix(plan, applied) && i < |plan| && plan[i].version !in applied
    requires forall h :: 0 <= h < i ==> plan[h].version in applied
    ensures i < j < |plan| && plan[j].version in applied
  {
    assert !PrefixApplied(plan, applied, i);
    j :| 0 <= j < |plan| && !(plan[j].version in applied <==> j < i);
  }

  /** If the applied versions are not a prefix, the down run takes an older migration instead. */
  lemma UpDownNeedsPrefix(plan: seq<Migration>, db: Db, steps: int, k: nat)
    requires Increasing(plan) && !SomePrefix(plan, db.applied)
    requires 0 < k <= |Select(Up, steps, plan, db.applied)|
    ensures UpDown(plan, db, steps, k).0.applied != db.applied
  {
    var (after, ups, downs) := UpDown(plan, db, steps, k);
    var mid := Ran(db, Up, ups);
    var i := FirstUnapplied(plan, db.applied);
    assert ups[0] == plan[i];
    var j := AppliedAbove(plan, db.applied, i);
    assert plan[i].version in mid.applied && plan[j].version in mid.applied;
    var all := AppliedDown(plan, mid.applied);
    if plan[i].version in Versions(downs) {
      LaterVersionGoesToo(plan, mid.applied, i, j, Cut(k, |all|));
    }
  }

  lemma LaterVersionGoesToo(plan: seq<Migration>, applied: set<string>, i: nat, j: nat, cut: nat)
    requires Increasing(plan) && i < j < |plan| && plan[j].version in applied
    requires cut <= |AppliedDown(plan, applied)|
    requires plan[i].version in Versions(AppliedDown(plan, applied)[..cut])
    ensures plan[j].version in Versions(AppliedDown(plan, applied)[..cut])
  {
    var all := AppliedDown(plan, applied);
    var h :| 0 <= h < cut && all[..cut][h].version == plan[i].version;
    AppliedDownMembers(plan, applied);
    assert all[h] in all;
    var g :| 0 <= g < |plan| && plan[g] == all[h];
    IncreasingDistinct(plan);
    assert g == i && all[..cut][h] == plan[i];
    DownTakesLaterFirst(plan, applied, i, j, cut);
    var x :| 0 <= x < cut && all[..cut][x] == plan[j];
  }

  /** From any applied set: k > 0 applied ups followed by a successful down of k
      steps restore the set exactly when the applied versions were a prefix of the
      plan, and then the downs visit the same migrations in exact reverse order. */
  lemma UpDownRestoresIffPrefix(plan: seq<Migration>, db: Db, steps: int, k: nat)
    requires Increasing(plan) && 0 < k <= |Select(Up, steps, plan, db.applied)|
    ensures UpDown(plan, db, steps, k).0.applied == db.applied <==> SomePrefix(plan, db.applied)
    ensures SomePrefix(plan, db.applied) ==> UpDown(plan, db, steps, k).2 == Reverse(UpDown(plan, db, steps, k).1)
  {
    if SomePrefix(plan, db.applied) {
      var n :| PrefixApplied(plan, db.applied, n);
      UpDownFromPrefix(plan, db, n, steps, k);
    } else {
      UpDownNeedsPrefix(plan, db, steps, k);
    }
  }

  // ---- splitting a run --------------------------------------------------------------

  lemma {:induction false} UnappliedCongruent(plan: seq<Migration>, a: set<string>, b: set<string>)
    requires forall i :: 0 <= i < |plan| ==> (plan[i].version in a <==> plan[i].version in b)
    ensures Unapplied(plan, a) == Unapplied(plan, b)
  {
    if plan != [] {
      UnappliedCongruent(plan[1..], a, b);
    }
  }

  lemma {:induction false} AppliedDownCongruent(plan: seq<Migration>, a: set<string>, b: set<string>)
    requires forall i :: 0 <= i < |plan| ==> (plan[i].version in a <==> plan[i].version in b)
    ensures AppliedDown(plan, a) == AppliedDown(plan, b)
  {
    if plan != [] {
      AppliedDownCongruent(plan[..|plan| - 1], a, b);
    }
  }

  lemma VersionsCons(m: Migration, ms: seq<Migration>)
    ensures Versions([m] + ms) == {m.version} + Versions(ms)
  {
    var all := [m] + ms;
    forall v
      ensures v in Versions(all) <==> v == m.version || v in Versions(ms)
    {
      if v == m.version {
        assert all[0].version == v;
      }
      if v in Versions(ms) {
        var i :| 0 <= i < |ms| && ms[i].version == v;
        assert all[i + 1].version == v;
      }
      if v in Versions(all) {
        var i :| 0 <= i < |all| && all[i].version == v;
        assert i > 0 ==> ms[i - 1].version == v;
      }
    }
  }

  /** The first migration, once applied, matters to no later one. */
  lemma UnappliedWithout(plan: seq<Migration>, a: set<string>, rest: seq<Migration>, s: nat)
    requires Increasing(plan) && plan != [] && 0 < s <= 1 + |rest|
    ensures Unapplied(plan, a + Versions(([plan[0]] + rest)[..s])) == Unapplied(plan[1..], a + Versions(rest[..s - 1]))
  {
    assert ([plan[0]] + rest)[..s] == [plan[0]] + rest[..s - 1];
    VersionsCons(plan[0], rest[..s - 1]);
    IncreasingDistinct(plan);
    UnappliedCongruent(plan[1..], a + Versions([plan[0]] + rest[..s - 1]), a + Versions(rest[..s - 1]));
  }

  lemma {:induction false} UnappliedAfter(plan: seq<Migration>, a: set<string>, s: nat)
    requires Increasing(plan) && s <= |Unapplied(plan, a)|
    ensures Unapplied(plan, a + Versions(Unapplied(plan, a)[..s])) == Unapplied(plan, a)[s..]
  {
    var all := Unapplied(plan, a);
    if s == 0 {
      assert a + Versions([]) == a;
    } else if plan[0].version in a {
      UnappliedAfter(plan[1..], a, s);
      assert all == Unapplied(plan[1..], a);
    } else {
      var rest := Unapplied(plan[1..], a);
      UnappliedAfter(plan[1..], a, s - 1);
      assert all == [plan[0]] + rest;
      UnappliedWithout(plan, a, rest, s);
      assert all[s..] == rest[s - 1..];
    }
  }

  lemma {:induction false} AppliedDownAfter(plan: seq<Migration>, a: set<string>, s: nat)
    requires Increasing(plan) && s <= |AppliedDown(plan, a)|
    ensures AppliedDown(plan, a - Versions(AppliedDown(plan, a)[..s])) == AppliedDown(plan, a)[s..]
  {
    var all := AppliedDown(plan, a);
    if s == 0 {
      assert a - Versions([]) == a;
    } else {
      var n := |plan| - 1;
      var rest := AppliedDown(plan[..n], a);
      IncreasingDistinct(plan);
      if plan[n].version in a {
        AppliedDownAfter(plan[..n], a, s - 1);
        assert all[..s] == [plan[n]] + rest[..s - 1];
        VersionsCons(plan[n], rest[..s - 1]);
        AppliedDownCongruent(plan[..n], a - Versions(all[..s]), a - Versions(rest[..s - 1]));
        assert all[s..] == rest[s - 1..];
      } else {
        assert all == rest;
        AppliedDownAfter(plan[..n], a, s);
      }
    }
  }

  /** After the first `s` pending migrations are committed, the others are pending, in the same order. */
  lemma PendingAfter(dir: Direction, plan: seq<Migration>, db: Db, s: nat)
    requires Increasing(plan) && s <= |Pending(dir, plan, db.applied)|
    ensures var all := Pending(dir, plan, db.applied);
            Pending(dir, plan, Ran(db, dir, all[..s]).applied) == all[s..]
  {
    if dir == Up {
      UnappliedAfter(plan, db.applied, s);
    } else {
      AppliedDownAfter(plan, db.applied, s);
    }
  }

  /** Successful runs, one after the other, with the given step counts. */
  function RunSteps(dir: Direction, plan: seq<Migration>, db: Db, sizes: seq<int>): Db
    decreases |sizes|
  {
    if sizes == [] then db
    else RunSteps(dir, plan, Ran(db, dir, Select(dir, sizes[0], plan, db.applied)), sizes[1..])
  }

  function TotalSteps(sizes: seq<int>): int {
    if sizes == [] then 0 else sizes[0] + TotalSteps(sizes[1..])
  }

  lemma {:induction false} TotalStepsPositive(sizes: seq<int>)
    requires forall i :: 0 <= i < |sizes| ==> sizes[i] > 0
    ensures TotalSteps(sizes) >= 0
  {
    if sizes != [] {
      TotalStepsPositive(sizes[1..]);
    }
  }

  /** From any applied set, in both directions: runs of any positive step sizes
      commit, in order, the first sum-of-sizes scripts that one full run commits. */
  lemma {:induction false} SplitRunsCommitTheSame(dir: Direction, plan: seq<Migration>, db: Db, sizes: seq<int>)
    requires Increasing(plan) && forall i :: 0 <= i < |sizes| ==> sizes[i] > 0
    ensures var all := Pending(dir, plan, db.applied);
            var n := if TotalSteps(sizes) <= |all| then TotalSteps(sizes) else |all|;
            0 <= n && RunSteps(dir, plan, db, sizes).log == db.log + Execs(dir, all[..n])
    decreases |sizes|
  {
    var all := Pending(dir, plan, db.applied);
    TotalStepsPositive(sizes);
    if sizes != [] {
      TotalStepsPositive(sizes[1..]);
      var s := if sizes[0] < |all| then sizes[0] else |all|;
      assert Select(dir, sizes[0], plan, db.applied) == all[..s];
      PendingAfter(dir, plan, db, s);
      SplitRunsCommitTheSame(dir, plan, Ran(db, dir, all[..s]), sizes[1..]);
      var n' := if TotalSteps(sizes[1..]) <= |all| - s then TotalSteps(sizes[1..]) else |all| - s;
      FirstRun(dir, plan, db, sizes, all, s, n');
    }
  }

  /** What the first run commits and what the others commit after it, put together. */
  lemma FirstRun(dir: Direction, plan: seq<Migration>, db: Db, sizes: seq<int>, all: seq<Migration>, s: nat, n: nat)
    requires sizes != [] && s + n <= |all| && Select(dir, sizes[0], plan, db.applied) == all[..s]
    requires RunSteps(dir, plan, Ran(db, dir, all[..s]), sizes[1..]).log
             == Ran(db, dir, all[..s]).log + Execs(dir, all[s..][..n])
    ensures RunSteps(dir, plan, db, sizes).log == db.log + Execs(dir, all[..s + n])
  {
    ExecsSplit(db.log, dir, all, s, n);
  }

  lemma ExecsSplit(log: seq<Exec>, dir: Direction, all: seq<Migration>, s: nat, n: nat)
    requires s + n <= |all|
    ensures log + Execs(dir, all[..s]) + Execs(dir, all[s..][..n]) == log + Execs(dir, all[..s + n])
  {
    TakeTwice(all, s, n);
    ExecsAppend(dir, all[..s], all[s..][..n]);
    Associative(log, Execs(dir, all[..s]), Execs(dir, all[s..][..n]));
  }

  lemma TakeTwice(all: seq<Migration>, s: nat, n: nat)
    requires s + n <= |all|
    ensures all[..s + n] == all[..s] + all[s..][..n]
  {
  }

  lemma Associative(log: seq<Exec>, x: seq<Exec>, y: seq<Exec>)
    ensures log + x + y == log + (x + y)
  {
  }

  lemma ExecsAppend(dir: Direction, a: seq<Migration>, b: seq<Migration>)
    ensures Execs(dir, a + b) == Execs(dir, a) + Execs(dir, b)
  {
  }

  // ---- what a run selects, in plain terms --------------------------------------------

  /** A step count of zero or below takes every pending migration, any other at most so many. */
  lemma StepsLimit(dir: Direction, steps: int, plan: seq<Migration>, applied: set<string>)
    ensures Select(dir, steps, plan, applied) <= Pending(dir, plan, applied)
    ensures steps <= 0 ==> Select(dir, steps, plan, applied) == Pending(dir, plan, applied)
    ensures steps > 0 ==> var all := |Pending(dir, plan, applied)|;
              |Select(dir, steps, plan, applied)| == if steps <= all then steps else all
  {
  }

  /** The pending migrations of a plan: upwards those whose version is not applied, in
      increasing order; downwards those whose version is, in decreasing order. */
  lemma PendingAre(plan: seq<Migration>, applied: set<string>)
    requires Increasing(plan)
    ensures var ups := Pending(Up, plan, applied);
            && (forall m :: m in ups <==> m in plan && m.version !in applied)
            && Increasing(ups)
    ensures var downs := Pending(Down, plan, applied);
            && (forall m :: m in downs <==> m in plan && m.version in applied)
            && Decreasing(downs)
  {
    UnappliedIncreasing(plan, applied);
    AppliedDownMembers(plan, applied);
    AppliedDownDecreasing(plan, applied);
  }

  ghost predicate Decreasing(ms: seq<Migration>) {
    forall i, j :: 0 <= i < j < |ms| ==> Below(ms[j].version, ms[i].version)
  }

  lemma DecreasingCons(m: Migration, ms: seq<Migration>)
    requires Decreasing(ms) && forall j :: 0 <= j < |ms| ==> Below(ms[j].version, m.version)
    ensures Decreasing([m] + ms)
  {
    var r := [m] + ms;
    forall i, j | 0 <= i < j < |r|
      ensures Below(r[j].version, r[i].version)
    {
      assert r[j] == ms[j - 1];
      if i > 0 {
        assert r[i] == ms[i - 1];
      }
    }
  }

  lemma {:induction false} AppliedDownDecreasing(plan: seq<Migration>, applied: set<string>)
    requires Increasing(plan)
    ensures Decreasing(AppliedDown(plan, applied))
  {
    if plan != [] {
      var n := |plan| - 1;
      var rest := AppliedDown(plan[..n], applied);
      AppliedDownDecreasing(plan[..n], applied);
      AppliedDownMembers(plan[..n], applied);
      forall j | 0 <= j < |rest|
        ensures Below(rest[j].version, plan[n].version)
      {
        assert rest[j] in plan[..n];
        var k :| 0 <= k < n && plan[..n][k] == rest[j];
        assert plan[k] == rest[j];
      }
      DecreasingCons(plan[n], rest);
      assert [] + rest == rest;
    }
  }
}
