/** Loading the migration plan from a directory listing: file names are grouped
    by version, every version needs both scripts, and the result is sorted. */
module MigrationPlan {
  import opened Prelude

  const UP_SUFFIX: string := ".up.sql"
  const DOWN_SUFFIX: string := ".down.sql"

  datatype Migration = Migration(version: string, upPath: string, downPath: string)
  datatype Entry = Entry(name: string, isDir: bool)
  datatype LoadError = MissingScript(version: string)

  // ---- the order on versions -------------------------------------------------

  /** Go's order on strings. */
  predicate Below(a: string, b: string) {
    b != "" && (a == "" || a[0] < b[0] || (a[0] == b[0] && Below(a[1..], b[1..])))
  }

  lemma {:induction false} BelowTransitive(a: string, b: string, c: string)
    requires Below(a, b) && Below(b, c)
    ensures Below(a, c)
  {
    if a != "" && a[0] == b[0] && b[0] == c[0] {
      BelowTransitive(a[1..], b[1..], c[1..]);
    }
  }

  lemma {:induction false} BelowIrreflexive(a: string)
    ensures !Below(a, a)
  {
    if a != "" {
      BelowIrreflexive(a[1..]);
    }
  }

  lemma {:induction false} BelowTotal(a: string, b: string)
    ensures a == b || Below(a, b) || Below(b, a)
  {
    if a != "" && b != "" && a[0] == b[0] {
      BelowTotal(a[1..], b[1..]);
      assert a == [a[0]] + a[1..] && b == [b[0]] + b[1..];
    }
  }

  /** Versions strictly increase along the plan. */
  ghost predicate Increasing(ms: seq<Migration>) {
    forall i, j :: 0 <= i < j < |ms| ==> Below(ms[i].version, ms[j].version)
  }

  lemma IncreasingDistinct(ms: seq<Migration>)
    requires Increasing(ms)
    ensures forall i, j :: 0 <= i < j < |ms| ==> ms[i].version != ms[j].version
  {
    forall i, j | 0 <= i < j < |ms|
      ensures ms[i].version != ms[j].version
    {
      BelowIrreflexive(ms[i].version);
    }
  }

  // ---- names and versions ------------------------------------------------------

  predicate HasSuffix(s: string, x: string) {
    |s| >= |x| && s[|s| - |x|..] == x
  }

  function TrimSuffix(s: string, x: string): (v: string)
    requires HasSuffix(s, x)
    ensures v + x == s
  {
    s[..|s| - |x|]
  }

  lemma SuffixOf(v: string, x: string)
    ensures HasSuffix(v + x, x) && TrimSuffix(v + x, x) == v
  {
  }

  lemma OneSuffixOnly(s: string)
    ensures !(HasSuffix(s, UP_SUFFIX) && HasSuffix(s, DOWN_SUFFIX))
  {
    if |s| >= 9 {
      assert s[|s| - 9..][2] == s[|s| - 7..][0];
    }
  }

  function FileNames(entries: seq<Entry>): set<string> {
    set i | 0 <= i < |entries| && !entries[i].isDir :: entries[i].name
  }

  /** The versions some script of the directory belongs to. */
  ghost predicate IsVersion(names: set<string>, v: string) {
    v + UP_SUFFIX in names || v + DOWN_SUFFIX in names
  }

  /** Exactly one of the version's two scripts is there. */
  predicate LacksOne(names: set<string>, v: string) {
    (v + UP_SUFFIX in names) != (v + DOWN_SUFFIX in names)
  }

  ghost predicate Complete(names: set<string>) {
    forall v :: IsVersion(names, v) ==> v + UP_SUFFIX in names && v + DOWN_SUFFIX in names
  }

  function PathOf(root: string, name: string): (p: string)
    ensures p != ""
  {
    root + "/" + name
  }

  function MigrationFor(root: string, v: string): Migration {
    Migration(v, PathOf(root, v + UP_SUFFIX), PathOf(root, v + DOWN_SUFFIX))
  }

  /** The plan of a directory: one migration per version, with its two scripts, versions increasing. */
  ghost predicate IsPlan(root: string, names: set<string>, plan: seq<Migration>) {
    && Increasing(plan)
    && (forall i :: 0 <= i < |plan| ==>
          IsVersion(names, plan[i].version) && plan[i] == MigrationFor(root, plan[i].version))
    && (forall v :: IsVersion(names, v) ==> MigrationFor(root, v) in plan)
  }

  // ---- loading -----------------------------------------------------------------

  /** The entry of version `v` after the names in `seen`: each path is set exactly when its script was seen. */
  ghost predicate Recorded(root: string, seen: set<string>, versions: map<string, Migration>) {
    && (forall v :: v in versions <==> IsVersion(seen, v))
    && (forall v :: v in versions ==>
          && versions[v].version == v
          && versions[v].upPath == (if v + UP_SUFFIX in seen then PathOf(root, v + UP_SUFFIX) else "")
          && versions[v].downPath == (if v + DOWN_SUFFIX in seen then PathOf(root, v + DOWN_SUFFIX) else ""))
  }

  function Lookup(versions: map<string, Migration>, v: string): Migration {
    if v in versions then versions[v] else Migration(v, "", "")
  }

  /** What the loop does with one file name. */
  function Record(root: string, versions: map<string, Migration>, name: string): map<string, Migration> {
    if HasSuffix(name, UP_SUFFIX) then
      var v := TrimSuffix(name, UP_SUFFIX);
      versions[v := Lookup(versions, v).(upPath := PathOf(root, name))]
    else if HasSuffix(name, DOWN_SUFFIX) then
      var v := TrimSuffix(name, DOWN_SUFFIX);
      versions[v := Lookup(versions, v).(downPath := PathOf(root, name))]
    else versions
  }

  lemma RecordStep(root: string, seen: set<string>, versions: map<string, Migration>, name: string)
    requires Recorded(root, seen, versions)
    ensures Recorded(root, seen + {name}, Record(root, versions, name))
  {
    var versions' := Record(root, versions, name);
    var seen' := seen + {name};
    OneSuffixOnly(name);
    forall v
      ensures v + UP_SUFFIX in seen' <==>
                v + UP_SUFFIX in seen || (HasSuffix(name, UP_SUFFIX) && v == TrimSuffix(name, UP_SUFFIX))
      ensures v + DOWN_SUFFIX in seen' <==>
                v + DOWN_SUFFIX in seen || (HasSuffix(name, DOWN_SUFFIX) && v == TrimSuffix(name, DOWN_SUFFIX))
    {
      SuffixOf(v, UP_SUFFIX);
      SuffixOf(v, DOWN_SUFFIX);
    }
  }

  /** Groups the names by version, refuses a version with a missing script, and
      sorts: on success the result is the directory's plan. */
  method LoadMigrationFiles(root: string, entries: seq<Entry>) returns (r: Result<seq<Migration>, LoadError>)
    ensures r.Ok? <==> Complete(FileNames(entries))
    ensures r.Ok? ==> IsPlan(root, FileNames(entries), r.value)
    ensures (forall i :: 0 <= i < |entries| ==> entries[i].isDir) ==> r == Ok([])
    ensures r.Err? ==> LacksOne(FileNames(entries), r.error.version)
  {
    var versions: map<string, Migration> := map[];
    var i := 0;
    ghost var seen: set<string> := {};
    while i < |entries|
      invariant 0 <= i <= |entries|
      invariant seen == FileNames(entries[..i])
      invariant Recorded(root, seen, versions)
    {
      NamesSnoc(entries, i);
      if !entries[i].isDir {
        RecordStep(root, seen, versions, entries[i].name);
        versions := Record(root, versions, entries[i].name);
        seen := seen + {entries[i].name};
      }
      i := i + 1;
    }
    assert entries[..i] == entries;
    r := Collect(root, versions, FileNames(entries));
    NoFilesNoPlan(root, FileNames(entries), r);
  }

  lemma NoFilesNoPlan(root: string, names: set<string>, r: Result<seq<Migration>, LoadError>)
    requires (r.Ok? <==> Complete(names)) && (r.Ok? ==> IsPlan(root, names, r.value))
    ensures names == {} ==> r == Ok([])
  {
    if names == {} {
      assert forall v :: !IsVersion(names, v);
      assert Complete(names);
      PlanOfVersions(root, names, r.value);
    }
  }

  lemma PlanOfVersions(root: string, names: set<string>, plan: seq<Migration>)
    requires IsPlan(root, names, plan)
    ensures plan == [] || exists v :: IsVersion(names, v)
  {
    if plan != [] {
      assert IsVersion(names, plan[0].version);
    }
  }

  lemma NamesSnoc(entries: seq<Entry>, i: nat)
    requires i < |entries|
    ensures FileNames(entries[..i + 1]) == FileNames(entries[..i]) + if entries[i].isDir then {} else {entries[i].name}
  {
    var es := entries[..i + 1];
    assert es[..i] == entries[..i] && es[i] == entries[i];
    forall x
      ensures x in FileNames(es) <==> x in FileNames(entries[..i]) || (!entries[i].isDir && x == entries[i].name)
    {
      if x in FileNames(es) {
        var j :| 0 <= j < |es| && !es[j].isDir && es[j].name == x;
        assert j < i ==> entries[..i][j] == es[j];
      }
      if x in FileNames(entries[..i]) {
        var j :| 0 <= j < i && !entries[..i][j].isDir && entries[..i][j].name == x;
        assert es[j].name == x;
      }
      if !entries[i].isDir && x == entries[i].name {
        assert es[i].name == x;
      }
    }
  }

  predicate HasBoth(m: Migration) {
    m.upPath != "" && m.downPath != ""
  }

  /** Every entry is filed under its own version. */
  ghost predicate Filed(versions: map<string, Migration>) {
    forall v :: v in versions ==> versions[v].version == v
  }

  /** `ms` holds, once each, the entries of the versions walked so far, all with both scripts. */
  ghost predicate Gathered(versions: map<string, Migration>, ms: seq<Migration>, walked: set<string>) {
    && walked <= versions.Keys
    && (forall k :: 0 <= k < |ms| ==> ms[k].version in walked && ms[k] == versions[ms[k].version])
    && (forall j, k :: 0 <= j < k < |ms| ==> ms[j].version != ms[k].version)
    && (forall v :: v in walked ==> versions[v] in ms && HasBoth(versions[v]))
  }

  lemma GatherStep(versions: map<string, Migration>, ms: seq<Migration>, walked: set<string>, v: string)
    requires Filed(versions) && Gathered(versions, ms, walked)
    requires v in versions && v !in walked && HasBoth(versions[v])
    ensures Gathered(versions, ms + [versions[v]], walked + {v})
  {
    var ms' := ms + [versions[v]];
    assert ms'[|ms|] in ms';
  }

  /** The next key of an iteration in no particular order. */
  method TakeAny(left: set<string>) returns (v: string, rest: set<string>)
    requires left != {}
    ensures v in left && rest == left - {v} && |rest| < |left|
  {
    v :| v in left;
    rest := left - {v};
  }

  /** Walks the map in an arbitrary order, as ranging over a Go map does. */
  method Gather(versions: map<string, Migration>) returns (r: Result<seq<Migration>, LoadError>)
    requires Filed(versions)
    ensures r.Ok? ==> Gathered(versions, r.value, versions.Keys)
    ensures r.Err? ==> r.error.version in versions && !HasBoth(versions[r.error.version])
  {
    var left := versions.Keys;
    var result: seq<Migration> := [];
    ghost var walked: set<string> := {};
    while left != {}
      invariant walked !! left && walked + left == versions.Keys
      invariant Gathered(versions, result, walked)
      decreases |left|
    {
      var v, rest := TakeAny(left);
      var m := versions[v];
      if m.upPath == "" || m.downPath == "" {
        return Err(MissingScript(m.version));
      }
      GatherStep(versions, result, walked, v);
      result := result + [m];
      left, walked := rest, walked + {v};
    }
    assert walked == versions.Keys;
    r := Ok(result);
  }

  /** A recorded version lacks a path exactly when the directory lacks a script, and then it is incomplete. */
  lemma RecordedEntry(root: string, names: set<string>, versions: map<string, Migration>, v: string)
    requires Recorded(root, names, versions) && v in versions
    ensures !HasBoth(versions[v]) ==> !Complete(names) && LacksOne(names, v)
    ensures HasBoth(versions[v]) ==>
              v + UP_SUFFIX in names && v + DOWN_SUFFIX in names && versions[v] == MigrationFor(root, v)
  {
    assert IsVersion(names, v);
  }

  lemma SortedPlan(root: string, names: set<string>, versions: map<string, Migration>,
                   ms: seq<Migration>, sorted: seq<Migration>)
    requires Recorded(root, names, versions) && Gathered(versions, ms, versions.Keys)
    requires Increasing(sorted) && multiset(sorted) == multiset(ms)
    ensures Complete(names) && IsPlan(root, names, sorted)
  {
    forall v | IsVersion(names, v)
      ensures v + UP_SUFFIX in names && v + DOWN_SUFFIX in names && MigrationFor(root, v) in sorted
    {
      RecordedEntry(root, names, versions, v);
      assert versions[v] in multiset(ms);
    }
    forall k | 0 <= k < |sorted|
      ensures IsVersion(names, sorted[k].version) && sorted[k] == MigrationFor(root, sorted[k].version)
    {
      assert sorted[k] in multiset(sorted);
      assert sorted[k] in ms;
      RecordedEntry(root, names, versions, sorted[k].version);
    }
  }

  /** Refuses a version with a missing script, and sorts. */
  method Collect(root: string, versions: map<string, Migration>, ghost names: set<string>)
    returns (r: Result<seq<Migration>, LoadError>)
    requires Recorded(root, names, versions)
    ensures r.Ok? <==> Complete(names)
    ensures r.Ok? ==> IsPlan(root, names, r.value)
    ensures r.Err? ==> LacksOne(names, r.error.version)
  {
    r := Gather(versions);
    if r.Err? {
      RecordedEntry(root, names, versions, r.error.version);
    } else {
      var sorted := SortByVersion(r.value);
      SortedPlan(root, names, versions, r.value, sorted);
      r := Ok(sorted);
    }
  }

  /** Sorting by version, for distinct versions. */
  method SortByVersion(ms: seq<Migration>) returns (r: seq<Migration>)
    requires forall j, k :: 0 <= j < k < |ms| ==> ms[j].version != ms[k].version
    ensures Increasing(r)
    ensures multiset(r) == multiset(ms)
  {
    r := [];
    var i := 0;
    while i < |ms|
      invariant 0 <= i <= |ms|
      invariant Increasing(r)
      invariant multiset(r) == multiset(ms[..i])
    {
      assert ms[..i + 1] == ms[..i] + [ms[i]];
      forall k | 0 <= k < |r|
        ensures r[k].version != ms[i].version
      {
        assert r[k] in multiset(r);
        assert r[k] in ms[..i];
      }
      r := InsertByVersion(r, ms[i]);
      i := i + 1;
    }
    assert ms[..i] == ms;
  }

  method InsertByVersion(ms: seq<Migration>, m: Migration) returns (r: seq<Migration>)
    requires Increasing(ms) && forall k :: 0 <= k < |ms| ==> ms[k].version != m.version
    ensures Increasing(r)
    ensures multiset(r) == multiset(ms) + multiset{m}
  {
    var at := 0;
    while at < |ms| && Below(ms[at].version, m.version)
      invariant 0 <= at <= |ms|
      invariant forall k :: 0 <= k < at ==> Below(ms[k].version, m.version)
    {
      at := at + 1;
    }
    InsertIncreasing(ms, m, at);
    InsertMembers(ms, m, at);
    r := ms[..at] + [m] + ms[at..];
  }

  lemma InsertMembers(ms: seq<Migration>, m: Migration, at: nat)
    requires at <= |ms|
    ensures multiset(ms[..at] + [m] + ms[at..]) == multiset(ms) + multiset{m}
  {
    assert ms == ms[..at] + ms[at..];
  }

  lemma InsertIncreasing(ms: seq<Migration>, m: Migration, at: nat)
    requires Increasing(ms) && at <= |ms|
    requires forall k :: 0 <= k < at ==> Below(ms[k].version, m.version)
    requires at < |ms| ==> ms[at].version != m.version && !Below(ms[at].version, m.version)
    ensures Increasing(ms[..at] + [m] + ms[at..])
  {
    var r := ms[..at] + [m] + ms[at..];
    forall i, j | 0 <= i < j < |r|
      ensures Below(r[i].version, r[j].version)
    {
      if i == at {
        assert r[j] == ms[j - 1];
        BelowTotal(ms[at].version, m.version);
        if j > at + 1 {
          BelowTransitive(m.version, ms[at].version, ms[j - 1].version);
        }
      } else {
        var i' := if i < at then i else i - 1;
        assert r[i] == ms[i'];
        if j != at {
          assert r[j] == ms[if j < at then j else j - 1];
        }
      }
    }
  }

  // ---- the plan depends on the set of names only --------------------------------

  lemma FirstIsLeast(ms: seq<Migration>, i: nat)
    requires Increasing(ms) && i < |ms|
    ensures ms[0] == ms[i] || Below(ms[0].version, ms[i].version)
  {
  }

  lemma MemberOfNonEmpty(ms: seq<Migration>)
    ensures ms == [] || exists m :: m in ms
  {
    if ms != [] {
      assert ms[0] in ms;
    }
  }

  lemma {:induction false} IncreasingUnique(a: seq<Migration>, b: seq<Migration>)
    requires Increasing(a) && Increasing(b)
    requires forall m :: m in a <==> m in b
    ensures a == b
  {
    if a == [] {
      MemberOfNonEmpty(b);
    } else {
      assert a[0] in b;
      assert b[0] in a;
      var i :| 0 <= i < |b| && b[i] == a[0];
      var j :| 0 <= j < |a| && a[j] == b[0];
      FirstIsLeast(b, i);
      FirstIsLeast(a, j);
      if a[0] != b[0] {
        BelowTransitive(a[0].version, b[0].version, a[0].version);
        BelowIrreflexive(a[0].version);
      }
      SameTails(a, b);
      IncreasingUnique(a[1..], b[1..]);
      assert a == [a[0]] + a[1..] && b == [b[0]] + b[1..];
    }
  }

  lemma SameTails(a: seq<Migration>, b: seq<Migration>)
    requires Increasing(a) && Increasing(b) && a != [] && b != [] && a[0] == b[0]
    requires forall m :: m in a <==> m in b
    ensures forall m :: m in a[1..] <==> m in b[1..]
  {
    IncreasingDistinct(a);
    IncreasingDistinct(b);
    forall m
      ensures m in a[1..] <==> m in b[1..]
    {
      if m in a[1..] {
        assert m in b;
        var k :| 0 <= k < |b| && b[k] == m;
        assert k > 0 && b[1..][k - 1] == m;
      }
      if m in b[1..] {
        assert m in a;
        var k :| 0 <= k < |a| && a[k] == m;
        assert k > 0 && a[1..][k - 1] == m;
      }
    }
  }

  /** Two listings with the same set of file names have the same plan, whatever
      the order of the listing and of the walk over the map. */
  lemma PlanDependsOnNamesOnly(root: string, names: set<string>, a: seq<Migration>, b: seq<Migration>)
    requires IsPlan(root, names, a) && IsPlan(root, names, b)
    ensures a == b
  {
    forall m
      ensures m in a <==> m in b
    {
    }
    IncreasingUnique(a, b);
  }

  // ---- the order and the scripts, in plain terms -----------------------------------

  /** The order is that of dictionaries: the first different character decides, and a
      proper prefix comes first. */
  lemma {:induction false} FirstDifferenceDecides(p: string, x: char, s: string, y: char, t: string)
    requires x < y
    ensures Below(p + [x] + s, p + [y] + t) && !Below(p + [y] + t, p + [x] + s)
  {
    if p != "" {
      FirstDifferenceDecides(p[1..], x, s, y, t);
      assert (p + [x] + s)[1..] == p[1..] + [x] + s && (p + [y] + t)[1..] == p[1..] + [y] + t;
    }
  }

  lemma {:induction false} PrefixComesFirst(p: string, s: string)
    requires s != ""
    ensures Below(p, p + s) && !Below(p + s, p)
  {
    if p != "" {
      PrefixComesFirst(p[1..], s);
      assert (p + s)[1..] == p[1..] + s;
    }
  }

  /** In a directory's plan an earlier version comes before a later one, in that sense. */
  lemma PlanIsInDictionaryOrder(root: string, names: set<string>, plan: seq<Migration>, i: nat, j: nat,
                                p: string, x: char, s: string, y: char, t: string)
    requires IsPlan(root, names, plan) && i < |plan| && j < |plan| && x < y
    requires plan[i].version == p + [x] + s && plan[j].version == p + [y] + t
    ensures i < j
  {
    FirstDifferenceDecides(p, x, s, y, t);
    BelowMeansBefore(plan, i, j);
  }

  lemma BelowMeansBefore(plan: seq<Migration>, i: nat, j: nat)
    requires Increasing(plan) && i < |plan| && j < |plan|
    ensures Below(plan[i].version, plan[j].version) <==> i < j
  {
    BelowIrreflexive(plan[i].version);
    BelowAsymmetric(plan[i].version, plan[j].version);
  }

  lemma BelowAsymmetric(a: string, b: string)
    ensures !(Below(a, b) && Below(b, a))
  {
    BelowIrreflexive(a);
    if Below(a, b) && Below(b, a) {
      BelowTransitive(a, b, a);
    }
  }

  /** A version's up path is that of its `.up.sql` file and its down path that of its `.down.sql` file. */
  lemma PlanPaths(root: string, names: set<string>, plan: seq<Migration>, i: nat)
    requires IsPlan(root, names, plan) && i < |plan|
    ensures plan[i].version + ".up.sql" in names || plan[i].version + ".down.sql" in names
    ensures plan[i].upPath == root + "/" + (plan[i].version + ".up.sql")
    ensures plan[i].downPath == root + "/" + (plan[i].version + ".down.sql")
  {
  }

  /** A directory is complete when no version has one script without the other. */
  lemma CompleteMeansBoth(names: set<string>)
    ensures Complete(names) <==> forall v: string :: v + UP_SUFFIX in names <==> v + DOWN_SUFFIX in names
    ensures UP_SUFFIX == ".up.sql" && DOWN_SUFFIX == ".down.sql"
  {
    if forall v: string :: v + UP_SUFFIX in names <==> v + DOWN_SUFFIX in names {
      forall v | IsVersion(names, v)
        ensures v + UP_SUFFIX in names && v + DOWN_SUFFIX in names
      {
      }
    }
    if Complete(names) {
      forall v: string
        ensures v + UP_SUFFIX in names <==> v + DOWN_SUFFIX in names
      {
        assert IsVersion(names, v) ==> v + UP_SUFFIX in names && v + DOWN_SUFFIX in names;
      }
    }
  }
}
