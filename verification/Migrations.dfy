/**
 The migration runner: file names in sorted order, one transaction a file, a table of
 applied versions. Any number of processes may run it at once and stop anywhere. What a
 script does to the database is a parameter; it may also refuse a content it cannot change.
 */
module Migrations {
  import opened Results

  type Name = string

  const Suffix: string := ".up.sql"

  type Scripts<!S> = (Name, S) -> Option<S>

  datatype Db<S> = Db(content: S, versions: set<string>)

  /** What befalls one file: nothing, a failure rolled back, or a commit nobody hears of. */
  datatype Fate = Fine | Failed | Lost

  // ----- names and their order -----

  predicate IsMigration(name: Name) {
    |name| >= |Suffix| && name[|name| - |Suffix|..] == Suffix
  }

  function VersionOf(name: Name): string
    requires IsMigration(name)
  {
    name[..|name| - |Suffix|]
  }

  predicate Le(a: string, b: string) {
    a == "" || (b != "" && if a[0] == b[0] then Le(a[1..], b[1..]) else a[0] < b[0])
  }

  predicate Sorted(names: seq<string>) {
    forall i, j | 0 <= i < j < |names| :: Le(names[i], names[j])
  }

  lemma {:induction false} LeTotal(a: string, b: string)
    ensures Le(a, b) || Le(b, a)
    ensures Le(a, b) && Le(b, a) ==> a == b
  {
    if a != "" && b != "" && a[0] == b[0] {
      LeTotal(a[1..], b[1..]);
      assert a == [a[0]] + a[1..] && b == [b[0]] + b[1..];
    }
  }

  lemma {:induction false} LeTransitive(a: string, b: string, c: string)
    requires Le(a, b) && Le(b, c)
    ensures Le(a, c)
  {
    if a != "" && a[0] == b[0] && b[0] == c[0] {
      LeTransitive(a[1..], b[1..], c[1..]);
    }
  }

  function Insert(name: string, names: seq<string>): (r: seq<string>)
    requires Sorted(names)
    ensures Sorted(r) && multiset(r) == multiset(names) + multiset{name}
  {
    if names == [] then [name]
    else if Le(name, names[0]) then
      InsertedFirst(name, names);
      [name] + names
    else
      var rest := Insert(name, names[1..]);
      InsertedLater(name, names, rest);
      [names[0]] + rest
  }

  lemma InsertedFirst(name: string, names: seq<string>)
    requires Sorted(names) && names != [] && Le(name, names[0])
    ensures Sorted([name] + names)
  {
    forall j | 0 <= j < |names| ensures Le(name, names[j]) {
      if j > 0 { LeTransitive(name, names[0], names[j]); }
    }
  }

  lemma InsertedLater(name: string, names: seq<string>, rest: seq<string>)
    requires Sorted(names) && names != [] && !Le(name, names[0]) && Sorted(rest)
    requires multiset(rest) == multiset(names[1..]) + multiset{name}
    ensures Sorted([names[0]] + rest)
    ensures multiset([names[0]] + rest) == multiset(names) + multiset{name}
  {
    assert names == [names[0]] + names[1..];
    forall j | 0 <= j < |rest| ensures Le(names[0], rest[j]) {
      LeTotal(name, names[0]);
      assert rest[j] in multiset(rest);
      if rest[j] != name {
        assert rest[j] in names[1..];
      }
    }
  }

  function Sort(names: seq<string>): (r: seq<string>)
    ensures Sorted(r) && multiset(r) == multiset(names)
  {
    if names == [] then [] else
      assert names == [names[0]] + names[1..];
      Insert(names[0], Sort(names[1..]))
  }

  lemma FirstIsLeast(names: seq<string>, x: string)
    requires Sorted(names) && x in multiset(names)
    ensures names != [] && Le(names[0], x)
  {
    var i :| 0 <= i < |names| && names[i] == x;
    LeTotal(x, x);
  }

  lemma SameFirst(a: seq<string>, b: seq<string>)
    requires Sorted(a) && Sorted(b) && multiset(a) == multiset(b) && a != [] && b != []
    ensures a[0] == b[0]
  {
    assert a[0] in multiset(a) && b[0] in multiset(b);
    FirstIsLeast(a, b[0]);
    FirstIsLeast(b, a[0]);
    LeTotal(a[0], b[0]);
  }

  lemma SameRest(a: seq<string>, b: seq<string>)
    requires multiset(a) == multiset(b) && a != [] && b != [] && a[0] == b[0]
    ensures multiset(a[1..]) == multiset(b[1..])
  {
    assert a == [a[0]] + a[1..] && b == [a[0]] + b[1..];
    assert multiset(a[1..]) == multiset(a) - multiset{a[0]} == multiset(b[1..]);
  }

  /** The order does not depend on how the directory lists its files. */
  lemma {:induction false} SortedIsUnique(a: seq<string>, b: seq<string>)
    requires Sorted(a) && Sorted(b) && multiset(a) == multiset(b)
    ensures a == b
  {
    assert |a| == |multiset(a)| == |b|;
    if a != [] {
      SameFirst(a, b);
      SameRest(a, b);
      SortedIsUnique(a[1..], b[1..]);
      assert a == [a[0]] + a[1..] && b == [b[0]] + b[1..];
    }
  }

  /** No name is listed twice. */
  ghost predicate Distinct(files: seq<Name>) {
    forall name | name in files :: multiset(files)[name] == 1
  }

  lemma SortKeepsDistinct(names: seq<string>)
    requires Distinct(names)
    ensures Distinct(Sort(names))
  {
    forall name | name in Sort(names) ensures multiset(Sort(names))[name] == 1 {
      assert name in multiset(Sort(names));
    }
  }

  /** A difference at the first place where two names differ, or one name cut short. */
  lemma {:induction false} LeByFirstDifference(a: string, b: string)
    ensures Le(a, b) <==> a <= b || exists i :: 0 <= i < |a| && i < |b| && a[..i] == b[..i] && a[i] < b[i]
  {
    if a != "" && b != "" {
      LeByFirstDifference(a[1..], b[1..]);
      assert a[..0] == b[..0];
      assert forall i | 0 <= i < |a| - 1 && i < |b| - 1 && a[0] == b[0] ::
          a[1..][..i] == b[1..][..i] <==> a[..i + 1] == b[..i + 1] by {
        forall i | 0 <= i < |a| - 1 && i < |b| - 1 && a[0] == b[0]
          ensures a[1..][..i] == b[1..][..i] <==> a[..i + 1] == b[..i + 1]
        {
          assert a[..i + 1] == [a[0]] + a[1..][..i] && b[..i + 1] == [b[0]] + b[1..][..i];
        }
      }
    }
  }

  /**
   What a version may be extended by so that its file still sorts before: something below
   the suffix at the first place where they differ, or a beginning of the suffix other
   than ".up", after which another suffix follows.
   */
  predicate SortsEarly(w: string) {
    || (exists i :: 0 <= i < |w| && i < |Suffix| && w[..i] == Suffix[..i] && w[i] < Suffix[i])
    || (0 < |w| < |Suffix| && |w| != 3 && w <= Suffix)
  }

  /** Version `v` extends `u`, and what it adds sorts early. */
  predicate Overtakes(v: string, u: string) {
    u <= v && SortsEarly(v[|u|..])
  }

  lemma {:induction false} AppendingBeyond(w: string, more: string, s: string)
    requires !(w <= s)
    ensures Le(w + more, s) <==> Le(w, s)
  {
    assert (w + more)[0] == w[0] && (w + more)[1..] == w[1..] + more;
    if s != "" && w[0] == s[0] {
      assert w == [w[0]] + w[1..] && s == [s[0]] + s[1..];
      AppendingBeyond(w[1..], more, s[1..]);
    }
  }

  lemma NothingBeforeItsBeginning(s: string)
    requires s != ""
    ensures !Le(s + s, s)
  {
    LeByFirstDifference(s + s, s);
    assert forall i | 0 <= i < |s| :: (s + s)[i] == s[i];
  }

  lemma SortsEarlyExactly(w: string)
    ensures SortsEarly(w) <==> w != "" && Le(w + Suffix, Suffix)
  {
    LeByFirstDifference(w, Suffix);
    if !(w <= Suffix) {
      AppendingBeyond(w, Suffix, Suffix);
    } else if w == Suffix {
      NothingBeforeItsBeginning(Suffix);
    } else if w != "" {
      assert w == Suffix[..|w|];
      SuffixAfterItsBeginning(|w|);
    }
  }

  /** The suffix, cut after `n` characters and started again, against itself. */
  lemma SuffixAfterItsBeginning(n: nat)
    requires 0 < n < |Suffix|
    ensures Le(Suffix[..n] + Suffix, Suffix) <==> n != 3
  {
    assert Suffix[n] != '.' || n == 3;
    LeByFirstDifference(Suffix[..n] + Suffix, Suffix);
    var a := Suffix[..n] + Suffix;
    assert a[n] == '.' && a[..n] == Suffix[..n];
    if n == 3 {
      assert a[4] == 'u' && Suffix[4] == 's';
      assert forall i | 0 <= i < 4 :: a[i] == Suffix[i];
      assert forall i | 4 < i < |Suffix| :: a[..i][4] == 'u' && Suffix[..i][4] == 's';
    }
  }

  /** For one pair of versions, sorting files is sorting versions exactly when neither overtakes the other. */
  lemma {:induction false} PairOrderExactly(u: string, v: string)
    ensures (Le(u, v) <==> Le(u + Suffix, v + Suffix)) <==> !Overtakes(v, u) && !Overtakes(u, v)
  {
    if u == "" {
      assert v[0..] == v && u + Suffix == Suffix;
      SortsEarlyExactly(v);
      SortsEarlyExactly("");
      LeTotal(Suffix, v + Suffix);
    } else if v == "" {
      assert u[0..] == u && v + Suffix == Suffix;
      SortsEarlyExactly(u);
      LeTotal(Suffix, u + Suffix);
    } else {
      assert (u + Suffix)[1..] == u[1..] + Suffix && (v + Suffix)[1..] == v[1..] + Suffix;
      if u[0] == v[0] {
        PairOrderExactly(u[1..], v[1..]);
        OvertakesTail(u, v);
        OvertakesTail(v, u);
      }
    }
  }

  lemma OvertakesTail(v: string, u: string)
    requires u != "" && v != "" && u[0] == v[0]
    ensures Overtakes(v, u) <==> Overtakes(v[1..], u[1..])
  {
    assert u == [u[0]] + u[1..] && v == [v[0]] + v[1..];
    assert u <= v <==> u[1..] <= v[1..];
    if u <= v {
      assert v[|u|..] == v[1..][|u| - 1..];
    }
  }

  ghost predicate AllMigrations(names: seq<Name>) {
    forall i | 0 <= i < |names| :: IsMigration(names[i])
  }

  function VersionsInOrder(names: seq<Name>): (versions: seq<string>)
    requires AllMigrations(names)
    ensures |versions| == |names| && forall i | 0 <= i < |names| :: versions[i] == VersionOf(names[i])
  {
    seq(|names|, i requires 0 <= i < |names| => VersionOf(names[i]))
  }

  lemma SortKeepsMigrations(names: seq<Name>)
    requires AllMigrations(names)
    ensures AllMigrations(Sort(names))
    ensures forall name :: name in names <==> name in Sort(names)
  {
    assert forall name :: name in multiset(names) <==> name in names;
    assert forall name :: name in multiset(Sort(names)) <==> name in Sort(names);
    forall i | 0 <= i < |Sort(names)| ensures IsMigration(Sort(names)[i]) {
      assert Sort(names)[i] in names;
    }
  }

  /**
   The runner sorts file names, not versions: the files of a directory run in version
   order exactly when no version in it overtakes another.
   */
  lemma FileOrderIsVersionOrderExactly(names: seq<Name>)
    requires AllMigrations(names)
    ensures AllMigrations(Sort(names))
    ensures Sorted(VersionsInOrder(Sort(names))) <==>
            forall a, b | a in names && b in names :: !Overtakes(VersionOf(a), VersionOf(b))
  {
    SortKeepsMigrations(names);
    var files := Sort(names);
    var versions := VersionsInOrder(files);
    if Sorted(versions) {
      forall a, b | a in names && b in names ensures !Overtakes(VersionOf(a), VersionOf(b)) {
        if Overtakes(VersionOf(a), VersionOf(b)) {
          var i :| 0 <= i < |files| && files[i] == a;
          var j :| 0 <= j < |files| && files[j] == b;
          OvertakingIsDisorder(files, i, j);
        }
      }
    } else {
      var i, j :| 0 <= i < j < |versions| && !Le(versions[i], versions[j]);
      FileIsVersion(files[i]);
      FileIsVersion(files[j]);
      PairOrderExactly(versions[i], versions[j]);
      assert files[i] in names && files[j] in names;
    }
  }

  lemma FileIsVersion(name: Name)
    requires IsMigration(name)
    ensures name == VersionOf(name) + Suffix
  {
  }

  lemma OvertakingIsDisorder(files: seq<Name>, i: nat, j: nat)
    requires AllMigrations(files) && Sorted(files) && i < |files| && j < |files|
    requires Overtakes(VersionOf(files[i]), VersionOf(files[j]))
    ensures !Sorted(VersionsInOrder(files))
  {
    var v, u := VersionOf(files[i]), VersionOf(files[j]);
    FileIsVersion(files[i]);
    FileIsVersion(files[j]);
    PairOrderExactly(u, v);
    SortsEarlyExactly(v[|u|..]);
    LeByFirstDifference(u, v);
    LeTotal(u, v);
    LeTotal(files[i], files[j]);
    assert !Le(u + Suffix, v + Suffix);
    assert i < j;
    assert VersionsInOrder(files)[i] == v && VersionsInOrder(files)[j] == u;
  }

  /** A dash after a complete version is enough: "1-a" is newer than "1" and runs first. */
  lemma ADashOvertakes()
    ensures Le("1", "1-a") && Le("1-a.up.sql", "1.up.sql") && !Le("1.up.sql", "1-a.up.sql")
  {
  }

  /** Versions that start with different numbers of the same width never overtake each other. */
  lemma NumberedVersionsKeepOrder(u: string, v: string, width: nat)
    requires width <= |u| && width <= |v| && u[..width] != v[..width]
    ensures Le(u, v) <==> Le(u + Suffix, v + Suffix)
  {
    PairOrderExactly(u, v);
  }

  // ----- one file, one run -----

  /** One transaction: the database after it, and whether the runner goes on. */
  function RunFile<S>(sql: Scripts<S>, db: Db<S>, name: Name, fate: Fate): (Db<S>, bool) {
    if !IsMigration(name) || VersionOf(name) == "" || fate == Failed then (db, false)
    else if VersionOf(name) in db.versions then (db, fate == Fine)
    else match sql(name, db.content)
      case None => (db, false)
      case Some(content) => (Db(content, db.versions + {VersionOf(name)}), fate == Fine)
  }

  /**
   One file, exactly: success means a valid name, no fault, and a version already recorded
   or a script that applies; the database changes exactly when such a script's commit goes
   through, heard of or not, and then content and version are written together.
   */
  lemma RunsOneFileExactly<S(!new)>(sql: Scripts<S>, db: Db<S>, name: Name, fate: Fate)
    ensures var (db', ok) := RunFile(sql, db, name, fate);
            var valid := IsMigration(name) && VersionOf(name) != "";
            && (ok <==> valid && fate == Fine && (VersionOf(name) in db.versions || sql(name, db.content).Some?))
            && (if valid && fate != Failed && VersionOf(name) !in db.versions && sql(name, db.content).Some?
                then db' == Db(sql(name, db.content).value, db.versions + {VersionOf(name)})
                else db' == db)
  {
  }

  /** A run from file `i` on, stopping at the first error. */
  function RunFrom<S>(sql: Scripts<S>, db: Db<S>, files: seq<Name>, i: nat, fates: Name -> Fate): (Db<S>, bool)
    requires i <= |files|
    decreases |files| - i
  {
    if i == |files| then (db, true) else
      var (next, ok) := RunFile(sql, db, files[i], fates(files[i]));
      if ok then RunFrom(sql, next, files, i + 1, fates) else (next, false)
  }

  // ----- what a complete run means -----

  /** The content after the first `n` scripts, each applied once, in order. */
  ghost function Fold<S>(sql: Scripts<S>, start: S, files: seq<Name>, n: nat): Option<S>
    requires n <= |files|
  {
    if n == 0 then Some(start) else
      match Fold(sql, start, files, n - 1)
      case None => None
      case Some(content) => if IsMigration(files[n - 1]) && VersionOf(files[n - 1]) != "" then sql(files[n - 1], content) else None
  }

  ghost function VersionsOf(files: seq<Name>): set<string> {
    set name | name in files && IsMigration(name) :: VersionOf(name)
  }

  /** Exactly the first `n` files have been applied, once each, and recorded. */
  ghost predicate AppliedPrefix<S(!new)>(sql: Scripts<S>, start: S, files: seq<Name>, db: Db<S>, n: nat) {
    n <= |files| && Fold(sql, start, files, n) == Some(db.content) && db.versions == VersionsOf(files[..n])
  }

  lemma NotEarlier(files: seq<Name>, n: nat, i: nat)
    requires Distinct(files) && n <= i < |files|
    ensures files[i] !in files[..n]
  {
    var name := files[i];
    assert files == files[..n] + files[n..] && files[n..][i - n] == name;
    assert name in multiset(files[n..]);
    assert multiset(files)[name] == multiset(files[..n])[name] + multiset(files[n..])[name];
    assert multiset(files)[name] == 1;
    assert name !in multiset(files[..n]);
  }

  lemma RecordedExactly(files: seq<Name>, n: nat, i: nat)
    requires Distinct(files) && n <= |files| && i < |files| && IsMigration(files[i])
    ensures VersionOf(files[i]) in VersionsOf(files[..n]) <==> i < n
  {
    if i < n {
      assert files[..n][i] == files[i];
    }
    if VersionOf(files[i]) in VersionsOf(files[..n]) {
      var name :| name in files[..n] && IsMigration(name) && VersionOf(name) == VersionOf(files[i]);
      assert name == VersionOf(name) + Suffix && files[i] == VersionOf(files[i]) + Suffix;
      if n <= i {
        NotEarlier(files, n, i);
        assert false;
      }
    }
  }

  /**
   One transaction on a database holding a prefix, by a runner not beyond it: the prefix
   stays or grows by one, and a runner that goes on is still not beyond it.
   */
  lemma FileStep<S(!new)>(sql: Scripts<S>, start: S, files: seq<Name>, db: Db<S>, n: nat, i: nat, fate: Fate)
    returns (m: nat)
    requires Distinct(files) && AppliedPrefix(sql, start, files, db, n) && i < |files| && i <= n
    ensures var (db', ok) := RunFile(sql, db, files[i], fate);
            n <= m && AppliedPrefix(sql, start, files, db', m) && (ok ==> i < m)
  {
    var (db', ok) := RunFile(sql, db, files[i], fate);
    m := n;
    if IsMigration(files[i]) {
      RecordedExactly(files, n, i);
      if db' != db {
        m := n + 1;
        assert files[..m] == files[..n] + [files[n]];
        assert VersionsOf(files[..m]) == VersionsOf(files[..n]) + {VersionOf(files[n])};
      }
    }
  }

  /** These files and no others have been applied. */
  ghost predicate IsItsPrefix<S(!new)>(sql: Scripts<S>, start: S, files: seq<Name>, db: Db<S>, n: nat) {
    && AppliedPrefix(sql, start, files, db, n)
    && forall m :: AppliedPrefix(sql, start, files, db, m) ==> m == n
  }

  lemma PrefixIsUnique<S(!new)>(sql: Scripts<S>, start: S, files: seq<Name>, db: Db<S>, n: nat, m: nat)
    requires Distinct(files) && AppliedPrefix(sql, start, files, db, n) && AppliedPrefix(sql, start, files, db, m)
    ensures n == m
  {
    if n < m { FoldIsMigration(sql, start, files, m, n); RecordedExactly(files, n, n); RecordedExactly(files, m, n); }
    if m < n { FoldIsMigration(sql, start, files, n, m); RecordedExactly(files, m, m); RecordedExactly(files, n, m); }
  }

  lemma {:induction false} FoldIsMigration<S>(sql: Scripts<S>, start: S, files: seq<Name>, n: nat, i: nat)
    requires i < n <= |files| && Fold(sql, start, files, n).Some?
    ensures IsMigration(files[i]) && VersionOf(files[i]) != ""
  {
    if i < n - 1 { FoldIsMigration(sql, start, files, n - 1, i); }
  }

  // ----- any number of runners -----

  type Runner = nat

  /** The shared database, and how far each process at work has come. */
  datatype System<S> = System(db: Db<S>, at: map<Runner, nat>)

  datatype Event =
    | Start(runner: Runner)
    | Step(runner: Runner, fate: Fate)
    | Stop(runner: Runner)

  function Apply<S>(sql: Scripts<S>, files: seq<Name>, s: System<S>, e: Event): System<S> {
    match e
    case Start(runner) => s.(at := s.at[runner := 0])
    case Step(runner, fate) =>
      if runner !in s.at || s.at[runner] >= |files| then s else
        var (db, ok) := RunFile(sql, s.db, files[s.at[runner]], fate);
        System(db, if ok then s.at[runner := s.at[runner] + 1] else s.at - {runner})
    case Stop(runner) => s.(at := s.at - {runner})
  }

  function RunEvents<S>(sql: Scripts<S>, files: seq<Name>, s: System<S>, events: seq<Event>): System<S>
    decreases |events|
  {
    if events == [] then s else RunEvents(sql, files, Apply(sql, files, s, events[0]), events[1..])
  }

  ghost predicate Inv<S(!new)>(sql: Scripts<S>, start: S, files: seq<Name>, s: System<S>, n: nat) {
    AppliedPrefix(sql, start, files, s.db, n) && forall r | r in s.at :: s.at[r] <= n
  }

  lemma {:induction false} RunnersKeepInv<S(!new)>(sql: Scripts<S>, start: S, files: seq<Name>, s: System<S>, n: nat, events: seq<Event>)
    returns (m: nat)
    requires Distinct(files) && Inv(sql, start, files, s, n)
    ensures n <= m && Inv(sql, start, files, RunEvents(sql, files, s, events), m)
    decreases |events|
  {
    m := n;
    if events != [] {
      var e := events[0];
      if e.Step? && e.runner in s.at && s.at[e.runner] < |files| {
        m := FileStep(sql, start, files, s.db, n, s.at[e.runner], e.fate);
      }
      m := RunnersKeepInv(sql, start, files, Apply(sql, files, s, e), m, events[1..]);
    }
  }

  function Empty<S>(start: S): System<S> {
    System(Db(start, {}), map[])
  }

  /** Whatever runners do and wherever they stop, one prefix of the files, and no other, has been applied. */
  lemma EveryStateIsAPrefix<S(!new)>(sql: Scripts<S>, start: S, files: seq<Name>, events: seq<Event>) returns (n: nat)
    requires Distinct(files)
    ensures IsItsPrefix(sql, start, files, RunEvents(sql, files, Empty(start), events).db, n)
  {
    assert AppliedPrefix(sql, start, files, Db(start, {}), 0);
    n := RunnersKeepInv(sql, start, files, Empty(start), 0, events);
    var db := RunEvents(sql, files, Empty(start), events).db;
    forall m | AppliedPrefix(sql, start, files, db, m) ensures m == n {
      PrefixIsUnique(sql, start, files, db, n, m);
    }
  }

  lemma {:induction false} RunKeepsPrefix<S(!new)>(sql: Scripts<S>, start: S, files: seq<Name>, db: Db<S>, n: nat, i: nat, fates: Name -> Fate)
    returns (m: nat)
    requires Distinct(files) && AppliedPrefix(sql, start, files, db, n) && i <= n
    ensures var (db', ok) := RunFrom(sql, db, files, i, fates);
            n <= m && AppliedPrefix(sql, start, files, db', m) && (ok ==> m == |files|)
    decreases |files| - i
  {
    m := n;
    if i < |files| {
      m := FileStep(sql, start, files, db, n, i, fates(files[i]));
      var (db', ok) := RunFile(sql, db, files[i], fates(files[i]));
      if ok { m := RunKeepsPrefix(sql, start, files, db', m, i + 1, fates); }
    }
  }

  lemma ScriptApplied<S>(sql: Scripts<S>, start: S, files: seq<Name>, content: S, i: nat)
    requires i < |files| && Fold(sql, start, files, i) == Some(content)
    requires Fold(sql, start, files, i + 1).Some?
    ensures sql(files[i], content).Some?
  {
  }

  lemma NextScriptApplies<S>(sql: Scripts<S>, start: S, files: seq<Name>, content: S, i: nat)
    requires i < |files| && Fold(sql, start, files, i) == Some(content)
    requires Fold(sql, start, files, |files|).Some?
    ensures sql(files[i], content).Some?
  {
    FoldPrefix(sql, start, files, i + 1);
    ScriptApplied(sql, start, files, content, i);
  }

  lemma FaultlessFile<S(!new)>(sql: Scripts<S>, start: S, files: seq<Name>, db: Db<S>, n: nat, i: nat)
    requires Distinct(files) && AppliedPrefix(sql, start, files, db, n) && i <= n && i < |files|
    requires Fold(sql, start, files, |files|).Some?
    ensures RunFile(sql, db, files[i], Fine).1
  {
    FoldIsMigration(sql, start, files, |files|, i);
    RecordedExactly(files, n, i);
    if i == n {
      NextScriptApplies(sql, start, files, db.content, i);
    }
  }

  /** A run without faults from a prefix succeeds exactly when every script applies in its turn. */
  lemma {:induction false} FaultlessRunSucceedsExactly<S(!new)>(sql: Scripts<S>, start: S, files: seq<Name>, db: Db<S>, n: nat, i: nat)
    requires Distinct(files) && AppliedPrefix(sql, start, files, db, n) && i <= n
    ensures RunFrom(sql, db, files, i, _ => Fine).1 <==> Fold(sql, start, files, |files|).Some?
    decreases |files| - i
  {
    if Fold(sql, start, files, |files|).Some? {
      if i < |files| {
        FaultlessFile(sql, start, files, db, n, i);
        var m := FileStep(sql, start, files, db, n, i, Fine);
        FaultlessRunSucceedsExactly(sql, start, files, RunFile(sql, db, files[i], Fine).0, m, i + 1);
      }
    } else {
      var m := RunKeepsPrefix(sql, start, files, db, n, i, _ => Fine);
    }
  }

  lemma {:induction false} FoldPrefix<S>(sql: Scripts<S>, start: S, files: seq<Name>, n: nat)
    requires n <= |files| && Fold(sql, start, files, |files|).Some?
    ensures Fold(sql, start, files, n).Some?
    decreases |files| - n
  {
    if n < |files| { FoldPrefix(sql, start, files, n + 1); }
  }

  /**
   Any history of runs that overlap, fail, lose their commit or stop, followed by one run
   that reports success, leaves the very database a single run leaves on an empty one; and
   a later run without faults succeeds exactly when that single run does.
   */
  lemma HistoryDoesNotMatter<S(!new)>(sql: Scripts<S>, start: S, files: seq<Name>, events: seq<Event>, fates: Name -> Fate)
    requires Distinct(files)
    ensures var db := RunEvents(sql, files, Empty(start), events).db;
            var once := RunFrom(sql, Db(start, {}), files, 0, _ => Fine);
            && (RunFrom(sql, db, files, 0, fates).1 ==> RunFrom(sql, db, files, 0, fates) == once)
            && RunFrom(sql, db, files, 0, _ => Fine).1 == once.1
  {
    var db := RunEvents(sql, files, Empty(start), events).db;
    assert AppliedPrefix(sql, start, files, Db(start, {}), 0);
    var n := RunnersKeepInv(sql, start, files, Empty(start), 0, events);
    FaultlessRunSucceedsExactly(sql, start, files, db, n, 0);
    FaultlessRunSucceedsExactly(sql, start, files, Db(start, {}), 0, 0);
    var m := RunKeepsPrefix(sql, start, files, db, n, 0, fates);
    var k := RunKeepsPrefix(sql, start, files, Db(start, {}), 0, 0, _ => Fine);
    if RunFrom(sql, db, files, 0, fates).1 {
      assert m == |files|;
      assert k == |files|;
    }
  }

  // ----- the runner -----

  class Database<S> {
    var content: S
    var versions: set<string>

    constructor (start: S)
      ensures content == start && versions == {}
    {
      content := start;
      versions := {};
    }

    function View(): Db<S>
      reads this
    {
      Db(content, versions)
    }

    /** `runMigration`: check, apply and record in one transaction. */
    method RunMigration(sql: Scripts<S>, name: Name, fate: Fate) returns (ok: bool)
      modifies this
      ensures (View(), ok) == RunFile(sql, old(View()), name, fate)
    {
      if !IsMigration(name) || VersionOf(name) == "" {
        return false;
      }
      var version := VersionOf(name);
      if fate == Failed {
        return false;
      }
      if version in versions {
        return fate == Fine;
      }
      var next := sql(name, content);
      if next.None? {
        return false;
      }
      content := next.value;
      versions := versions + {version};
      return fate == Fine;
    }

    /** `RunMigrations` over the directory's migration files, listed in any order. */
    method RunMigrations(sql: Scripts<S>, directory: seq<Name>, fates: Name -> Fate) returns (ok: bool)
      modifies this
      ensures (View(), ok) == RunFrom(sql, old(View()), Sort(directory), 0, fates)
    {
      var files := Sort(directory);
      ghost var before := View();
      for i := 0 to |files|
        invariant RunFrom(sql, View(), files, i, fates) == RunFrom(sql, before, files, 0, fates)
      {
        ok := RunMigration(sql, files[i], fates(files[i]));
        if !ok {
          return false;
        }
      }
      return true;
    }
  }
}
