/** The migration runner (services/svc-file/migrate.go; the other services carry
    copies): each replica goes through the sorted script files, skips applied
    versions, and commits every other script together with its version row.
    The schema is abstract: `apply` says what a script makes of it, if it succeeds. */
module Migrations {
  import opened Prelude

  /** A script file; the version is the number before the first '_' of its name, if
      there is one. */
  datatype Script = Script(name: string, version: Option<int>)

  function Versions(names: seq<Script>): set<int> {
    if names == [] then {}
    else Versions(names[..|names| - 1]) + VersionOf(names[|names| - 1])
  }

  function VersionOf(f: Script): set<int> { if f.version.Some? then {f.version.value} else {} }

  /** The scripts that bring a new version; a repeated version is never run. */
  function Firsts(names: seq<Script>): seq<Script> {
    if names == [] then []
    else
      var n := |names| - 1;
      var f := names[n];
      if f.version.None? || f.version.value in Versions(names[..n]) then Firsts(names[..n])
        else Firsts(names[..n]) + [f]
  }

  /** The version table holding exactly these scripts. */
  function TableOf(log: seq<Script>): map<int, string> {
    if log == [] then map[]
    else
      var n := |log| - 1;
      if log[n].version.Some? then TableOf(log[..n])[log[n].version.value := log[n].name] else TableOf(log[..n])
  }

  /** The schema after running the scripts in order. */
  function Fold<S>(apply: (S, string) -> Option<S>, empty: S, log: seq<Script>): Option<S> {
    if log == [] then Some(empty)
    else
      match Fold(apply, empty, log[..|log| - 1])
      case None => None
      case Some(s) => apply(s, log[|log| - 1].name)
  }

  // -------------------------------------------------------------- replicas

  /** Where a replica is: before looking up script `at`, about to run it in a
      transaction, having run it, or having also inserted its version row. */
  datatype Replica<S> =
    | Stopped
    | Looking(at: nat)
    | Starting(at: nat)
    | Ran(at: nat, result: S)
    | Recorded(at: nat, result: S)
    | Finished

  /** The database, the replicas, and which scripts were committed in which order. */
  datatype State<S> = State(applied: map<int, string>, schema: S, log: seq<Script>, replicas: map<int, Replica<S>>)

  datatype Step = Begin(r: int) | Look(r: int) | Exec(r: int) | Insert(r: int) | Commit(r: int) | Stop(r: int)

  predicate Holds<S>(names: seq<Script>, x: Replica<S>, v: int) {
    x.Recorded? && x.at < |names| && names[x.at].version == Some(v)
  }

  /** One atomic step of a replica. `Stop` is a crash or a failed statement. */
  ghost predicate Does<S(!new)>(names: seq<Script>, apply: (S, string) -> Option<S>, s: State<S>, step: Step,
      t: State<S>) {
    var x := Get(s.replicas, step.r);
    match step
    case Begin(r) =>
      && (x == None || x == Some(Stopped) || x == Some(Finished))
      && t == s.(replicas := s.replicas[r := Looking(0)])
    case Look(r) =>
      && x.Some? && x.value.Looking?
      && var i := x.value.at;
         t == s.(replicas := s.replicas[r :=
           if i >= |names| then Finished
           else if names[i].version.None? then Stopped
           else if names[i].version.value in s.applied then Looking(i + 1)
           else Starting(i)])
    case Exec(r) =>
      && x.Some? && x.value.Starting? && x.value.at < |names|
      && var res := apply(s.schema, names[x.value.at].name);
         t == s.(replicas := s.replicas[r := if res.Some? then Ran(x.value.at, res.value) else Stopped])
    case Insert(r) =>
      // a committed row is a conflict; an uncommitted one makes the insert wait
      && x.Some? && x.value.Ran? && x.value.at < |names| && names[x.value.at].version.Some?
      && var v := names[x.value.at].version.value;
         if v in s.applied then t == s.(replicas := s.replicas[r := Stopped])
         else
           && (forall q :: q in s.replicas ==> !Holds(names, s.replicas[q], v))
           && t == s.(replicas := s.replicas[r := Recorded(x.value.at, x.value.result)])
    case Commit(r) =>
      && x.Some? && x.value.Recorded? && x.value.at < |names| && names[x.value.at].version.Some?
      && var f := names[x.value.at];
         t == State(s.applied[f.version.value := f.name], x.value.result, s.log + [f],
           s.replicas[r := Looking(x.value.at + 1)])
    case Stop(r) =>
      t == s.(replicas := s.replicas[r := Stopped])
  }

  ghost predicate Initial<S(!new)>(empty: S, s: State<S>) {
    s.applied == map[] && s.schema == empty && s.log == [] && s.replicas == map[]
  }

  ghost predicate Follows<S(!new)>(names: seq<Script>, apply: (S, string) -> Option<S>, run: seq<State<S>>,
      steps: seq<Step>, i: nat)
    requires i < |steps| && |run| == |steps| + 1
  {
    Does(names, apply, run[i], steps[i], run[i + 1])
  }

  ghost predicate IsRun<S(!new)>(names: seq<Script>, apply: (S, string) -> Option<S>, empty: S, run: seq<State<S>>,
      steps: seq<Step>) {
    && |run| == |steps| + 1
    && Initial(empty, run[0])
    && forall i :: 0 <= i < |steps| ==> Follows(names, apply, run, steps, i)
  }

  // -------------------------------------------------------------- the invariant

  /** The committed scripts are a prefix of the scripts to run, the version table
      lists exactly them, and the schema is what they build. */
  ghost predicate TableOk<S(!new)>(names: seq<Script>, apply: (S, string) -> Option<S>, empty: S,
      applied: map<int, string>, schema: S, log: seq<Script>) {
    && log <= Firsts(names)
    && applied == TableOf(log)
    && Fold(apply, empty, log) == Some(schema)
  }

  /** All scripts before position `i` are applied. */
  ghost predicate Passed(names: seq<Script>, applied: map<int, string>, i: nat) {
    i <= |names| && Versions(names[..i]) <= applied.Keys && forall j :: 0 <= j < i ==> names[j].version.Some?
  }

  ghost predicate AtScript(names: seq<Script>, applied: map<int, string>, i: nat) {
    i < |names| && Passed(names, applied, i) && names[i].version.Some?
  }

  ghost predicate ReplicaOk<S(!new)>(names: seq<Script>, apply: (S, string) -> Option<S>, s: State<S>, x: Replica<S>) {
    match x
    case Stopped => true
    case Looking(i) => Passed(names, s.applied, i)
    case Starting(i) => AtScript(names, s.applied, i)
    case Ran(i, result) =>
      && AtScript(names, s.applied, i)
      && (names[i].version.value in s.applied || apply(s.schema, names[i].name) == Some(result))
    case Recorded(i, result) =>
      && AtScript(names, s.applied, i)
      && names[i].version.value !in s.applied && apply(s.schema, names[i].name) == Some(result)
    case Finished => Passed(names, s.applied, |names|)
  }

  ghost predicate OneHolder<S(!new)>(names: seq<Script>, s: State<S>) {
    forall q, r, v | q in s.replicas && r in s.replicas && Holds(names, s.replicas[q], v)
      && Holds(names, s.replicas[r], v) ::
      q == r
  }

  ghost predicate Inv<S(!new)>(names: seq<Script>, apply: (S, string) -> Option<S>, empty: S, s: State<S>) {
    && TableOk(names, apply, empty, s.applied, s.schema, s.log)
    && (forall r :: r in s.replicas ==> ReplicaOk(names, apply, s, s.replicas[r]))
    && OneHolder(names, s)
  }

  // ---------------------------------------------------------- facts about lists

  lemma {:induction false} FirstsVersions(names: seq<Script>)
    ensures Versions(Firsts(names)) == Versions(names)
    ensures forall f :: f in Firsts(names) ==> f.version.Some? && f.version.value in Versions(names)
  {
    if names != [] {
      var n := |names| - 1;
      FirstsVersions(names[..n]);
      var f := names[n];
      if f.version.Some? && f.version.value !in Versions(names[..n]) {
        assert Firsts(names)[..|Firsts(names)| - 1] == Firsts(names[..n]);
      }
    }
  }

  lemma FirstVersionAt(names: seq<Script>, k: nat)
    requires k < |Firsts(names)|
    ensures Firsts(names)[k].version.Some? && Firsts(names)[k].version.value in Versions(names)
  {
    FirstsVersions(names);
    assert Firsts(names)[k] in Firsts(names);
  }

  lemma {:induction false} FirstsPrefix(names: seq<Script>, i: nat)
    requires i <= |names|
    ensures Firsts(names[..i]) <= Firsts(names)
    ensures Versions(names[..i]) <= Versions(names)
  {
    if i == |names| {
      assert names[..i] == names;
    } else {
      var n := |names| - 1;
      FirstsPrefix(names[..n], i);
      assert names[..n][..i] == names[..i];
    }
  }

  lemma NextFirst(names: seq<Script>, i: nat)
    requires i < |names| && names[i].version.Some?
    ensures Versions(names[..i + 1]) == Versions(names[..i]) + {names[i].version.value}
    ensures names[i].version.value !in Versions(names[..i]) ==>
              && Firsts(names[..i + 1]) == Firsts(names[..i]) + [names[i]] && Firsts(names[..i + 1]) <= Firsts(names)
  {
    assert names[..i + 1][..i] == names[..i];
    FirstsPrefix(names, i + 1);
  }

  /** Among the scripts to run, each version is new. */
  lemma {:induction false} FirstsDistinct(names: seq<Script>, k: nat)
    requires k < |Firsts(names)|
    ensures Firsts(names)[k].version.Some? && Firsts(names)[k].version.value !in Versions(Firsts(names)[..k])
  {
    var n := |names| - 1;
    var f, before := names[n], Firsts(names[..n]);
    FirstsVersions(names[..n]);
    if k < |before| {
      FirstsDistinct(names[..n], k);
      assert Firsts(names)[..k] == before[..k];
    } else {
      assert Firsts(names)[..k] == before;
    }
  }

  lemma {:induction false} TableKeys(log: seq<Script>)
    ensures TableOf(log).Keys == Versions(log)
  {
    if log != [] { TableKeys(log[..|log| - 1]); }
  }

  lemma {:induction false} VersionInLog(log: seq<Script>, k: nat)
    requires k < |log| && log[k].version.Some?
    ensures log[k].version.value in Versions(log)
  {
    if k < |log| - 1 { VersionInLog(log[..|log| - 1], k); }
  }

  /** A replica that stands before a script not yet applied knows exactly what has
      been committed. */
  lemma CommittedSoFar(names: seq<Script>, log: seq<Script>, i: nat)
    requires log <= Firsts(names) && AtScript(names, TableOf(log), i)
    requires names[i].version.value !in TableOf(log)
    ensures log == Firsts(names[..i]) && log + [names[i]] <= Firsts(names)
  {
    var done := Firsts(names[..i]);
    TableKeys(log);
    NextFirst(names, i);
    if |log| > |done| {
      assert log[|done|] == names[i];
      VersionInLog(log, |done|);
    }
    if |log| < |done| {
      FirstVersionAt(names[..i], |log|);
      assert done[|log|] == Firsts(names)[|log|] && Firsts(names)[..|log|] == log;
      FirstsDistinct(names, |log|);
    }
  }

  /** Two replicas before scripts not yet applied stand before the same one. */
  lemma SamePosition(names: seq<Script>, applied: map<int, string>, i: nat, j: nat)
    requires AtScript(names, applied, i) && AtScript(names, applied, j)
    requires names[i].version.value !in applied && names[j].version.value !in applied
    ensures i == j
  {
    if i < j { VersionInLog(names[..j], i); }
    if j < i { VersionInLog(names[..i], j); }
  }

  // ----------------------------------------------------------- steps keep it

  lemma FoldSnoc<S>(apply: (S, string) -> Option<S>, empty: S, log: seq<Script>, f: Script)
    requires Fold(apply, empty, log).Some?
    ensures Fold(apply, empty, log + [f]) == apply(Fold(apply, empty, log).value, f.name)
  {
    assert (log + [f])[..|log|] == log;
  }

  lemma TableSnoc(log: seq<Script>, f: Script)
    requires f.version.Some?
    ensures TableOf(log + [f]) == TableOf(log)[f.version.value := f.name]
  {
    assert (log + [f])[..|log|] == log;
  }

  /** Committing the script a replica has recorded keeps the table in order. */
  lemma CommitKeepsTable<S(!new)>(names: seq<Script>, apply: (S, string) -> Option<S>, empty: S,
      applied: map<int, string>,
      schema: S, log: seq<Script>, i: nat, result: S)
    requires TableOk(names, apply, empty, applied, schema, log)
    requires AtScript(names, applied, i) && names[i].version.value !in applied
      && apply(schema, names[i].name) == Some(result)
    ensures log == Firsts(names[..i]) && log + [names[i]] == Firsts(names[..i + 1])
    ensures TableOk(names, apply, empty, applied[names[i].version.value := names[i].name], result, log + [names[i]])
    ensures Passed(names, applied[names[i].version.value := names[i].name], i + 1)
  {
    CommittedSoFar(names, log, i);
    FoldSnoc(apply, empty, log, names[i]);
    TableSnoc(log, names[i]);
    NextFirst(names, i);
  }

  lemma LookKeeps<S(!new)>(names: seq<Script>, apply: (S, string) -> Option<S>, empty: S, s: State<S>, step: Step,
      t: State<S>)
    requires Inv(names, apply, empty, s) && step.Look? && Does(names, apply, s, step, t)
    ensures Inv(names, apply, empty, t)
  {
    var i := s.replicas[step.r].at;
    assert ReplicaOk(names, apply, s, s.replicas[step.r]);
    if i < |names| {
      if names[i].version.Some? { NextFirst(names, i); }
    }
    Reposition(names, apply, empty, s, step.r, t);
  }

  /** A step that only moves one replica, not into `Recorded`, keeps the invariant
      if the new position is right. */
  lemma Reposition<S(!new)>(names: seq<Script>, apply: (S, string) -> Option<S>, empty: S, s: State<S>, r: int,
      t: State<S>)
    requires Inv(names, apply, empty, s) && r in t.replicas && t == s.(replicas := s.replicas[r := t.replicas[r]])
    requires ReplicaOk(names, apply, s, t.replicas[r])
    requires t.replicas[r].Recorded? ==> forall q :: q in s.replicas ==>
      !Holds(names, s.replicas[q], names[t.replicas[r].at].version.value)
    ensures Inv(names, apply, empty, t)
  {
    forall q | q in t.replicas ensures ReplicaOk(names, apply, t, t.replicas[q]) {
      if q != r { assert ReplicaOk(names, apply, s, s.replicas[q]); }
    }
  }

  lemma CommitKeeps<S(!new)>(names: seq<Script>, apply: (S, string) -> Option<S>, empty: S, s: State<S>, step: Step,
      t: State<S>)
    requires Inv(names, apply, empty, s) && step.Commit? && Does(names, apply, s, step, t)
    ensures Inv(names, apply, empty, t)
  {
    hide TableOk, TableOf, Firsts, Fold, Versions, Passed, Holds, OneHolder;
    var x := s.replicas[step.r];
    var i := x.at;
    assert ReplicaOk(names, apply, s, x);
    CommitKeepsTable(names, apply, empty, s.applied, s.schema, s.log, i, x.result);
    forall q | q in t.replicas ensures ReplicaOk(names, apply, t, t.replicas[q]) {
      if q != step.r {
        assert ReplicaOk(names, apply, s, s.replicas[q]);
        OthersAfterCommit(names, apply, s, step.r, q, t);
      }
    }
    HoldersAfterMove(names, s, step.r, t);
  }

  lemma HoldersAfterMove<S(!new)>(names: seq<Script>, s: State<S>, r: int, t: State<S>)
    requires OneHolder(names, s) && r in t.replicas && !t.replicas[r].Recorded?
    requires t.replicas == s.replicas[r := t.replicas[r]]
    ensures OneHolder(names, t)
  {
    forall p, q, v | p in t.replicas && q in t.replicas && Holds(names, t.replicas[p], v)
      && Holds(names, t.replicas[q], v)
      ensures p == q
    {
      assert Holds(names, s.replicas[p], v) && Holds(names, s.replicas[q], v);
    }
  }

  /** Another replica before the committed script finds it applied; one that has
      recorded a script cannot exist. */
  lemma OthersAfterCommit<S(!new)>(names: seq<Script>, apply: (S, string) -> Option<S>, s: State<S>, r: int, q: int,
      t: State<S>)
    requires q != r && q in s.replicas && Does(names, apply, s, Commit(r), t) && OneHolder(names, s)
    requires ReplicaOk(names, apply, s, s.replicas[q]) && ReplicaOk(names, apply, s, s.replicas[r])
    ensures ReplicaOk(names, apply, t, s.replicas[q])
  {
    var i, y := s.replicas[r].at, s.replicas[q];
    assert Holds(names, s.replicas[r], names[i].version.value);
    if (y.Ran? || y.Recorded?) && names[y.at].version.value !in s.applied {
      assert y.Recorded? ==> Holds(names, y, names[y.at].version.value);
      SamePosition(names, s.applied, i, y.at);
    }
  }

  lemma StepKeepsInv<S(!new)>(names: seq<Script>, apply: (S, string) -> Option<S>, empty: S, s: State<S>, step: Step,
      t: State<S>)
    requires Inv(names, apply, empty, s) && Does(names, apply, s, step, t)
    ensures Inv(names, apply, empty, t)
  {
    match step
    case Look(r) => LookKeeps(names, apply, empty, s, step, t);
    case Commit(r) => CommitKeeps(names, apply, empty, s, step, t);
    case Begin(r) => Reposition(names, apply, empty, s, r, t);
    case Stop(r) => Reposition(names, apply, empty, s, r, t);
    case Exec(r) =>
      assert ReplicaOk(names, apply, s, s.replicas[r]);
      Reposition(names, apply, empty, s, r, t);
    case Insert(r) =>
      assert ReplicaOk(names, apply, s, s.replicas[r]);
      Reposition(names, apply, empty, s, r, t);
  }

  lemma {:induction false} ReachableInv<S(!new)>(names: seq<Script>, apply: (S, string) -> Option<S>, empty: S,
      run: seq<State<S>>, steps: seq<Step>, i: nat)
    requires IsRun(names, apply, empty, run, steps) && i <= |steps|
    ensures Inv(names, apply, empty, run[i])
  {
    if i > 0 {
      ReachableInv(names, apply, empty, run, steps, i - 1);
      assert Follows(names, apply, run, steps, i - 1);
      StepKeepsInv(names, apply, empty, run[i - 1], steps[i - 1], run[i]);
    }
  }

  /** Over every run of any number of replicas stopped anywhere: the committed
      scripts are a prefix of the scripts to run, so none is committed twice; the
      schema is exactly what they build; and once a replica has finished, all of
      them are committed. */
  lemma ExactlyOnce<S(!new)>(names: seq<Script>, apply: (S, string) -> Option<S>, empty: S, run: seq<State<S>>,
      steps: seq<Step>, i: nat)
    requires IsRun(names, apply, empty, run, steps) && i <= |steps|
    ensures run[i].log <= Firsts(names) && run[i].applied == TableOf(run[i].log)
    ensures Fold(apply, empty, run[i].log) == Some(run[i].schema)
    ensures forall j, k :: 0 <= j < k < |run[i].log| ==> run[i].log[j].version != run[i].log[k].version
    ensures forall r :: r in run[i].replicas && run[i].replicas[r] == Finished ==> run[i].log == Firsts(names)
  {
    ReachableInv(names, apply, empty, run, steps, i);
    var s := run[i];
    forall j, k | 0 <= j < k < |s.log| ensures s.log[j].version != s.log[k].version {
      FirstsDistinct(names, k);
      FirstsDistinct(names, j);
      assert Firsts(names)[..k] == s.log[..k];
      VersionInLog(s.log[..k], j);
    }
    forall r | r in s.replicas && s.replicas[r] == Finished ensures s.log == Firsts(names) {
      assert ReplicaOk(names, apply, s, s.replicas[r]);
      AllPassed(names, s.log);
    }
  }

  lemma AllPassed(names: seq<Script>, log: seq<Script>)
    requires log <= Firsts(names) && Passed(names, TableOf(log), |names|)
    ensures log == Firsts(names)
  {
    TableKeys(log);
    assert names[..|names|] == names;
    if |log| < |Firsts(names)| {
      FirstVersionAt(names, |log|);
      assert Firsts(names)[..|log|] == log;
      FirstsDistinct(names, |log|);
    }
  }

  /** Every script is one to run exactly when each has a version of its own: of two
      scripts that share a version, the later is silently skipped. */
  lemma EveryScriptRunsIff(names: seq<Script>)
    ensures Firsts(names) == names <==>
            && (forall i :: 0 <= i < |names| ==> names[i].version.Some?)
            && (forall i, j :: 0 <= i < j < |names| ==> names[i].version != names[j].version)
    ensures |Firsts(names)| <= |names|
  {
    AllRunIff(names);
    hide Firsts;
    if AllNew(names) {
      forall i | 0 <= i < |names| ensures names[i].version.Some? { assert IsNew(names, i); }
      forall i, j | 0 <= i < j < |names| ensures names[i].version != names[j].version { assert IsNew(names, j); }
    }
  }

  ghost predicate AllNew(names: seq<Script>) { forall i :: 0 <= i < |names| ==> IsNew(names, i) }

  lemma {:induction false} AllRunIff(names: seq<Script>)
    ensures Firsts(names) == names <==> AllNew(names)
    ensures |Firsts(names)| <= |names|
  {
    hide *;
    NoneNew();
    if names != [] {
      var n := |names| - 1;
      AllRunIff(names[..n]);
      LastRunsIff(names);
      AllNewSnoc(names);
      SnocEqual(Firsts(names[..n]), names, IsNew(names, n));
    } else {
      AllNewOfNone();
    }
  }

  lemma AllNewOfNone()
    ensures AllNew([])
  {}

  lemma AllNewSnoc(names: seq<Script>)
    requires names != []
    ensures AllNew(names) <==> AllNew(names[..|names| - 1]) && IsNew(names, |names| - 1)
  {
    var n := |names| - 1;
    forall i | 0 <= i < n ensures IsNew(names, i) <==> IsNew(names[..n], i) {}
    hide IsNew;
  }

  lemma SnocEqual(before: seq<Script>, names: seq<Script>, isNew: bool)
    requires names != [] && |before| <= |names| - 1
    ensures var n := |names| - 1;
            before + (if isNew then [names[n]] else []) == names <==> before == names[..n] && isNew
  {
    var n := |names| - 1;
    assert names == names[..n] + [names[n]];
    if before + [names[n]] == names { assert (before + [names[n]])[..|before|] == before; }
  }

  /** The script at position `i` brings a version that no earlier script has. */
  ghost predicate IsNew(names: seq<Script>, i: nat)
    requires i < |names|
  {
    names[i].version.Some? && forall j :: 0 <= j < i ==> names[j].version != names[i].version
  }

  /** `firsts` are, in order, the scripts at the positions `at`, which are those of the
      scripts that bring a new version. */
  ghost predicate AreNew(names: seq<Script>, at: seq<nat>, firsts: seq<Script>) {
    && |at| == |firsts|
    && (forall k :: 0 <= k < |at| ==> at[k] < |names| && firsts[k] == names[at[k]])
    && (forall k, l :: 0 <= k < l < |at| ==> at[k] < at[l])
    && (forall i :: 0 <= i < |names| ==> (i in at <==> IsNew(names, i)))
  }

  /** Which scripts run, by position and in order: those that bring a new version. */
  lemma {:induction false} FirstsAre(names: seq<Script>) returns (at: seq<nat>)
    ensures AreNew(names, at, Firsts(names))
  {
    hide *;
    at := [];
    NoneNew();
    if names != [] {
      var n := |names| - 1;
      at := FirstsAre(names[..n]);
      LastRunsIff(names);
      OneMoreNew(names, at, Firsts(names[..n]));
      if IsNew(names, n) {
        at := at + [n];
      } else {
        assert Firsts(names[..n]) + [] == Firsts(names[..n]);
      }
    }
  }

  lemma NoneNew()
    ensures AreNew([], [], Firsts([]))
  {}

  lemma OneMoreNew(names: seq<Script>, at: seq<nat>, firsts: seq<Script>)
    requires names != [] && AreNew(names[..|names| - 1], at, firsts)
    ensures var n := |names| - 1;
            if IsNew(names, n) then AreNew(names, at + [n], firsts + [names[n]]) else AreNew(names, at, firsts)
  {
    var n := |names| - 1;
    forall i | 0 <= i < n ensures IsNew(names, i) <==> IsNew(names[..n], i) {}
    hide IsNew;
    forall i: nat ensures i in at + [n] <==> i in at || i == n {}
    forall i: nat | i in at ensures i < n {}
  }

  lemma LastRunsIff(names: seq<Script>)
    requires names != []
    ensures var n := |names| - 1;
            Firsts(names) == Firsts(names[..n]) + if IsNew(names, n) then [names[n]] else []
  {
    if names[|names| - 1].version.Some? { LastIsNewIff(names); }
  }

  lemma LastIsNewIff(names: seq<Script>)
    requires names != [] && names[|names| - 1].version.Some?
    ensures var n := |names| - 1;
            names[n].version.value in Versions(names[..n]) <==>
              exists i :: 0 <= i < n && names[i].version == names[n].version
  {
    var n := |names| - 1;
    VersionsAre(names[..n], names[n].version.value);
  }

  lemma {:induction false} VersionsAre(names: seq<Script>, v: int)
    ensures v in Versions(names) <==> exists i :: 0 <= i < |names| && names[i].version == Some(v)
  {
    if names != [] {
      var n := |names| - 1;
      VersionsAre(names[..n], v);
      if v in Versions(names[..n]) {
        var i :| 0 <= i < n && names[..n][i].version == Some(v);
        assert names[i].version == Some(v);
      }
    }
  }

  /** Versions once applied stay applied. */
  lemma {:induction false} AppliedForever<S(!new)>(names: seq<Script>, apply: (S, string) -> Option<S>, empty: S,
      run: seq<State<S>>, steps: seq<Step>, i: nat, j: nat)
    requires IsRun(names, apply, empty, run, steps) && i <= j <= |steps|
    ensures run[i].log <= run[j].log
  {
    if i < j {
      AppliedForever(names, apply, empty, run, steps, i, j - 1);
      assert Follows(names, apply, run, steps, j - 1);
    }
  }

  // ---------------------------------------------------------------- a whole run

  lemma ExtendRun<S(!new)>(names: seq<Script>, apply: (S, string) -> Option<S>, empty: S, run: seq<State<S>>,
      steps: seq<Step>, step: Step, t: State<S>)
    requires IsRun(names, apply, empty, run, steps) && Does(names, apply, run[|steps|], step, t)
    ensures IsRun(names, apply, empty, run + [t], steps + [step])
  {
    var run', steps' := run + [t], steps + [step];
    hide Does;
    forall i | 0 <= i < |steps'| ensures Follows(names, apply, run', steps', i) {
      if i < |steps| {
        assert Follows(names, apply, run, steps, i);
        assert run'[i] == run[i] && run'[i + 1] == run[i + 1] && steps'[i] == steps[i];
      }
    }
  }

  /** The state of replica 0 alone, before script `i`, with the scripts before it committed. */
  ghost predicate Before<S(!new)>(names: seq<Script>, s: State<S>, i: nat) {
    i <= |names| && s.replicas == map[0 := Looking(i)] && s.log == Firsts(names[..i])
  }

  /** From there one script: looked up, and run, recorded and committed if its version is
      new. */
  lemma OneScript<S(!new)>(names: seq<Script>, apply: (S, string) -> Option<S>, empty: S, run: seq<State<S>>,
      steps: seq<Step>, i: nat)
      returns (run': seq<State<S>>, steps': seq<Step>)
    requires IsRun(names, apply, empty, run, steps) && i < |names| && Before(names, run[|steps|], i)
    requires names[i].version.Some? && Fold(apply, empty, Firsts(names[..i + 1])).Some?
    ensures IsRun(names, apply, empty, run', steps') && Before(names, run'[|steps'|], i + 1)
  {
    hide *;
    Lengths(names, apply, empty, run, steps);
    var s := run[|steps|];
    KnowsApplied(names, apply, empty, run, steps, i);
    var looked := Looks(names, apply, s, i);
    ExtendRun(names, apply, empty, run, steps, Look(0), looked);
    run', steps' := run + [looked], steps + [Look(0)];
    if names[i].version.value !in s.applied {
      run', steps' := RunsFresh(names, apply, empty, run', steps', i, apply(s.schema, names[i].name).value);
    } else {
      NowBefore(names, looked, i + 1);
    }
  }

  lemma NowBefore<S(!new)>(names: seq<Script>, s: State<S>, i: nat)
    requires i <= |names| && s.replicas == map[0 := Looking(i)] && s.log == Firsts(names[..i])
    ensures Before(names, s, i)
  {}

  lemma Looks<S(!new)>(names: seq<Script>, apply: (S, string) -> Option<S>, s: State<S>, i: nat)
      returns (t: State<S>)
    requires i < |names| && Before(names, s, i) && names[i].version.Some?
    ensures Does(names, apply, s, Look(0), t)
    ensures t == s.(replicas := map[0 := if names[i].version.value in s.applied then Looking(i + 1) else Starting(i)])
  {
    hide Firsts;
    t := s.(replicas := map[0 := if names[i].version.value in s.applied then Looking(i + 1) else Starting(i)]);
    assert t.replicas == s.replicas[0 := t.replicas[0]];
  }

  /** The version table tells whether the next script is one to run. */
  lemma KnowsApplied<S(!new)>(names: seq<Script>, apply: (S, string) -> Option<S>, empty: S, run: seq<State<S>>,
      steps: seq<Step>, i: nat)
    requires IsRun(names, apply, empty, run, steps) && i < |names| && Before(names, run[|steps|], i)
    requires names[i].version.Some? && Fold(apply, empty, Firsts(names[..i + 1])).Some?
    ensures var s := run[|steps|];
            if names[i].version.value in s.applied then Firsts(names[..i + 1]) == s.log
            else Firsts(names[..i + 1]) == s.log + [names[i]] && apply(s.schema, names[i].name).Some?
  {
    var s, f := run[|steps|], names[i];
    ReachableInv(names, apply, empty, run, steps, |steps|);
    NextFirst(names, i);
    FirstsVersions(names[..i]);
    TableKeys(s.log);
    if f.version.value in s.applied {
      SameFirsts(names, i);
    } else {
      FoldSnoc(apply, empty, s.log, f);
    }
  }

  lemma SameFirsts(names: seq<Script>, i: nat)
    requires i < |names| && names[i].version.Some? && names[i].version.value in Versions(names[..i])
    ensures Firsts(names[..i + 1]) == Firsts(names[..i])
  {
    assert names[..i + 1][..i] == names[..i];
  }

  lemma RunsFresh<S(!new)>(names: seq<Script>, apply: (S, string) -> Option<S>, empty: S, run: seq<State<S>>,
      steps: seq<Step>, i: nat, result: S)
      returns (run': seq<State<S>>, steps': seq<Step>)
    requires IsRun(names, apply, empty, run, steps) && i < |names| && names[i].version.Some?
    requires var s := run[|steps|];
             && s.replicas == map[0 := Starting(i)] && names[i].version.value !in s.applied
             && apply(s.schema, names[i].name) == Some(result) && s.log + [names[i]] == Firsts(names[..i + 1])
    ensures IsRun(names, apply, empty, run', steps') && Before(names, run'[|steps'|], i + 1)
  {
    var s, f := run[|steps|], names[i];
    hide IsRun, Firsts;
    var ran := s.(replicas := s.replicas[0 := Ran(i, result)]);
    var recorded := s.(replicas := s.replicas[0 := Recorded(i, result)]);
    var done := State(s.applied[f.version.value := f.name], result, s.log + [f], s.replicas[0 := Looking(i + 1)]);
    Lengths(names, apply, empty, run, steps);
    ExtendRun(names, apply, empty, run, steps, Exec(0), ran);
    run', steps' := run + [ran], steps + [Exec(0)];
    ExtendRun(names, apply, empty, run', steps', Insert(0), recorded);
    run', steps' := run' + [recorded], steps' + [Insert(0)];
    ExtendRun(names, apply, empty, run', steps', Commit(0), done);
    run', steps' := run' + [done], steps' + [Commit(0)];
  }

  lemma Lengths<S(!new)>(names: seq<Script>, apply: (S, string) -> Option<S>, empty: S, run: seq<State<S>>,
      steps: seq<Step>)
    requires IsRun(names, apply, empty, run, steps)
    ensures |run| == |steps| + 1
  {}

  lemma {:induction false} RunsUpTo<S(!new)>(names: seq<Script>, apply: (S, string) -> Option<S>, empty: S, i: nat)
      returns (run: seq<State<S>>, steps: seq<Step>)
    requires i <= |names| && forall j :: 0 <= j < |names| ==> names[j].version.Some?
    requires forall j :: 0 <= j <= |names| ==> Fold(apply, empty, Firsts(names[..j])).Some?
    ensures IsRun(names, apply, empty, run, steps) && Before(names, run[|steps|], i)
  {
    if i == 0 {
      var s0: State<S> := State(map[], empty, [], map[]);
      var s1 := s0.(replicas := map[0 := Looking(0)]);
      ExtendRun(names, apply, empty, [s0], [], Begin(0), s1);
      run, steps := [s0] + [s1], [] + [Begin(0)];
    } else {
      run, steps := RunsUpTo(names, apply, empty, i - 1);
      hide IsRun, Before;
      run, steps := OneScript(names, apply, empty, run, steps, i - 1);
    }
  }

  /** The protocol can be run to its end: when all versions can be read and no script fails,
      some run ends with a finished replica and all scripts committed. */
  lemma CanFinish<S(!new)>(names: seq<Script>, apply: (S, string) -> Option<S>, empty: S)
      returns (run: seq<State<S>>, steps: seq<Step>)
    requires forall j :: 0 <= j < |names| ==> names[j].version.Some?
    requires forall j :: 0 <= j <= |names| ==> Fold(apply, empty, Firsts(names[..j])).Some?
    ensures IsRun(names, apply, empty, run, steps)
    ensures run[|steps|].replicas == map[0 := Finished] && run[|steps|].log == Firsts(names)
  {
    run, steps := RunsUpTo(names, apply, empty, |names|);
    var s := run[|steps|];
    var done := s.(replicas := s.replicas[0 := Finished]);
    assert names[..|names|] == names;
    hide IsRun, Firsts;
    Lengths(names, apply, empty, run, steps);
    ExtendRun(names, apply, empty, run, steps, Look(0), done);
    run, steps := run + [done], steps + [Look(0)];
  }

  // --------------------------------------------------------------- the runner

  datatype Outcome = Done | Failed(at: nat)

  /** One replica that runs alone. `ok` says which of its statements reach the
      database: the lookup, the transaction begin, the insert and the commit. */
  class Runner<S(!new)> {
    var applied: map<int, string>
    var schema: S
    ghost var log: seq<Script>

    ghost predicate Valid(names: seq<Script>, apply: (S, string) -> Option<S>, empty: S)
      reads this
    {
      TableOk(names, apply, empty, applied, schema, log)
    }

    constructor (empty: S)
      ensures applied == map[] && schema == empty && log == []
    {
      applied, schema, log := map[], empty, [];
    }

    /** Success means that all scripts are committed; a failure at script `at` means
        exactly those before it are, or more if more were before. */
    method RunMigrations(names: seq<Script>, apply: (S, string) -> Option<S>, ghost empty: S, ok: (nat, nat) -> bool)
        returns (r: Outcome)
      requires Valid(names, apply, empty)
      modifies this
      ensures Valid(names, apply, empty)
      ensures old(log) <= log
      ensures r.Done? ==> log == Firsts(names) && forall i :: 0 <= i < |names| ==> names[i].version.Some?
      ensures r.Failed? ==>
        r.at < |names| && Firsts(names[..r.at]) <= log && (log == old(log) || log == Firsts(names[..r.at]))
      ensures r.Failed? ==>
                || names[r.at].version.None?
                || (exists q :: 0 <= q < 4 && !ok(r.at, q))
                || (names[r.at].version.value !in applied && apply(schema, names[r.at].name) == None)
    {
      var i := 0;
      hide TableOf, Firsts, Fold, Versions;
      assert Passed(names, applied, 0) by { NothingBefore(names); }
      while i < |names|
        invariant i <= |names| && Valid(names, apply, empty) && Passed(names, applied, i)
        invariant old(log) <= log
        invariant log == old(log) || log == Firsts(names[..i])
      {
        var f := names[i];
        CommittedBefore(names, log, i);
        if f.version.None? || !ok(i, 0) {
          return Failed(i);
        }
        if f.version.value !in applied {
          if !ok(i, 1) {
            return Failed(i);
          }
          var result := apply(schema, f.name);
          if result.None? || !ok(i, 2) || !ok(i, 3) {
            return Failed(i);
          }
          CommitKeepsTable(names, apply, empty, applied, schema, log, i, result.value);
          applied, schema, log := applied[f.version.value := f.name], result.value, log + [f];
        } else {
          SkipKeeps(names, log, i);
        }
        i := i + 1;
      }
      AllPassed(names, log);
      return Done;
    }
  }

  lemma NothingBefore(names: seq<Script>)
    ensures Versions(names[..0]) == {} && Firsts(names[..0]) == []
  {
  }

  lemma SkipKeeps(names: seq<Script>, log: seq<Script>, i: nat)
    requires log <= Firsts(names) && AtScript(names, TableOf(log), i) && names[i].version.value in TableOf(log)
    ensures Passed(names, TableOf(log), i + 1)
    ensures log == Firsts(names[..i]) ==> log == Firsts(names[..i + 1])
  {
    TableKeys(log);
    NextFirst(names, i);
    FirstsVersions(names[..i]);
    assert names[..i + 1][..i] == names[..i];
  }

  lemma CommittedBefore(names: seq<Script>, log: seq<Script>, i: nat)
    requires log <= Firsts(names) && Passed(names, TableOf(log), i)
    ensures Firsts(names[..i]) <= log
  {
    TableKeys(log);
    FirstsPrefix(names, i);
    if |log| < |Firsts(names[..i])| {
      FirstVersionAt(names[..i], |log|);
      assert Firsts(names)[..|log|] == log;
      FirstsDistinct(names, |log|);
    }
  }
}
