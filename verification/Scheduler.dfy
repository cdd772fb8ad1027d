/** The cron scheduler of svc-jobs: one instance, any readings of its own clock and
    any stamps of the database's (services/svc-jobs/worker.go, runSchedules). */
module Scheduler {
  import opened Prelude

  /** Times are in nanoseconds. */
  const SECOND: int := 1_000_000_000
  const MINUTE: int := 60 * SECOND

  /** The activation instant after a time; None where the library finds none, which
      it says with its zero time. */
  type Cron = int -> Option<int>

  /** An expression with instants of its own: what is found is the least after t. */
  ghost predicate IsCron(next: Cron) {
    forall t :: next(t).Some? ==> next(t).value > t && forall u :: t <= u < next(t).value ==> next(u) == next(t)
  }

  /** `@every` has none: it counts from the whole second of the time it is given. */
  function Every(delay: int): Cron {
    (t: int) => Some(t - t % SECOND + delay)
  }

  /** Activation instants in (a, b]. */
  ghost function Instants(next: Cron, a: int, b: int): set<int> {
    set t | a < t <= b && next(t - 1) == Some(t)
  }

  lemma InstantsGrow(next: Cron, a: int, b: int, c: int)
    requires b <= c
    ensures |Instants(next, a, b)| <= |Instants(next, a, c)|
  {
    assert Instants(next, a, b) <= Instants(next, a, c);
    SubsetSize(Instants(next, a, b), Instants(next, a, c));
  }

  /** One more instant beyond all those counted. */
  lemma OneMoreInstant(next: Cron, a: int, b: int, t: int, c: int)
    requires a < c && b < c && next(t) == Some(c) && IsCron(next)
    ensures |Instants(next, a, b)| + 1 <= |Instants(next, a, c)|
  {
    assert next(c - 1) == Some(c);
    assert Instants(next, a, b) + {c} <= Instants(next, a, c);
    SubsetSize(Instants(next, a, b) + {c}, Instants(next, a, c));
  }

  // ------------------------------------------------------------------- one schedule

  /** A schedule row, with a history: the jobs derived from it so far. */
  datatype Schedule = Schedule(created: int, lastRun: Option<int>, enabled: bool, fired: nat)

  function Base(s: Schedule): int {
    match s.lastRun case None => s.created case Some(t) => t
  }

  /** Not after the reading; the zero time never is. */
  predicate NotAfter(instant: Option<int>, now: int) { instant.None? || instant.value <= now }

  predicate Due(next: Cron, s: Schedule, now: int) { s.enabled && NotAfter(next(Base(s)), now) }

  /** A due schedule derives one job and is stamped with the database's clock. */
  function Ticked(next: Cron, s: Schedule, now: int, stamp: int): Schedule {
    if Due(next, s, now) then s.(lastRun := Some(stamp), fired := s.fired + 1) else s
  }

  datatype Event = Tick(now: int, stamp: int) | Enable | Disable

  function Apply(next: Cron, s: Schedule, e: Event): Schedule {
    match e
    case Tick(now, stamp) => Ticked(next, s, now, stamp)
    case Enable => s.(enabled := true)
    case Disable => s.(enabled := false)
  }

  function Play(next: Cron, created: int, events: seq<Event>): Schedule {
    if events == [] then Schedule(created, None, true, 0)
    else Apply(next, Play(next, created, events[..|events| - 1]), events[|events| - 1])
  }

  // ------------------------------------------------------------------- its firings

  /** One derived job: the instant it stands for, if any, the scheduler's reading when
      it was decided, and the database's stamp. The two clocks need not agree. */
  datatype Firing = Firing(instant: Option<int>, decided: int, stamp: int)

  function Firings(next: Cron, created: int, events: seq<Event>): seq<Firing> {
    if events == [] then []
    else
      var n := |events| - 1;
      var s, before := Play(next, created, events[..n]), Firings(next, created, events[..n]);
      match events[n]
      case Tick(now, stamp) => if Due(next, s, now) then before + [Firing(next(Base(s)), now, stamp)] else before
      case _ => before
  }

  /** From where the search for the i-th firing's instant starts. */
  function BaseOf(created: int, fs: seq<Firing>, i: nat): int
    requires i <= |fs|
  {
    if i == 0 then created else fs[i - 1].stamp
  }

  predicate StandsFor(f: Firing, instant: Option<int>) { f.instant == instant && NotAfter(instant, f.decided) }

  /** Each firing stands for the first instant after the stamp of the one before it,
      and was decided at or after that instant. */
  ghost predicate Chained(next: Cron, created: int, fs: seq<Firing>) {
    forall i :: 0 <= i < |fs| ==> StandsFor(fs[i], next(BaseOf(created, fs, i)))
  }

  lemma ChainedSnoc(next: Cron, created: int, fs: seq<Firing>, f: Firing)
    requires Chained(next, created, fs) && StandsFor(f, next(BaseOf(created, fs, |fs|)))
    ensures Chained(next, created, fs + [f]) && BaseOf(created, fs + [f], |fs| + 1) == f.stamp
  {
    var gs := fs + [f];
    forall i | 0 <= i < |gs| ensures StandsFor(gs[i], next(BaseOf(created, gs, i))) {
      BaseOfPrefix(created, fs, gs, i);
      if i < |fs| { assert gs[i] == fs[i]; }
    }
  }

  lemma BaseOfPrefix(created: int, fs: seq<Firing>, gs: seq<Firing>, i: nat)
    requires fs <= gs && i <= |fs|
    ensures BaseOf(created, fs, i) == BaseOf(created, gs, i)
  {}

  lemma ChainedPrefix(next: Cron, created: int, fs: seq<Firing>, n: nat)
    requires Chained(next, created, fs) && n <= |fs|
    ensures Chained(next, created, fs[..n])
  {
    forall i | 0 <= i < n ensures BaseOf(created, fs[..n], i) == BaseOf(created, fs, i) {
      BaseOfPrefix(created, fs[..n], fs, i);
    }
  }

  /** A schedule's jobs are its firings. */
  lemma {:induction false} FiringsAre(next: Cron, created: int, events: seq<Event>)
    ensures var s, fs := Play(next, created, events), Firings(next, created, events);
            && s.fired == |fs| && s.created == created && Base(s) == BaseOf(created, fs, |fs|)
            && Chained(next, created, fs)
  {
    if events != [] {
      var n := |events| - 1;
      FiringsAre(next, created, events[..n]);
      var s, fs := Play(next, created, events[..n]), Firings(next, created, events[..n]);
      hide Chained;
      if events[n].Tick? && Due(next, s, events[n].now) {
        var f := Firing(next(Base(s)), events[n].now, events[n].stamp);
        ChainedSnoc(next, created, fs, f);
        assert Firings(next, created, events) == fs + [f];
      }
    }
  }

  /** Stands for an instant, and is stamped at or after it. */
  predicate Reaches(f: Firing) { f.instant.Some? && f.instant.value <= f.stamp }

  ghost predicate AllHaveInstants(fs: seq<Firing>) { forall i :: 0 <= i < |fs| ==> fs[i].instant.Some? }

  /** Each firing stands for an instant, and is stamped at or after it unless last. */
  ghost predicate Reached(fs: seq<Firing>) {
    AllHaveInstants(fs) && forall i :: 0 <= i < |fs| - 1 ==> Reaches(fs[i])
  }

  ghost predicate Increasing(fs: seq<Firing>) {
    AllHaveInstants(fs) && forall i, j :: 0 <= i < j < |fs| ==> fs[i].instant.value < fs[j].instant.value
  }

  ghost predicate Distinct(fs: seq<Firing>) {
    AllHaveInstants(fs) && forall i, j :: 0 <= i < j < |fs| ==> fs[i].instant != fs[j].instant
  }

  /** The database's clock does not run backwards. */
  ghost predicate StampsAscend(created: int, fs: seq<Firing>) {
    forall i :: 0 <= i < |fs| ==> BaseOf(created, fs, i) <= fs[i].stamp
  }

  lemma {:induction false} ReachIncreases(created: int, next: Cron, fs: seq<Firing>, i: nat, j: nat)
    requires IsCron(next) && i < j < |fs| && Reached(fs) && Chained(next, created, fs)
    ensures fs[i].instant.value < fs[j].instant.value
    decreases j
  {
    hide IsCron, Chained;
    if i < j - 1 { ReachIncreases(created, next, fs, i, j - 1); }
    NextIsLater(created, next, fs, j);
  }

  lemma NextIsLater(created: int, next: Cron, fs: seq<Firing>, j: nat)
    requires IsCron(next) && 0 < j < |fs| && Reached(fs) && Chained(next, created, fs)
    ensures fs[j - 1].instant.value < fs[j].instant.value
  {
    assert Reaches(fs[j - 1]) && fs[j].instant == next(fs[j - 1].stamp);
  }

  /** Over every run, whatever the two clocks read: successive firings are for later
      and later instants exactly when there is an instant for each and each of them
      but the last is stamped at or after its own. */
  lemma IncreasingIffReached(next: Cron, created: int, events: seq<Event>)
    requires IsCron(next)
    ensures Increasing(Firings(next, created, events)) <==> Reached(Firings(next, created, events))
  {
    var fs := Firings(next, created, events);
    FiringsAre(next, created, events);
    if Reached(fs) {
      forall i, j | 0 <= i < j < |fs| ensures fs[i].instant.value < fs[j].instant.value {
        ReachIncreases(created, next, fs, i, j);
      }
    }
    if Increasing(fs) {
      forall i | 0 <= i < |fs| - 1 ensures Reaches(fs[i]) {
        assert fs[i].instant.value < fs[i + 1].instant.value && fs[i + 1].instant == next(fs[i].stamp);
        if !Reaches(fs[i]) { InstantAgain(next, created, fs, i); }
      }
    }
  }

  /** After a stamp before the instant the next firing is not for a later one. */
  lemma InstantAgain(next: Cron, created: int, fs: seq<Firing>, i: nat)
    requires IsCron(next) && i + 1 < |fs| && Chained(next, created, fs) && AllHaveInstants(fs) && !Reaches(fs[i])
    ensures fs[i + 1].instant.value <= fs[i].instant.value
    ensures BaseOf(created, fs, i) <= fs[i].stamp ==> fs[i + 1].instant == fs[i].instant
  {
    var base := BaseOf(created, fs, i);
    assert fs[i + 1].instant == next(fs[i].stamp) && fs[i].instant == next(base);
  }

  /** While the database's clock does not run backwards, that is also exactly when
      no instant is fired for twice. */
  lemma DistinctIffReached(next: Cron, created: int, events: seq<Event>)
    requires IsCron(next) && StampsAscend(created, Firings(next, created, events))
    ensures Distinct(Firings(next, created, events)) <==> Reached(Firings(next, created, events))
  {
    var fs := Firings(next, created, events);
    FiringsAre(next, created, events);
    IncreasingIffReached(next, created, events);
    if Distinct(fs) {
      forall i | 0 <= i < |fs| - 1 ensures Reaches(fs[i]) {
        assert fs[i].instant != fs[i + 1].instant && BaseOf(created, fs, i) <= fs[i].stamp;
        if !Reaches(fs[i]) { InstantAgain(next, created, fs, i); }
      }
    }
  }

  lemma {:induction false} CountsInstants(next: Cron, created: int, fs: seq<Firing>)
    requires IsCron(next) && fs != [] && Increasing(fs) && Chained(next, created, fs) && Reached(fs)
    ensures created < fs[|fs| - 1].instant.value
    ensures |fs| <= |Instants(next, created, fs[|fs| - 1].instant.value)|
  {
    var n := |fs| - 1;
    assert fs[n].instant == next(BaseOf(created, fs, n));
    if n == 0 {
      assert next(created).value > created;
      hide *;
      OneMoreInstant(next, created, created, created, fs[0].instant.value);
    } else {
      ChainedPrefix(next, created, fs, n);
      ReachedPrefix(fs, n);
      IncreasingPrefix(fs, n);
      hide IsCron, Chained, Reached, Instants;
      CountsInstants(next, created, fs[..n]);
      OneMoreInstant(next, created, fs[n - 1].instant.value, fs[n - 1].stamp, fs[n].instant.value);
    }
  }

  lemma IncreasingPrefix(fs: seq<Firing>, n: nat)
    requires Increasing(fs) && n <= |fs|
    ensures Increasing(fs[..n])
  {}

  /** However long the pauses, whatever is disabled meanwhile and however the two
      clocks differ: while there are instants and firings are stamped at or after
      them, a schedule has derived at most as many jobs as instants have passed since
      its creation, up to the instant and so up to the reading of its last firing. */
  lemma NeverOverFires(next: Cron, created: int, events: seq<Event>)
    requires IsCron(next) && Reached(Firings(next, created, events))
    ensures var s, fs := Play(next, created, events), Firings(next, created, events);
            && s.fired == |fs|
            && (fs != [] ==>
                  s.fired <= |Instants(next, created, fs[|fs| - 1].instant.value)|
                          <= |Instants(next, created, fs[|fs| - 1].decided)|)
            && (fs != [] && Reaches(fs[|fs| - 1]) ==> s.fired <= |Instants(next, created, Base(s))|)
  {
    var fs := Firings(next, created, events);
    FiringsAre(next, created, events);
    IncreasingIffReached(next, created, events);
    if fs != [] {
      var last := fs[|fs| - 1];
      LastDecided(next, created, fs);
      hide IsCron, Chained, Instants, Play, Firings, Increasing;
      CountsInstants(next, created, fs);
      InstantsGrow(next, created, last.instant.value, last.decided);
      if Reaches(last) { InstantsGrow(next, created, last.instant.value, last.stamp); }
    }
  }

  lemma LastDecided(next: Cron, created: int, fs: seq<Firing>)
    requires fs != [] && Chained(next, created, fs)
    ensures NotAfter(fs[|fs| - 1].instant, fs[|fs| - 1].decided)
  {
    assert StandsFor(fs[|fs| - 1], next(BaseOf(created, fs, |fs| - 1)));
  }

  /** With `@every`, under the same condition, the jobs are at most as many as delays
      have passed since the whole second of the creation. */
  lemma EveryNeverOverFires(delay: int, created: int, events: seq<Event>)
    requires delay > 0 && delay % SECOND == 0 && Reached(Firings(Every(delay), created, events))
    ensures var s, fs := Play(Every(delay), created, events), Firings(Every(delay), created, events);
            && s.fired == |fs|
            && (fs != [] ==>
                  created - created % 1_000_000_000 + s.fired * delay
                    <= fs[|fs| - 1].instant.value <= fs[|fs| - 1].decided)
  {
    var fs := Firings(Every(delay), created, events);
    FiringsAre(Every(delay), created, events);
    if fs != [] {
      LastDecided(Every(delay), created, fs);
      EveryInstants(delay, created, fs);
      hide Chained, Every, Play, Firings;
    }
  }

  lemma {:induction false} EveryInstants(delay: int, created: int, fs: seq<Firing>)
    requires delay > 0 && delay % SECOND == 0 && fs != [] && Chained(Every(delay), created, fs) && Reached(fs)
    ensures created - created % SECOND + |fs| * delay <= fs[|fs| - 1].instant.value
    ensures fs[|fs| - 1].instant.value % SECOND == 0
  {
    var n := |fs| - 1;
    var base := BaseOf(created, fs, n);
    EveryInstant(delay, created, fs);
    if n > 0 {
      ChainedPrefix(Every(delay), created, fs, n);
      assert Reaches(fs[n - 1]);
      ReachedPrefix(fs, n);
      hide Every, Chained, Reached;
      EveryInstants(delay, created, fs[..n]);
      OneMoreDelay(created - created % SECOND, n, delay, fs[n - 1].instant.value, base, fs[n].instant.value);
    }
  }

  lemma EveryInstant(delay: int, created: int, fs: seq<Firing>)
    requires delay % SECOND == 0 && fs != [] && Chained(Every(delay), created, fs)
    ensures var base, last := BaseOf(created, fs, |fs| - 1), fs[|fs| - 1].instant;
            last == Some(base - base % SECOND + delay) && last.value % SECOND == 0
  {
    assert fs[|fs| - 1].instant == Every(delay)(BaseOf(created, fs, |fs| - 1));
  }

  lemma ReachedPrefix(fs: seq<Firing>, n: nat)
    requires Reached(fs) && n <= |fs|
    ensures Reached(fs[..n])
  {
    forall i | 0 <= i < n - 1 ensures Reaches(fs[..n][i]) { assert Reaches(fs[i]); }
  }

  lemma OneMoreDelay(start: int, n: nat, delay: int, a: int, base: int, b: int)
    requires start + n * delay <= a <= base && a % SECOND == 0 && b == base - base % SECOND + delay
    ensures start + (n + 1) * delay <= b
  {
    assert (n + 1) * delay == n * delay + delay;
  }

  /** Ticks that find the schedule enabled, which it is at first. */
  function EnabledAfter(events: seq<Event>): bool {
    if events == [] then true
    else
      match events[|events| - 1]
      case Tick(_, _) => EnabledAfter(events[..|events| - 1])
      case Enable => true
      case Disable => false
  }

  function EnabledTicks(events: seq<Event>): nat {
    if events == [] then 0
    else
      var before := events[..|events| - 1];
      EnabledTicks(before) + if events[|events| - 1].Tick? && EnabledAfter(before) then 1 else 0
  }

  /** An expression the library finds no instant for fires at every single tick while
      it is enabled; such expressions are accepted when a schedule is created. Every
      other schedule fires at most that often. */
  lemma {:induction false} FiresAtEveryTick(next: Cron, created: int, events: seq<Event>)
    ensures Play(next, created, events).enabled == EnabledAfter(events)
    ensures Play(next, created, events).fired <= EnabledTicks(events)
    ensures (forall t :: next(t) == None) ==> Play(next, created, events).fired == EnabledTicks(events)
  {
    if events != [] { FiresAtEveryTick(next, created, events[..|events| - 1]); }
  }

  function EveryMinute(t: int): Option<int> { Some(t / MINUTE * MINUTE + MINUTE) }

  /** A database clock that lags the scheduler's makes it over-fire: two jobs for
      the one instant that has passed. */
  lemma LaggingClockOverFires()
    ensures IsCron(EveryMinute)
    ensures var late := MINUTE + SECOND;
            var events := [Tick(MINUTE, MINUTE - SECOND), Tick(late, MINUTE)];
            && Play(EveryMinute, 0, events).fired == 2
            && Firings(EveryMinute, 0, events) ==
               [Firing(Some(MINUTE), MINUTE, MINUTE - SECOND), Firing(Some(MINUTE), late, MINUTE)]
            && Instants(EveryMinute, 0, late) == {MINUTE}
  {
    hide *;
    MinutesAreCron();
    FirstMinute();
    BeforeTheMinute();
    TwoFirings(EveryMinute, 0, MINUTE, MINUTE - SECOND, MINUTE + SECOND, MINUTE);
  }

  lemma BeforeTheMinute()
    ensures EveryMinute(0) == EveryMinute(MINUTE - SECOND) == Some(MINUTE) && 0 < SECOND
  {}

  /** Two ticks of a new schedule that fire for the same instant. */
  lemma TwoFirings(next: Cron, created: int, instant: int, stamp1: int, now2: int, stamp2: int)
    requires next(created) == next(stamp1) == Some(instant) && instant <= now2
    ensures var events := [Tick(instant, stamp1), Tick(now2, stamp2)];
            && Play(next, created, events).fired == 2
            && Firings(next, created, events) ==
               [Firing(Some(instant), instant, stamp1), Firing(Some(instant), now2, stamp2)]
  {
    var a, b := Tick(instant, stamp1), Tick(now2, stamp2);
    FiringTick(next, created, [], a, instant);
    FiringTick(next, created, [a], b, instant);
    assert [] + [a] == [a] && [a] + [b] == [a, b];
  }

  lemma FiringTick(next: Cron, created: int, events: seq<Event>, e: Event, instant: int)
    requires e.Tick? && Due(next, Play(next, created, events), e.now)
    requires next(Base(Play(next, created, events))) == Some(instant)
    ensures Play(next, created, events + [e]) ==
            Play(next, created, events).(lastRun := Some(e.stamp), fired := Play(next, created, events).fired + 1)
    ensures Firings(next, created, events + [e]) ==
            Firings(next, created, events) + [Firing(Some(instant), e.now, e.stamp)]
  {
    assert (events + [e])[..|events|] == events;
  }

  lemma MinutesAreCron()
    ensures IsCron(EveryMinute)
  {
    forall t, u | t <= u < EveryMinute(t).value ensures EveryMinute(u) == EveryMinute(t) { SameMinute(t, u); }
    forall t ensures EveryMinute(t).value > t {}
    hide EveryMinute;
  }

  lemma SameMinute(t: int, u: int)
    requires t <= u < EveryMinute(t).value
    ensures EveryMinute(u) == EveryMinute(t)
  {
    assert u / MINUTE == t / MINUTE;
  }

  lemma FirstMinute()
    ensures Instants(EveryMinute, 0, MINUTE + SECOND) == {MINUTE}
  {
    forall t | 0 < t <= MINUTE + SECOND && EveryMinute(t - 1) == Some(t) ensures t == MINUTE { OnlyMinute(t); }
    OnlyMinute(MINUTE);
    hide EveryMinute;
  }

  lemma OnlyMinute(t: int)
    requires 0 < t <= MINUTE + SECOND
    ensures EveryMinute(t - 1) == Some(t) <==> t == MINUTE
  {
    if t <= MINUTE { assert (t - 1) / MINUTE == 0; } else { assert (t - 1) / MINUTE == 1; }
  }

  // ---------------------------------------------------------------- missed instants

  /** No tick of `later` finds the schedule enabled at or after `bound`, if there is one. */
  ghost predicate Quiet(next: Cron, created: int, events: seq<Event>, later: seq<Event>,
      bound: Option<int>)
  {
    forall i :: 0 <= i < |later| && later[i].Tick? && Play(next, created, events + later[..i]).enabled ==>
      !NotAfter(bound, later[i].now)
  }

  lemma {:induction false} FiredGrows(next: Cron, created: int, events: seq<Event>, later: seq<Event>)
    ensures Play(next, created, events).fired <= Play(next, created, events + later).fired
  {
    if later == [] {
      assert events + later == events;
    } else {
      var n := |later| - 1;
      FiredGrows(next, created, events, later[..n]);
      assert (events + later)[..|events + later| - 1] == events + later[..n];
    }
  }

  /** Missed instants collapse into one job. However many there were when a firing
      was stamped, from then on the schedule stays quiet exactly until an enabled
      tick reads the first instant after that stamp. */
  lemma {:induction false} BacklogCollapses(next: Cron, created: int, events: seq<Event>, later: seq<Event>)
    ensures var s := Play(next, created, events);
            Play(next, created, events + later).fired == s.fired <==> Quiet(next, created, events, later, next(Base(s)))
    ensures var s, s' := Play(next, created, events), Play(next, created, events + later);
            s'.fired == s.fired ==> Base(s') == Base(s)
  {
    hide Quiet;
    var s := Play(next, created, events);
    if later == [] {
      assert events + later == events;
      assert Quiet(next, created, events, [], next(Base(s))) by { QuietNow(next, created, events, next(Base(s))); }
    } else {
      var n := |later| - 1;
      var mid := Play(next, created, events + later[..n]);
      BacklogCollapses(next, created, events, later[..n]);
      assert (events + later)[..|events + later| - 1] == events + later[..n];
      FiredGrows(next, created, events, later[..n]);
      QuietSnoc(next, created, events, later, next(Base(s)));
    }
  }

  lemma QuietNow(next: Cron, created: int, events: seq<Event>, bound: Option<int>)
    ensures Quiet(next, created, events, [], bound)
  {}

  lemma QuietSnoc(next: Cron, created: int, events: seq<Event>, later: seq<Event>,
      bound: Option<int>)
    requires later != []
    ensures var n := |later| - 1;
            Quiet(next, created, events, later, bound) <==>
              && Quiet(next, created, events, later[..n], bound)
              && (later[n].Tick? && Play(next, created, events + later[..n]).enabled ==> !NotAfter(bound, later[n].now))
  {
    hide Play;
    var n := |later| - 1;
    forall i | 0 <= i < n ensures later[..n][..i] == later[..i] && later[..n][i] == later[i] {}
  }

  // ------------------------------------------------------------------ all schedules

  /** What may go wrong in a round: a refused webhook skips the schedule, a failed
      transaction ends the round. */
  datatype Attempt = Refused | Failed | Stamped(at: int)

  class Scheduler {
    var schedules: map<nat, Schedule>
    /** Jobs inserted, by the schedule they derive from. */
    var jobs: multiset<nat>

    /** Every derived job is counted once. */
    ghost predicate Valid()
      reads this
    {
      forall id :: jobs[id] == if id in schedules then schedules[id].fired else 0
    }

    constructor ()
      ensures Valid() && schedules == map[]
    {
      schedules, jobs := map[], multiset{};
    }

    /** One transaction: the job is inserted and the schedule stamped. */
    method Fire(id: nat, at: int)
      requires Valid() && id in schedules
      modifies this
      ensures Valid()
      ensures schedules ==
              old(schedules)[id := old(schedules)[id].(lastRun := Some(at), fired := old(schedules)[id].fired + 1)]
    {
      jobs := jobs + multiset{id};
      schedules := schedules[id := schedules[id].(lastRun := Some(at), fired := schedules[id].fired + 1)];
    }

    /** One round over the enabled schedules. Each is ticked once, or left alone
        when its webhook is refused or the round ends before it. */
    method RunSchedules(crons: nat -> Cron, now: int, attempt: nat -> Attempt) returns (completed: bool)
      requires Valid()
      modifies this
      ensures Valid() && schedules.Keys == old(schedules).Keys
      ensures forall id :: id in schedules ==>
                schedules[id] == old(schedules)[id]
                || (attempt(id).Stamped? && schedules[id] == Ticked(crons(id), old(schedules)[id], now, attempt(id).at))
      ensures completed ==> forall id :: id in schedules && attempt(id).Stamped? ==>
                schedules[id] == Ticked(crons(id), old(schedules)[id], now, attempt(id).at)
      ensures !completed ==>
        exists id :: id in schedules && attempt(id).Failed? && Due(crons(id), old(schedules)[id], now)
    {
      hide Valid;
      var todo := set id | id in schedules && schedules[id].enabled;
      while todo != {}
        invariant Valid() && schedules.Keys == old(schedules).Keys
        invariant todo <= schedules.Keys
        invariant forall id :: id in todo ==> schedules[id] == old(schedules)[id]
        invariant forall id :: id in schedules && id !in todo ==>
                    schedules[id] == (if attempt(id).Stamped?
                      then Ticked(crons(id), old(schedules)[id], now, attempt(id).at) else old(schedules)[id])
      {
        ghost var some := Pick(todo);
        var id :| id in todo;
        var s := schedules[id];
        var instant := crons(id)(Base(s));
        if instant.None? || !(instant.value > now) {
          match attempt(id) {
            case Refused =>
            case Failed => return false;
            case Stamped(at) =>
              Fire(id, at);
          }
        }
        todo := todo - {id};
      }
      completed := true;
    }
  }
}
