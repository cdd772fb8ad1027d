/** Outbox delivery by several workers (services/svc-jobs/worker.go; the variant of
    services/svc-notify/worker.go differs in the attempt bound and the backoff).
    A batch is one transaction: claim with FOR UPDATE SKIP LOCKED, deliver, then
    commit or roll back. */
module Outbox {
  import opened Prelude

  // ------------------------------------------------------------ retry arithmetic

  const MINUTE: int := 60_000_000_000
  const TWO63: int := 0x8000_0000_0000_0000
  const NOTIFY_ATTEMPTS: nat := 5

  datatype Policy = Jobs | Notify

  /** What is left of an integer in a Go int64. */
  function Wrap64(x: int): (w: int)
    ensures -TWO63 <= w < TWO63
    ensures -TWO63 <= x < TWO63 ==> w == x
  {
    (x + TWO63) % (2 * TWO63) - TWO63
  }

  /** The exponent of the pause after the failure that follows `attempts` earlier ones. */
  function Shift(policy: Policy, attempts: nat): nat { if policy == Jobs then attempts + 1 else attempts }

  /** The pause as computed in int64 nanoseconds. */
  function Backoff(policy: Policy, attempts: nat): int {
    Wrap64(Wrap64(Pow2(Shift(policy, attempts))) * MINUTE)
  }

  lemma {:induction false} Pow2Monotone(m: nat, n: nat)
    requires m <= n
    ensures Pow2(m) <= Pow2(n)
    decreases n - m
  {
    if m < n { Pow2Monotone(m + 1, n); }
  }

  lemma Pow2At27()
    ensures Pow2(27) == 134_217_728
  {
    assert Pow2(9) == 512;
    assert Pow2(18) == 262_144 by { assert Pow2(12) == 4096; assert Pow2(15) == 32_768; }
    assert Pow2(21) == 2_097_152;
    assert Pow2(24) == 16_777_216;
  }

  /** A pause is what it is meant to be exactly up to 2^27 minutes. */
  lemma BackoffExactIff(policy: Policy, attempts: nat)
    ensures Backoff(policy, attempts) == Pow2(Shift(policy, attempts)) * MINUTE <==> Shift(policy, attempts) <= 27
  {
    var n := Shift(policy, attempts);
    Pow2At27();
    if n <= 27 {
      Pow2Monotone(n, 27);
    } else {
      assert Pow2(28) == 268_435_456;
      Pow2Monotone(28, n);
      assert Pow2(n) * MINUTE >= TWO63;
    }
  }

  /** No retry of a job overflows exactly when it has at most 28 attempts. */
  lemma NoOverflowIff(maxAttempts: nat)
    requires maxAttempts >= 1
    ensures (forall a: nat :: a + 1 < maxAttempts ==> Backoff(Jobs, a) == Pow2(Shift(Jobs, a)) * MINUTE)
      <==> maxAttempts <= 28
  {
    forall a: nat ensures Backoff(Jobs, a) == Pow2(Shift(Jobs, a)) * MINUTE <==> a <= 26 {
      BackoffExactIff(Jobs, a);
    }
    if maxAttempts > 28 {
      assert Backoff(Jobs, 27) != Pow2(Shift(Jobs, 27)) * MINUTE;
    }
  }

  /** All the pauses of an item that always fails, before its first `n` retries. */
  function TotalWait(policy: Policy, n: nat): int {
    if n == 0 then 0 else TotalWait(policy, n - 1) + Backoff(policy, n - 1)
  }

  lemma {:induction false} JobWaits(n: nat)
    requires n <= 27
    ensures TotalWait(Jobs, n) == (Pow2(n + 1) - 2) * MINUTE
  {
    if n > 0 {
      hide Backoff, Wrap64, TotalWait;
      JobWaits(n - 1);
      BackoffExactIff(Jobs, n - 1);
      WaitStep(Jobs, n - 1);
    }
  }

  /** A job that always fails waits 2^max - 2 minutes in all, a notification 15. */
  lemma TotalWaitWhenAllFail(maxAttempts: nat)
    requires 1 <= maxAttempts <= 28
    ensures TotalWait(Jobs, maxAttempts - 1) == (Pow2(maxAttempts) - 2) * MINUTE
    ensures TotalWait(Notify, NOTIFY_ATTEMPTS - 1) == 15 * MINUTE
  {
    hide TotalWait, Backoff, Wrap64, Pow2;
    JobWaits(maxAttempts - 1);
    NotifyWaits();
  }

  lemma NotifyWaits()
    ensures TotalWait(Notify, NOTIFY_ATTEMPTS - 1) == 15 * MINUTE
  {
    hide Backoff, Wrap64, TotalWait;
    BackoffExactIff(Notify, 0);
    BackoffExactIff(Notify, 1);
    BackoffExactIff(Notify, 2);
    BackoffExactIff(Notify, 3);
    WaitStep(Notify, 0);
    WaitStep(Notify, 1);
    WaitStep(Notify, 2);
    WaitStep(Notify, 3);
    assert Pow2(1) == 2 && Pow2(2) == 4 && Pow2(3) == 8;
  }

  lemma WaitStep(policy: Policy, n: nat)
    ensures TotalWait(policy, 0) == 0 && TotalWait(policy, n + 1) == TotalWait(policy, n) + Backoff(policy, n)
  {
  }

  // -------------------------------------------------------------------- the rows

  datatype Status = Pending | Delivered | Dead

  datatype Job = Job(status: Status, attempts: nat, maxAttempts: nat, runAt: int)

  /** The row after one delivery. */
  function Settled(policy: Policy, j: Job, ok: bool, now: int): Job {
    if ok then j.(status := Delivered)
    else if j.attempts + 1 >= j.maxAttempts then j.(status := Dead, attempts := j.attempts + 1)
    else j.(attempts := j.attempts + 1, runAt := now + Backoff(policy, j.attempts))
  }

  /** A claimed row: its id and what was read when it was locked. */
  datatype Claim = Claim(id: nat, row: Job)

  type Table = map<nat, Job>

  /** The table with the first |outcomes| claimed rows settled. */
  function Settle(policy: Policy, rows: Table, claims: seq<Claim>, outcomes: seq<bool>, now: int): Table
    requires |outcomes| <= |claims|
  {
    if outcomes == [] then rows
    else
      var n := |outcomes| - 1;
      Settle(policy, rows, claims, outcomes[..n], now)[claims[n].id := Settled(policy, claims[n].row, outcomes[n], now)]
  }

  predicate Eligible(rows: Table, locked: set<nat>, id: nat, now: int) {
    id in rows && rows[id].status == Pending && rows[id].runAt <= now && id !in locked
  }

  const BATCH: nat := 10

  /** ORDER BY id LIMIT 10: the lowest unlocked due ids, ascending, with their rows. */
  ghost predicate IsClaim(rows: Table, locked: set<nat>, claims: seq<Claim>, now: int) {
    && |claims| <= BATCH
    && (forall i :: 0 <= i < |claims| ==>
      Eligible(rows, locked, claims[i].id, now) && claims[i].row == rows[claims[i].id])
    && (forall i, j :: 0 <= i < j < |claims| ==> claims[i].id < claims[j].id)
    && (forall id :: Eligible(rows, locked, id, now) ==>
          (exists i :: 0 <= i < |claims| && claims[i].id == id)
            || (|claims| == BATCH && forall i :: 0 <= i < |claims| ==> claims[i].id < id))
  }

  // ---------------------------------------------------------------- the protocol

  /** An open transaction of a worker: its locked rows, the deliveries made, and when it
      began, which is what `now()` is throughout. */
  datatype Batch = Batch(claims: seq<Claim>, outcomes: seq<bool>, start: int)

  /** The outbox with its open batches, and a history per item: calls made, calls
      that succeeded, and rolled-back batches it was in. */
  datatype State = State(
    policy: Policy,
    rows: Table,
    batches: map<nat, Batch>,
    calls: map<nat, nat>,
    successes: map<nat, nat>,
    aborts: map<nat, nat>)

  datatype Step =
    | Enqueue(id: nat, maxAttempts: int, runAt: int)
    | ClaimBatch(worker: nat, claims: seq<Claim>, now: int)
    | Deliver(worker: nat, ok: bool)
    | Commit(worker: nat)
    | Abort(worker: nat)

  predicate Claimed(b: Batch, id: nat) { exists i :: 0 <= i < |b.claims| && b.claims[i].id == id }

  function Locked(s: State): set<nat> {
    set w, i | w in s.batches && 0 <= i < |s.batches[w].claims| :: s.batches[w].claims[i].id
  }

  function Bound(policy: Policy, requested: int): nat {
    if policy == Notify || requested <= 0 then 5 else requested
  }

  function Bump(m: map<nat, nat>, id: nat): map<nat, nat>
    requires id in m
  {
    m[id := m[id] + 1]
  }

  ghost predicate Does(s: State, step: Step, s': State) {
    match step
    case Enqueue(id, requested, runAt) =>
      && id !in s.rows
      && s' == s.(rows := s.rows[id := Job(Pending, 0, Bound(s.policy, requested), runAt)],
                  calls := s.calls[id := 0], successes := s.successes[id := 0], aborts := s.aborts[id := 0])
    case ClaimBatch(w, claims, now) =>
      && w !in s.batches && IsClaim(s.rows, Locked(s), claims, now)
      && s' == s.(batches := s.batches[w := Batch(claims, [], now)])
    case Deliver(w, ok) =>
      && w in s.batches && |s.batches[w].outcomes| < |s.batches[w].claims|
      && var b := s.batches[w];
         var id := b.claims[|b.outcomes|].id;
         && id in s.calls && id in s.successes
         && s' == s.(batches := s.batches[w := b.(outcomes := b.outcomes + [ok])],
                     calls := Bump(s.calls, id),
                     successes := if ok then Bump(s.successes, id) else s.successes)
    case Commit(w) =>
      && w in s.batches && |s.batches[w].outcomes| == |s.batches[w].claims|
      && var b := s.batches[w];
         s' == s.(rows := Settle(s.policy, s.rows, b.claims, b.outcomes, b.start), batches := s.batches - {w})
    case Abort(w) =>
      && w in s.batches
      && s' == s.(batches := s.batches - {w},
                  aborts := map id | id in s.aborts :: if Claimed(s.batches[w], id) then s.aborts[id] + 1
                    else s.aborts[id])
  }

  ghost predicate IsRun(run: seq<State>, steps: seq<Step>) {
    && |run| == |steps| + 1
    && run[0] == State(run[0].policy, map[], map[], map[], map[], map[])
    && forall i :: 0 <= i < |steps| ==> Follows(run, steps, i)
  }

  ghost predicate Follows(run: seq<State>, steps: seq<Step>, i: nat)
    requires |run| == |steps| + 1 && i < |steps|
  {
    Does(run[i], steps[i], run[i + 1])
  }

  // ------------------------------------------------------------------- invariant

  /** Worker `w` has called for item `id` in its open batch (with that outcome). */
  predicate Called(s: State, w: nat, id: nat) {
    w in s.batches && exists i ::
      0 <= i < |s.batches[w].outcomes| && i < |s.batches[w].claims| && s.batches[w].claims[i].id == id
  }

  predicate CalledOk(s: State, w: nat, id: nat) {
    w in s.batches &&
    var b := s.batches[w];
    exists i :: 0 <= i < |b.outcomes| && i < |b.claims| && b.claims[i].id == id && b.outcomes[i]
  }

  function One(b: bool): nat { if b then 1 else 0 }

  ghost function OpenCalls(s: State, id: nat): nat { One(exists w :: Called(s, w, id)) }
  ghost function OpenSuccesses(s: State, id: nat): nat { One(exists w :: CalledOk(s, w, id)) }

  predicate RowOk(j: Job) {
    match j.status
    case Pending => j.attempts < j.maxAttempts
    case Delivered => j.attempts < j.maxAttempts
    case Dead => j.attempts == j.maxAttempts
  }

  /** A batch's rows are distinct and still exactly as they were read: pending and due. */
  ghost predicate BatchOk(rows: Table, b: Batch) {
    && |b.outcomes| <= |b.claims|
    && (forall i :: 0 <= i < |b.claims| ==>
      && b.claims[i].id in rows && rows[b.claims[i].id] == b.claims[i].row && b.claims[i].row.status == Pending
      && b.claims[i].row.runAt <= b.start)
    && (forall i, j :: 0 <= i < j < |b.claims| ==> b.claims[i].id < b.claims[j].id)
  }

  /** No item is held by two workers. */
  ghost predicate Exclusive(s: State) {
    forall v, w, id :: v in s.batches && w in s.batches && Claimed(s.batches[v], id) && Claimed(s.batches[w], id) ==>
      v == w
  }

  /** Every call is accounted for: by a counted attempt, the final success, the
      open batch, or a rolled-back batch. */
  ghost predicate Accounted(s: State, id: nat)
    requires id in s.rows && id in s.calls && id in s.successes && id in s.aborts
  {
    && s.calls[id] <= s.rows[id].attempts + One(s.rows[id].status == Delivered) + OpenCalls(s, id) + s.aborts[id]
    && s.successes[id] <= One(s.rows[id].status == Delivered) + OpenSuccesses(s, id) + s.aborts[id]
    && One(s.rows[id].status == Delivered) + OpenSuccesses(s, id) <= s.successes[id]
  }

  ghost predicate Inv(s: State) {
    && s.calls.Keys == s.rows.Keys == s.successes.Keys == s.aborts.Keys
    && (forall id :: id in s.rows ==> RowOk(s.rows[id]) && s.rows[id].maxAttempts >= 1)
    && (forall w :: w in s.batches ==> BatchOk(s.rows, s.batches[w]))
    && Exclusive(s)
    && (forall id :: id in s.rows ==> Accounted(s, id))
  }

  // ------------------------------------------------------ it is kept by each step

  lemma CalledIsClaimed(s: State, w: nat, id: nat)
    requires Called(s, w, id)
    ensures Claimed(s.batches[w], id)
  {}

  /** Only the holder of an item can have an open call for it. */
  lemma OpenAtHolder(s: State, w: nat, id: nat)
    requires Exclusive(s) && w in s.batches && Claimed(s.batches[w], id)
    ensures OpenCalls(s, id) == One(Called(s, w, id))
    ensures OpenSuccesses(s, id) == One(CalledOk(s, w, id))
  {
    forall v | Called(s, v, id) ensures v == w { CalledIsClaimed(s, v, id); }
    forall v | CalledOk(s, v, id) ensures Called(s, v, id) {}
  }

  lemma NotOpenUnlessHeld(s: State, id: nat)
    requires forall w :: w in s.batches ==> !Claimed(s.batches[w], id)
    ensures OpenCalls(s, id) == 0 && OpenSuccesses(s, id) == 0
  {
    forall v ensures !Called(s, v, id) && !CalledOk(s, v, id) {
      if Called(s, v, id) || CalledOk(s, v, id) { CalledIsClaimed(s, v, id); }
    }
  }

  /** An item that worker `w` does not touch keeps its open calls. */
  lemma OpenSameElsewhere(s: State, s': State, w: nat, id: nat)
    requires forall v :: v != w ==> (v in s.batches <==> v in s'.batches)
    requires forall v :: v != w && v in s.batches ==> s.batches[v] == s'.batches[v]
    requires !Called(s, w, id) && !Called(s', w, id)
    ensures OpenCalls(s, id) == OpenCalls(s', id) && OpenSuccesses(s, id) == OpenSuccesses(s', id)
  {
    forall v ensures Called(s, v, id) <==> Called(s', v, id)
      ensures CalledOk(s, v, id) <==> CalledOk(s', v, id)
    {
      if v == w { assert !CalledOk(s, w, id) && !CalledOk(s', w, id); }
    }
  }

  lemma OpenDependsOnBatches(s: State, s': State, id: nat)
    requires s.batches == s'.batches
    ensures OpenCalls(s, id) == OpenCalls(s', id) && OpenSuccesses(s, id) == OpenSuccesses(s', id)
  {
    forall v
      ensures Called(s, v, id) <==> Called(s', v, id)
      ensures CalledOk(s, v, id) <==> CalledOk(s', v, id)
    {}
  }

  lemma EnqueueKeeps(s: State, step: Step, s': State)
    requires Inv(s) && step.Enqueue? && Does(s, step, s')
    ensures Inv(s')
  {
    forall w | w in s'.batches ensures BatchOk(s'.rows, s'.batches[w]) && !Claimed(s'.batches[w], step.id) {
      assert BatchOk(s.rows, s.batches[w]);
    }
    forall id | id in s'.rows ensures Accounted(s', id) {
      if id == step.id {
        NotOpenUnlessHeld(s', id);
      } else {
        assert Accounted(s, id);
        OpenDependsOnBatches(s, s', id);
      }
    }
    assert Exclusive(s');
  }

  lemma LockedIffClaimed(s: State, id: nat)
    ensures id in Locked(s) <==> exists w :: w in s.batches && Claimed(s.batches[w], id)
  {}

  lemma ClaimKeeps(s: State, step: Step, s': State)
    requires Inv(s) && step.ClaimBatch? && Does(s, step, s')
    ensures Inv(s')
  {
    ClaimIsExclusive(s, step, s');
    hide Exclusive, Locked, RowOk;
    forall id | id in s'.rows ensures Accounted(s', id) {
      assert Accounted(s, id);
      OpenSameElsewhere(s, s', step.worker, id);
    }
  }

  lemma ClaimIsExclusive(s: State, step: Step, s': State)
    requires Exclusive(s) && step.ClaimBatch? && Does(s, step, s')
    ensures Exclusive(s')
  {
    forall v, w, id | v in s'.batches && w in s'.batches && Claimed(s'.batches[v], id) && Claimed(s'.batches[w], id)
      ensures v == w {
      LockedIffClaimed(s, id);
    }
  }

  /** The call a delivery makes is the first for its item in the batch. */
  lemma DeliverCalls(s: State, step: Step, s': State, i: nat)
    requires step.Deliver? && Does(s, step, s') && BatchOk(s.rows, s.batches[step.worker])
    ensures var w, b := step.worker, s.batches[step.worker];
            var hit := i == b.claims[|b.outcomes|].id;
            && (hit ==> !Called(s, w, i) && !CalledOk(s, w, i))
            && (Called(s', w, i) <==> hit || Called(s, w, i))
            && (CalledOk(s', w, i) <==> (hit && step.ok) || CalledOk(s, w, i))
  {
    var w, b, b' := step.worker, s.batches[step.worker], s'.batches[step.worker];
    var n := |b.outcomes|;
    assert b'.claims == b.claims && b'.outcomes[n] == step.ok;
    assert forall k :: 0 <= k < n ==> b'.outcomes[k] == b.outcomes[k] && b.claims[k].id != b.claims[n].id;
  }

  lemma DeliverAccounts(s: State, step: Step, s': State, i: nat)
    requires step.Deliver? && Does(s, step, s') && BatchOk(s.rows, s.batches[step.worker]) && Exclusive(s)
      && Exclusive(s')
    requires i in s.rows && i in s.calls && i in s.successes && i in s.aborts && Accounted(s, i)
    ensures Accounted(s', i)
  {
    var w, b := step.worker, s.batches[step.worker];
    DeliverCalls(s, step, s', i);
    if Claimed(b, i) {
      assert Claimed(s'.batches[w], i);
      OpenAtHolder(s, w, i);
      OpenAtHolder(s', w, i);
    } else {
      if Called(s, w, i) { CalledIsClaimed(s, w, i); }
      assert Claimed(b, b.claims[|b.outcomes|].id);
      OpenSameElsewhere(s, s', w, i);
    }
  }

  lemma DeliverKeeps(s: State, step: Step, s': State)
    requires Inv(s) && step.Deliver? && Does(s, step, s')
    ensures Inv(s')
  {
    DeliverKeepsBatches(s, step, s');
    forall i | i in s'.rows ensures Accounted(s', i) {
      DeliverAccounts(s, step, s', i);
    }
  }

  lemma DeliverKeepsBatches(s: State, step: Step, s': State)
    requires step.Deliver? && Does(s, step, s') && Exclusive(s) && forall w :: w in s.batches ==>
      BatchOk(s.rows, s.batches[w])
    ensures Exclusive(s') && forall w :: w in s'.batches ==> BatchOk(s'.rows, s'.batches[w])
  {
    SameClaimsExclusive(s, s');
    forall w | w in s'.batches ensures BatchOk(s'.rows, s'.batches[w]) {
      assert BatchOk(s.rows, s.batches[w]);
    }
  }

  lemma SameClaimsExclusive(s: State, s': State)
    requires Exclusive(s) && forall w :: w in s'.batches ==>
      w in s.batches && s'.batches[w].claims == s.batches[w].claims
    ensures Exclusive(s')
  {
    forall v, x, i | v in s'.batches && x in s'.batches && Claimed(s'.batches[v], i) && Claimed(s'.batches[x], i)
      ensures v == x {
      assert Claimed(s.batches[v], i) && Claimed(s.batches[x], i);
    }
  }

  /** A settled row is the claimed one with its outcome; other rows are as before. */
  lemma {:induction false} SettleAt(policy: Policy, rows: Table, claims: seq<Claim>, outcomes: seq<bool>, now: int,
      id: nat)
    requires BatchOk(rows, Batch(claims, outcomes, now))
    ensures var after := Settle(policy, rows, claims, outcomes, now);
            && after.Keys == rows.Keys
            && (forall i :: 0 <= i < |outcomes| && claims[i].id == id ==>
              id in after && after[id] == Settled(policy, rows[id], outcomes[i], now))
            && ((forall i :: 0 <= i < |outcomes| ==> claims[i].id != id) ==> Get(after, id) == Get(rows, id))
    decreases |outcomes|
  {
    if outcomes != [] {
      var n := |outcomes| - 1;
      SettleAt(policy, rows, claims, outcomes[..n], now, id);
      assert forall i :: 0 <= i < n ==> outcomes[..n][i] == outcomes[i];
    }
  }

  lemma CommitRows(s: State, step: Step, s': State, id: nat)
    requires Inv(s) && step.Commit? && Does(s, step, s') && id in s.rows
    ensures s'.rows.Keys == s.rows.Keys
    ensures !Claimed(s.batches[step.worker], id) ==> s'.rows[id] == s.rows[id]
    ensures Claimed(s.batches[step.worker], id) ==>
              && Called(s, step.worker, id) && s.rows[id].status == Pending
              && s'.rows[id] ==
                 Settled(s.policy, s.rows[id], CalledOk(s, step.worker, id), s.batches[step.worker].start)
              && s.rows[id].runAt <= s.batches[step.worker].start
  {
    hide Settle, Settled, Exclusive, Accounted, RowOk;
    var b := s.batches[step.worker];
    assert BatchOk(s.rows, b) && b == Batch(b.claims, b.outcomes, b.start);
    SettleAt(s.policy, s.rows, b.claims, b.outcomes, b.start, id);
    if Claimed(b, id) { ClaimedOnce(s, step.worker, id); }
  }

  /** With all deliveries made, a claimed item has one outcome. */
  lemma ClaimedOnce(s: State, w: nat, id: nat)
    requires w in s.batches && BatchOk(s.rows, s.batches[w]) && |s.batches[w].outcomes| == |s.batches[w].claims|
    requires Claimed(s.batches[w], id)
    ensures Called(s, w, id) && id in s.rows && s.rows[id].status == Pending
      && s.rows[id].runAt <= s.batches[w].start
    ensures var b := s.batches[w];
            exists i :: 0 <= i < |b.claims| && b.claims[i].id == id && b.outcomes[i] == CalledOk(s, w, id)
  {
    var b := s.batches[w];
    var i :| 0 <= i < |b.claims| && b.claims[i].id == id;
    assert forall k :: 0 <= k < |b.claims| && b.claims[k].id == id ==> k == i;
    assert CalledOk(s, w, id) <==> b.outcomes[i];
  }

  /** The other workers' rows are untouched. */
  lemma CommitKeepsBatch(s: State, step: Step, s': State, v: nat)
    requires Inv(s) && step.Commit? && Does(s, step, s') && v in s'.batches
    ensures BatchOk(s'.rows, s'.batches[v])
  {
    hide Settle, Settled, Accounted, RowOk, Called, CalledOk, Locked;
    assert BatchOk(s.rows, s.batches[v]);
    CommitKeys(s, step, s');
    forall i | 0 <= i < |s.batches[v].claims| ensures s'.rows[s.batches[v].claims[i].id] == s.batches[v].claims[i].row {
      var id := s.batches[v].claims[i].id;
      assert Claimed(s.batches[v], id);
      CommitRows(s, step, s', id);
    }
  }

  lemma CommitAccounts(s: State, step: Step, s': State, id: nat)
    requires Inv(s) && step.Commit? && Does(s, step, s') && id in s.rows && s'.rows.Keys == s.rows.Keys
    ensures RowOk(s'.rows[id]) && s'.rows[id].maxAttempts >= 1 && Accounted(s', id)
  {
    var w := step.worker;
    CommitRows(s, step, s', id);
    assert Accounted(s, id) && RowOk(s.rows[id]);
    if Claimed(s.batches[w], id) {
      OpenAtHolder(s, w, id);
      forall v | v in s'.batches ensures !Claimed(s'.batches[v], id) {}
      NotOpenUnlessHeld(s', id);
    } else {
      if Called(s, w, id) { CalledIsClaimed(s, w, id); }
      OpenSameElsewhere(s, s', w, id);
    }
  }

  lemma CommitKeeps(s: State, step: Step, s': State)
    requires Inv(s) && step.Commit? && Does(s, step, s')
    ensures Inv(s')
  {
    CommitKeys(s, step, s');
    SameClaimsExclusive(s, s');
    forall v | v in s'.batches ensures BatchOk(s'.rows, s'.batches[v]) { CommitKeepsBatch(s, step, s', v); }
    forall id | id in s'.rows ensures RowOk(s'.rows[id]) && s'.rows[id].maxAttempts >= 1 && Accounted(s', id) {
      CommitAccounts(s, step, s', id);
    }
  }

  lemma CommitKeys(s: State, step: Step, s': State)
    requires Inv(s) && step.Commit? && Does(s, step, s')
    ensures s'.rows.Keys == s.rows.Keys
  {
    var b := s.batches[step.worker];
    assert BatchOk(s.rows, b) && b == Batch(b.claims, b.outcomes, b.start);
    SettleAt(s.policy, s.rows, b.claims, b.outcomes, b.start, 0);
  }

  lemma AbortKeeps(s: State, step: Step, s': State)
    requires Inv(s) && step.Abort? && Does(s, step, s')
    ensures Inv(s')
  {
    var w := step.worker;
    SameClaimsExclusive(s, s');
    forall id | id in s'.rows ensures Accounted(s', id) {
      assert Accounted(s, id);
      if Claimed(s.batches[w], id) {
        OpenAtHolder(s, w, id);
        forall v | v in s'.batches ensures !Claimed(s'.batches[v], id) {}
        NotOpenUnlessHeld(s', id);
      } else {
        if Called(s, w, id) { CalledIsClaimed(s, w, id); }
        OpenSameElsewhere(s, s', w, id);
      }
    }
  }

  lemma StepKeepsInv(s: State, step: Step, s': State)
    requires Inv(s) && Does(s, step, s')
    ensures Inv(s')
  {
    match step {
      case Enqueue(_, _, _) => EnqueueKeeps(s, step, s');
      case ClaimBatch(_, _, _) => ClaimKeeps(s, step, s');
      case Deliver(_, _) => DeliverKeeps(s, step, s');
      case Commit(_) => CommitKeeps(s, step, s');
      case Abort(_) => AbortKeeps(s, step, s');
    }
  }

  /** In every interleaving of every number of workers the invariant holds. */
  lemma {:induction false} ReachableInv(run: seq<State>, steps: seq<Step>, i: nat)
    requires IsRun(run, steps) && i <= |steps|
    ensures Inv(run[i])
    decreases i
  {
    if i > 0 {
      ReachableInv(run, steps, i - 1);
      assert Follows(run, steps, i - 1);
      StepKeepsInv(run[i - 1], steps[i - 1], run[i]);
    }
  }

  // ---------------------------------------------------------------- main results

  /** What holds of every item in every interleaving: a pending one has attempts
      left, a dead one has none, a delivered one was delivered; successes are at
      most one more than the rolled-back batches it was in, and calls at most the
      attempt bound more. */
  lemma DeliveryGuarantees(run: seq<State>, steps: seq<Step>, i: nat, id: nat)
    requires IsRun(run, steps) && i <= |steps| && id in run[i].rows
    ensures var s, j := run[i], run[i].rows[id];
            && id in s.calls && id in s.successes && id in s.aborts
            && (j.status == Pending ==> j.attempts < j.maxAttempts)
            && (j.status == Dead ==> j.attempts == j.maxAttempts)
            && (j.status == Delivered ==> s.successes[id] >= 1)
            && s.successes[id] <= 1 + s.aborts[id]
            && s.calls[id] <= j.maxAttempts + s.aborts[id]
  {
    ReachableInv(run, steps, i);
    var s := run[i];
    assert Accounted(s, id) && RowOk(s.rows[id]);
    if s.rows[id].status != Pending {
      forall w | w in s.batches ensures !Claimed(s.batches[w], id) {
        assert BatchOk(s.rows, s.batches[w]);
      }
      NotOpenUnlessHeld(s, id);
    }
  }

  /** No item is held by two workers at once. */
  lemma HeldByAtMostOne(run: seq<State>, steps: seq<Step>, i: nat, v: nat, w: nat, id: nat)
    requires IsRun(run, steps) && i <= |steps|
    requires v in run[i].batches && w in run[i].batches && Claimed(run[i].batches[v], id)
      && Claimed(run[i].batches[w], id)
    ensures v == w
  {
    ReachableInv(run, steps, i);
  }

  /** Delivered and dead are final. */
  lemma FinalStaysFinal(s: State, step: Step, s': State, id: nat)
    requires Inv(s) && Does(s, step, s') && id in s.rows && s.rows[id].status != Pending
    ensures id in s'.rows && s'.rows[id] == s.rows[id]
  {
    if step.Commit? { CommitRows(s, step, s', id); }
  }

  lemma {:induction false} FinalForever(run: seq<State>, steps: seq<Step>, i: nat, j: nat, id: nat)
    requires IsRun(run, steps) && i <= j <= |steps| && id in run[i].rows && run[i].rows[id].status != Pending
    ensures id in run[j].rows && run[j].rows[id] == run[i].rows[id]
    decreases j
  {
    if i < j {
      FinalForever(run, steps, i, j - 1, id);
      ReachableInv(run, steps, j - 1);
      assert Follows(run, steps, j - 1);
      FinalStaysFinal(run[j - 1], steps[j - 1], run[j], id);
    }
  }

  /** A claimed batch, spelt out: at most ten rows, each pending, due and held by nobody,
      lowest ids first, and no such row with a lower id is left out. */
  lemma ClaimTakes(s: State, step: Step, s': State, i: nat, id: nat)
    requires step.ClaimBatch? && Does(s, step, s')
    ensures |step.claims| <= 10
    ensures i < |step.claims| ==>
              && step.claims[i].id in s.rows && s.rows[step.claims[i].id].status == Pending
              && s.rows[step.claims[i].id].runAt <= step.now
              && (forall w :: w in s.batches ==> !Claimed(s.batches[w], step.claims[i].id))
              && (i > 0 ==> step.claims[i - 1].id < step.claims[i].id)
    ensures id in s.rows && s.rows[id].status == Pending && s.rows[id].runAt <= step.now
            && (forall w :: w in s.batches ==> !Claimed(s.batches[w], id))
            && (|step.claims| < 10 || (i < |step.claims| && id < step.claims[i].id)) ==>
              exists j :: 0 <= j < |step.claims| && step.claims[j].id == id
  {
    LockedIffClaimed(s, id);
    if i < |step.claims| { LockedIffClaimed(s, step.claims[i].id); }
    assert Eligible(s.rows, Locked(s), id, step.now) <==>
      id in s.rows && s.rows[id].status == Pending && s.rows[id].runAt <= step.now && id !in Locked(s);
    hide Locked, Claimed;
  }

  /** The lowest of a set of ids, at most `k` of them. */
  lemma {:induction false} LowestIds(ids: set<nat>, k: nat) returns (low: seq<nat>)
    ensures |low| == if |ids| <= k then |ids| else k
    ensures forall i :: 0 <= i < |low| ==> low[i] in ids
    ensures forall i, j :: 0 <= i < j < |low| ==> low[i] < low[j]
    ensures forall i, id :: 0 <= i < |low| && id in ids && id !in low ==> low[i] < id
    ensures |ids| <= k ==> forall id :: id in ids ==> id in low
    decreases k
  {
    low := [];
    if k > 0 && ids != {} {
      var first := LeastId(ids);
      var rest := LowestIds(ids - {first}, k - 1);
      low := [first] + rest;
      assert |ids - {first}| == |ids| - 1;
    }
  }

  lemma {:induction false} LeastId(ids: set<nat>) returns (least: nat)
    requires ids != {}
    ensures least in ids && forall id :: id in ids ==> least <= id
    decreases |ids|
  {
    var some := Pick(ids);
    least := some;
    if ids != {some} {
      assert ids - {some} != {} by { assert ids <= {some} + (ids - {some}); }
      var other := LeastId(ids - {some});
      least := if other < some then other else some;
      assert forall id :: id in ids ==> id == some || id in ids - {some};
    }
  }

  function DueRows(rows: Table, locked: set<nat>, now: int): set<nat> {
    set id | id in rows && rows[id].status == Pending && rows[id].runAt <= now && id !in locked
  }

  /** There is always a batch to claim, of as many rows as may be claimed up to ten. */
  lemma ClaimExists(rows: Table, locked: set<nat>, now: int) returns (claims: seq<Claim>)
    ensures IsClaim(rows, locked, claims, now)
    ensures |claims| == if |DueRows(rows, locked, now)| <= 10 then |DueRows(rows, locked, now)| else 10
  {
    var due := DueRows(rows, locked, now);
    var low := LowestIds(due, 10);
    claims := seq(|low|, i requires 0 <= i < |low| => assert low[i] in due; Claim(low[i], rows[low[i]]));
    forall id | Eligible(rows, locked, id, now)
      ensures (exists i :: 0 <= i < |claims| && claims[i].id == id)
        || (|claims| == BATCH && forall i :: 0 <= i < |claims| ==> claims[i].id < id)
    {
      assert id in due;
      if id in low {
        var i :| 0 <= i < |low| && low[i] == id;
        assert claims[i].id == id;
      }
    }
  }

  /** Step `k` calls for the item; step `k` rolls back a batch with the item. */
  ghost predicate Calls(run: seq<State>, steps: seq<Step>, k: nat, id: nat)
    requires |run| == |steps| + 1
  {
    && k < |steps| && steps[k].Deliver? && steps[k].worker in run[k].batches
    && var b := run[k].batches[steps[k].worker];
       |b.outcomes| < |b.claims| && b.claims[|b.outcomes|].id == id
  }

  ghost predicate Aborts(run: seq<State>, steps: seq<Step>, k: nat, id: nat)
    requires |run| == |steps| + 1
  {
    && k < |steps| && steps[k].Abort? && steps[k].worker in run[k].batches
    && Claimed(run[k].batches[steps[k].worker], id)
  }

  /** The call, or the successful call. */
  ghost predicate CallsFor(run: seq<State>, steps: seq<Step>, k: nat, id: nat, okOnly: bool)
    requires |run| == |steps| + 1
  {
    Calls(run, steps, k, id) && (okOnly ==> steps[k].ok)
  }

  ghost function CallsSoFar(run: seq<State>, steps: seq<Step>, n: nat, id: nat, okOnly: bool): set<nat>
    requires |run| == |steps| + 1
  {
    set k: nat | k < n && CallsFor(run, steps, k, id, okOnly)
  }

  ghost function AbortsSoFar(run: seq<State>, steps: seq<Step>, n: nat, id: nat): set<nat>
    requires |run| == |steps| + 1
  {
    set k: nat | k < n && Aborts(run, steps, k, id)
  }

  /** The history kept for an item counts the steps of the run. */
  lemma {:induction false} HistoryCounts(run: seq<State>, steps: seq<Step>, n: nat, id: nat)
    requires IsRun(run, steps) && n <= |steps|
    ensures id in run[n].rows ==>
              && id in run[n].calls && run[n].calls[id] == |CallsSoFar(run, steps, n, id, false)|
              && id in run[n].successes && run[n].successes[id] == |CallsSoFar(run, steps, n, id, true)|
              && id in run[n].aborts && run[n].aborts[id] == |AbortsSoFar(run, steps, n, id)|
    ensures id !in run[n].rows ==>
              |CallsSoFar(run, steps, n, id, false)| == |CallsSoFar(run, steps, n, id, true)|
                == |AbortsSoFar(run, steps, n, id)| == 0
  {
    hide *;
    if n == 0 {
      NothingCounted(run, steps, id);
    } else {
      HistoryCounts(run, steps, n - 1, id);
      StepFacts(run, steps, n - 1);
      OneMoreCounted(run, steps, n - 1, id);
      HistoryStep(run, steps, n - 1, id);
      Ones();
    }
  }

  lemma StepFacts(run: seq<State>, steps: seq<Step>, n: nat)
    requires IsRun(run, steps) && n < |steps|
    ensures |run| == |steps| + 1 && Inv(run[n]) && Does(run[n], steps[n], run[n + 1])
  {
    ReachableInv(run, steps, n);
    assert Follows(run, steps, n);
  }

  lemma NothingCounted(run: seq<State>, steps: seq<Step>, id: nat)
    requires IsRun(run, steps)
    ensures run[0].rows == map[]
    ensures |CallsSoFar(run, steps, 0, id, false)| == |CallsSoFar(run, steps, 0, id, true)|
              == |AbortsSoFar(run, steps, 0, id)| == 0
  {}

  lemma Ones()
    ensures One(true) == 1 && One(false) == 0
  {}

  lemma OneMoreCounted(run: seq<State>, steps: seq<Step>, n: nat, id: nat)
    requires |run| == |steps| + 1 && n < |steps|
    ensures && |CallsSoFar(run, steps, n + 1, id, false)| ==
               |CallsSoFar(run, steps, n, id, false)| + One(CallsFor(run, steps, n, id, false))
            && |CallsSoFar(run, steps, n + 1, id, true)| ==
               |CallsSoFar(run, steps, n, id, true)| + One(CallsFor(run, steps, n, id, true))
            && |AbortsSoFar(run, steps, n + 1, id)| ==
               |AbortsSoFar(run, steps, n, id)| + One(Aborts(run, steps, n, id))
  {
    OneMoreCall(run, steps, n, id, false);
    OneMoreCall(run, steps, n, id, true);
    OneMoreAbort(run, steps, n, id);
    hide *;
  }

  lemma OneMoreCall(run: seq<State>, steps: seq<Step>, n: nat, id: nat, okOnly: bool)
    requires |run| == |steps| + 1 && n < |steps|
    ensures |CallsSoFar(run, steps, n + 1, id, okOnly)| ==
            |CallsSoFar(run, steps, n, id, okOnly)| + One(CallsFor(run, steps, n, id, okOnly))
  {
    hide CallsFor, One;
    OneMoreOf(CallsSoFar(run, steps, n, id, okOnly), CallsSoFar(run, steps, n + 1, id, okOnly), n,
      CallsFor(run, steps, n, id, okOnly));
  }

  lemma OneMoreOf(before: set<nat>, after: set<nat>, n: nat, now: bool)
    requires forall k: nat :: k in before ==> k < n
    requires forall k: nat :: k in after <==> k in before || (k == n && now)
    ensures |after| == |before| + One(now)
  {
    if now {
      assert after == before + {n};
    } else {
      assert after == before;
    }
  }

  lemma OneMoreAbort(run: seq<State>, steps: seq<Step>, n: nat, id: nat)
    requires |run| == |steps| + 1 && n < |steps|
    ensures |AbortsSoFar(run, steps, n + 1, id)| ==
            |AbortsSoFar(run, steps, n, id)| + One(Aborts(run, steps, n, id))
  {
    hide Aborts, One;
    OneMoreOf(AbortsSoFar(run, steps, n, id), AbortsSoFar(run, steps, n + 1, id), n, Aborts(run, steps, n, id));
  }

  /** What one step adds to the history. */
  lemma HistoryStep(run: seq<State>, steps: seq<Step>, n: nat, id: nat)
    requires |run| == |steps| + 1 && n < |steps| && Inv(run[n]) && Does(run[n], steps[n], run[n + 1])
    ensures var s, s' := run[n], run[n + 1];
            && (id in s.rows ==>
                  && id in s'.rows && id in s.calls && id in s'.calls && id in s.successes && id in s'.successes
                  && id in s.aborts && id in s'.aborts
                  && s'.calls[id] == s.calls[id] + One(CallsFor(run, steps, n, id, false))
                  && s'.successes[id] == s.successes[id] + One(CallsFor(run, steps, n, id, true))
                  && s'.aborts[id] == s.aborts[id] + One(Aborts(run, steps, n, id)))
            && (id !in s.rows ==>
                  && !CallsFor(run, steps, n, id, false) && !CallsFor(run, steps, n, id, true)
                  && !Aborts(run, steps, n, id))
            && (id !in s.rows && id in s'.rows ==>
                  && id in s'.calls && id in s'.successes && id in s'.aborts
                  && s'.calls[id] == s'.successes[id] == s'.aborts[id] == 0)
  {
    if steps[n].Commit? { CommitKeys(run[n], steps[n], run[n + 1]); }
    hide Settle, Accounted, RowOk, Exclusive;
  }

  // -------------------------------------------------------------- the pauses kept

  /** What a delivery makes of a row in a batch that began at `start`: delivered; or one
      attempt more and dead; or one attempt more and due 2^(a+1) minutes after the start
      when `a` attempts failed before, 2^a for a notification, while that fits. */
  ghost predicate RowAfter(policy: Policy, j: Job, ok: bool, start: int, j': Job) {
    && j'.maxAttempts == j.maxAttempts
    && (ok ==> j'.status == Delivered && j'.attempts == j.attempts && j'.runAt == j.runAt)
    && (!ok ==> j'.attempts == j.attempts + 1)
    && (!ok && j.attempts + 1 >= j.maxAttempts ==> j'.status == Dead && j'.runAt == j.runAt)
    && (!ok && j.attempts + 1 < j.maxAttempts ==> j'.status == j.status)
    && (!ok && j.attempts + 1 < j.maxAttempts && policy == Jobs && j.attempts <= 26 ==>
          j'.runAt == start + Pow2(j.attempts + 1) * 60_000_000_000)
    && (!ok && j.attempts + 1 < j.maxAttempts && policy == Notify && j.attempts <= 27 ==>
          j'.runAt == start + Pow2(j.attempts) * 60_000_000_000)
  }

  lemma SettledIs(policy: Policy, j: Job, ok: bool, start: int)
    ensures RowAfter(policy, j, ok, start, Settled(policy, j, ok, start))
  {
    BackoffExactIff(policy, j.attempts);
    hide Backoff, Pow2;
  }

  /** Each row after a commit, read off the batch: as it was if not in the batch, else
      what the delivery's outcome makes of it. */
  lemma CommitSets(s: State, step: Step, s': State, id: nat)
    requires Inv(s) && step.Commit? && Does(s, step, s') && id in s.rows
    ensures id in s'.rows
    ensures !Claimed(s.batches[step.worker], id) ==> s'.rows[id] == s.rows[id]
    ensures Claimed(s.batches[step.worker], id) ==>
              && s.rows[id].status == Pending && s.rows[id].runAt <= s.batches[step.worker].start
              && RowAfter(s.policy, s.rows[id], CalledOk(s, step.worker, id), s.batches[step.worker].start, s'.rows[id])
  {
    CommitRows(s, step, s', id);
    hide RowAfter, Settled, Does, Inv;
    if Claimed(s.batches[step.worker], id) {
      SettledIs(s.policy, s.rows[id], CalledOk(s, step.worker, id), s.batches[step.worker].start);
    }
  }

  /** Only an enqueue and a commit change rows. */
  lemma RowsKept(s: State, step: Step, s': State, id: nat)
    requires Does(s, step, s') && !step.Commit? && id in s.rows
    ensures id in s'.rows && s'.rows[id] == s.rows[id] && s'.policy == s.policy
  {}

  lemma NewRow(s: State, step: Step, s': State, id: nat)
    requires Inv(s) && Does(s, step, s') && id in s'.rows && id !in s.rows
    ensures step.Enqueue? && step.id == id
    ensures s'.rows[id] == Job(Pending, 0, if s.policy == Notify || step.maxAttempts <= 0 then 5 else step.maxAttempts,
                               step.runAt)
  {
    if step.Commit? { CommitKeys(s, step, s'); }
  }

  /** Step `k` commits a failed delivery of the item, after `a` failures before. */
  ghost predicate FailsAt(run: seq<State>, steps: seq<Step>, k: nat, id: nat, a: nat)
    requires |run| == |steps| + 1
  {
    && k < |steps| && steps[k].Commit? && steps[k].worker in run[k].batches
    && Claimed(run[k].batches[steps[k].worker], id) && !CalledOk(run[k], steps[k].worker, id)
    && id in run[k].rows && run[k].rows[id].attempts == a
  }

  /** When the batch that step `k` commits began. */
  ghost function StartOf(run: seq<State>, steps: seq<Step>, k: nat): int
    requires |run| == |steps| + 1 && k < |steps| && steps[k].Commit? && steps[k].worker in run[k].batches
  {
    run[k].batches[steps[k].worker].start
  }

  lemma {:induction false} PolicyStays(run: seq<State>, steps: seq<Step>, i: nat)
    requires IsRun(run, steps) && i <= |steps|
    ensures run[i].policy == run[0].policy
  {
    if i > 0 {
      PolicyStays(run, steps, i - 1);
      assert Follows(run, steps, i - 1);
    }
  }

  /** The attempt bound of a row never changes, and while no pause overflows the time it
      is due only moves on. */
  lemma {:induction false} DueMovesOn(run: seq<State>, steps: seq<Step>, i: nat, j: nat, id: nat)
    requires IsRun(run, steps) && i <= j <= |steps| && id in run[i].rows && run[i].rows[id].maxAttempts <= 28
    ensures id in run[j].rows && run[j].rows[id].maxAttempts == run[i].rows[id].maxAttempts
    ensures run[i].rows[id].runAt <= run[j].rows[id].runAt
    decreases j
  {
    if i < j {
      DueMovesOn(run, steps, i, j - 1, id);
      DueStep(run, steps, j - 1, id);
    }
  }

  lemma DueStep(run: seq<State>, steps: seq<Step>, i: nat, id: nat)
    requires IsRun(run, steps) && i < |steps| && id in run[i].rows && run[i].rows[id].maxAttempts <= 28
    ensures id in run[i + 1].rows && run[i + 1].rows[id].maxAttempts == run[i].rows[id].maxAttempts
    ensures run[i].rows[id].runAt <= run[i + 1].rows[id].runAt
  {
    ReachableInv(run, steps, i);
    assert Follows(run, steps, i);
    hide Does, Inv, IsRun, CalledOk, Claimed;
    if steps[i].Commit? {
      CommitSets(run[i], steps[i], run[i + 1], id);
    } else {
      RowsKept(run[i], steps[i], run[i + 1], id);
    }
  }

  /** After a committed failure that leaves the item pending no batch takes it before its
      pause is over: 2^(a+1) minutes from the start of the failed batch, 2^a for a
      notification, with `a` failures before. */
  lemma NotTakenBefore(run: seq<State>, steps: seq<Step>, k: nat, j: nat, id: nat, a: nat)
    requires IsRun(run, steps) && k < j < |steps| && FailsAt(run, steps, k, id, a)
    requires id in run[k + 1].rows && run[k + 1].rows[id].status == Pending && run[k].rows[id].maxAttempts <= 28
    requires steps[j].ClaimBatch? && exists i :: 0 <= i < |steps[j].claims| && steps[j].claims[i].id == id
    ensures run[0].policy == Jobs ==>
              steps[j].now >= StartOf(run, steps, k) + Pow2(a + 1) * 60_000_000_000
    ensures run[0].policy == Notify ==>
              steps[j].now >= StartOf(run, steps, k) + Pow2(a) * 60_000_000_000
  {
    ReachableInv(run, steps, k);
    assert Follows(run, steps, k) && Follows(run, steps, j);
    PolicyStays(run, steps, k);
    ClaimedWhenDue(run[j], steps[j], run[j + 1], id);
    CommitSets(run[k], steps[k], run[k + 1], id);
    hide Does, Inv, IsRun, CalledOk, Claimed, Pow2;
    DueMovesOn(run, steps, k + 1, j, id);
  }

  lemma ClaimedWhenDue(s: State, step: Step, s': State, id: nat)
    requires step.ClaimBatch? && Does(s, step, s')
    requires exists i :: 0 <= i < |step.claims| && step.claims[i].id == id
    ensures id in s.rows && s.rows[id].status == Pending && s.rows[id].runAt <= step.now
  {}

  /** Minutes that the first `a` pauses of an item add up to: 2^(a+1) - 2 for a job,
      2^a - 1 for a notification. */
  function PausesSoFar(policy: Policy, a: nat): int {
    if policy == Jobs then Pow2(a + 1) - 2 else Pow2(a) - 1
  }

  /** A failure after `a` others in a batch that began when the item was due, or was the
      first to fail. */
  lemma OnePauseMore(policy: Policy, a: nat, j: Job, j': Job, start: int, first: int)
    requires j.status == Pending && j.attempts == a && j.maxAttempts <= 28 && j.runAt <= start
    requires RowAfter(policy, j, false, start, j')
    requires if a == 0 then first == start else j.runAt >= first + PausesSoFar(policy, a) * MINUTE
    ensures start >= first + PausesSoFar(policy, a) * MINUTE
    ensures j'.status == Pending ==> j'.runAt >= first + PausesSoFar(policy, a + 1) * MINUTE
  {
    assert PausesSoFar(policy, 0) == 0;
    assert PausesSoFar(policy, a + 1) == PausesSoFar(policy, a) + if policy == Jobs then Pow2(a + 1) else Pow2(a);
  }

  /** An item that has failed has a first failure; while it is pending it is due no earlier
      than all its pauses after that, and if it is dead it died no earlier. */
  lemma {:induction false} PausesAddUp(run: seq<State>, steps: seq<Step>, n: nat, id: nat) returns (k: nat, l: nat)
    requires IsRun(run, steps) && n <= |steps| && id in run[n].rows
    requires 1 <= run[n].rows[id].attempts && run[n].rows[id].maxAttempts <= 28
    ensures k <= l < n && FailsAt(run, steps, k, id, 0)
    ensures var j, policy := run[n].rows[id], run[0].policy;
            && FailsAt(run, steps, l, id, j.attempts - 1)
            && StartOf(run, steps, l) >= StartOf(run, steps, k) + PausesSoFar(policy, j.attempts - 1) * MINUTE
            && (j.status == Pending ==>
                  j.runAt >= StartOf(run, steps, k) + PausesSoFar(policy, j.attempts) * MINUTE)
    decreases n, 0
  {
    RowBefore(run, steps, n, id);
    hide *;
    if FailsAt(run, steps, n - 1, id, run[n - 1].rows[id].attempts) {
      k, l := FailedNow(run, steps, n - 1, id);
    } else {
      k, l := PausesAddUp(run, steps, n - 1, id);
    }
  }

  /** An item that has failed was there before the last step, which failed it or left it
      as it was, but for a delivery. */
  lemma RowBefore(run: seq<State>, steps: seq<Step>, n: nat, id: nat)
    requires IsRun(run, steps) && n <= |steps| && id in run[n].rows && 1 <= run[n].rows[id].attempts
    ensures n > 0 && id in run[n - 1].rows && run[n - 1].rows[id].maxAttempts == run[n].rows[id].maxAttempts
    ensures !FailsAt(run, steps, n - 1, id, run[n - 1].rows[id].attempts) ==>
              && run[n].rows[id].attempts == run[n - 1].rows[id].attempts
              && (run[n].rows[id].status == Pending ==>
                    run[n - 1].rows[id].status == Pending && run[n].rows[id].runAt == run[n - 1].rows[id].runAt)
  {
    ReachableInv(run, steps, n - 1);
    assert Follows(run, steps, n - 1);
    var s, step := run[n - 1], steps[n - 1];
    if id !in s.rows {
      NewRow(s, step, run[n], id);
    } else {
      KnownWorker(s, step, run[n]);
      hide Does, Inv, Claimed, CalledOk;
      if step.Commit? { CommitSets(s, step, run[n], id); } else { RowsKept(s, step, run[n], id); }
    }
  }

  lemma KnownWorker(s: State, step: Step, s': State)
    requires Does(s, step, s')
    ensures step.Commit? ==> step.worker in s.batches
  {}

  /** The inductive step: the failure that step `m` commits. */
  lemma {:induction false} FailedNow(run: seq<State>, steps: seq<Step>, m: nat, id: nat) returns (k: nat, l: nat)
    requires IsRun(run, steps) && m < |steps| && id in run[m].rows && id in run[m + 1].rows
    requires run[m + 1].rows[id].maxAttempts <= 28
    requires FailsAt(run, steps, m, id, run[m].rows[id].attempts)
    ensures k <= l == m && FailsAt(run, steps, k, id, 0)
    ensures var j, policy := run[m + 1].rows[id], run[0].policy;
            && j.attempts == run[m].rows[id].attempts + 1
            && StartOf(run, steps, m) >= StartOf(run, steps, k) + PausesSoFar(policy, j.attempts - 1) * MINUTE
            && (j.status == Pending ==>
                  j.runAt >= StartOf(run, steps, k) + PausesSoFar(policy, j.attempts) * MINUTE)
    decreases m, 1
  {
    ReachableInv(run, steps, m);
    assert Follows(run, steps, m);
    PolicyStays(run, steps, m);
    CommitSets(run[m], steps[m], run[m + 1], id);
    assert RowOk(run[m].rows[id]);
    var j, j', start := run[m].rows[id], run[m + 1].rows[id], StartOf(run, steps, m);
    assert j'.attempts == j.attempts + 1 && j'.maxAttempts == j.maxAttempts;
    hide *;
    l, k := m, m;
    if j.attempts > 0 {
      var l0;
      k, l0 := PausesAddUp(run, steps, m, id);
    }
    OnePauseMore(run[0].policy, j.attempts, j, j', start, StartOf(run, steps, k));
  }

  /** So a dead item of several attempts died in a batch that began no earlier than 2^max - 2
      minutes after the one of its first failure, a notification no earlier than 15. */
  lemma DeadNoEarlier(run: seq<State>, steps: seq<Step>, n: nat, id: nat) returns (k: nat, l: nat)
    requires IsRun(run, steps) && n <= |steps| && id in run[n].rows
    requires run[n].rows[id].status == Dead && 1 <= run[n].rows[id].maxAttempts <= 28
    ensures k <= l < n && FailsAt(run, steps, k, id, 0)
    ensures var max := run[n].rows[id].maxAttempts;
            && FailsAt(run, steps, l, id, max - 1)
            && (run[0].policy == Jobs ==>
                  StartOf(run, steps, l) >= StartOf(run, steps, k) + (Pow2(max) - 2) * 60_000_000_000)
            && (run[0].policy == Notify ==>
                  && max == 5
                  && StartOf(run, steps, l) >= StartOf(run, steps, k) + 15 * 60_000_000_000)
  {
    ReachableInv(run, steps, n);
    assert RowOk(run[n].rows[id]);
    k, l := PausesAddUp(run, steps, n, id);
    if run[0].policy == Notify { NotifyBound(run, steps, n, id); }
    assert Pow2(4) == 16;
  }

  lemma {:induction false} NotifyBound(run: seq<State>, steps: seq<Step>, n: nat, id: nat)
    requires IsRun(run, steps) && n <= |steps| && id in run[n].rows && run[0].policy == Notify
    ensures run[n].rows[id].maxAttempts == 5
    decreases n
  {
    if n > 0 {
      ReachableInv(run, steps, n - 1);
      assert Follows(run, steps, n - 1);
      PolicyStays(run, steps, n - 1);
      hide Inv, IsRun;
      if id in run[n - 1].rows {
        NotifyBound(run, steps, n - 1, id);
        if steps[n - 1].Commit? {
          CommitSets(run[n - 1], steps[n - 1], run[n], id);
        } else {
          RowsKept(run[n - 1], steps[n - 1], run[n], id);
        }
      } else {
        NewRow(run[n - 1], steps[n - 1], run[n], id);
      }
    }
  }

  // ----------------------------------------------------------------- termination

  /** Attempts that may still be made for a row. */
  function Left(j: Job): nat {
    if j.status == Pending && j.attempts < j.maxAttempts then j.maxAttempts - j.attempts else 0
  }

  /** Attempts left over all rows. */
  ghost function TotalLeft(rows: Table): nat {
    if rows == map[] then 0
    else
      var id :| id in rows;
      Left(rows[id]) + TotalLeft(rows - {id})
  }

  lemma {:induction false} TotalLeftWithout(rows: Table, id: nat)
    requires id in rows
    ensures TotalLeft(rows) == Left(rows[id]) + TotalLeft(rows - {id})
    decreases |rows|
  {
    var first :| id in rows && first in rows && TotalLeft(rows) == Left(rows[first]) + TotalLeft(rows - {first});
    if first != id {
      TotalLeftWithout(rows - {first}, id);
      TotalLeftWithout(rows - {id}, first);
      assert rows - {first} - {id} == rows - {id} - {first};
    }
  }

  lemma TotalLeftUpdate(rows: Table, id: nat, j: Job)
    requires id in rows
    ensures TotalLeft(rows[id := j]) + Left(rows[id]) == TotalLeft(rows) + Left(j)
  {
    TotalLeftWithout(rows, id);
    TotalLeftWithout(rows[id := j], id);
    assert rows[id := j] - {id} == rows - {id};
  }

  lemma {:induction false} SettleSpends(policy: Policy, rows: Table, claims: seq<Claim>, outcomes: seq<bool>, now: int)
    requires BatchOk(rows, Batch(claims, outcomes, now)) && forall id :: id in rows ==> RowOk(rows[id])
    ensures TotalLeft(Settle(policy, rows, claims, outcomes, now)) + |outcomes| <= TotalLeft(rows)
    decreases |outcomes|
  {
    if outcomes != [] {
      var n := |outcomes| - 1;
      var c := claims[n];
      SettleSpends(policy, rows, claims, outcomes[..n], now);
      SettleAt(policy, rows, claims, outcomes[..n], now, c.id);
      var before := Settle(policy, rows, claims, outcomes[..n], now);
      assert Get(before, c.id) == Get(rows, c.id);
      TotalLeftUpdate(before, c.id, Settled(policy, c.row, outcomes[n], now));
    }
  }

  /** Each committed outcome uses up at least one remaining attempt, so without
      new items only finitely many can follow. */
  lemma CommitSpends(s: State, step: Step, s': State)
    requires Inv(s) && step.Commit? && Does(s, step, s')
    ensures TotalLeft(s'.rows) + |s.batches[step.worker].claims| <= TotalLeft(s.rows)
  {
    var b := s.batches[step.worker];
    assert BatchOk(s.rows, b) && b == Batch(b.claims, b.outcomes, b.start);
    SettleSpends(s.policy, s.rows, b.claims, b.outcomes, b.start);
  }

  lemma {:induction false} SettlesEach(policy: Policy, rows: Table, claims: seq<Claim>, outcomes: seq<bool>, now: int)
    requires |outcomes| <= |claims| && forall i, j :: 0 <= i < j < |claims| ==> claims[i].id < claims[j].id
    ensures var after := Settle(policy, rows, claims, outcomes, now);
            forall i :: 0 <= i < |outcomes| ==>
              claims[i].id in after && RowAfter(policy, claims[i].row, outcomes[i], now, after[claims[i].id])
    decreases |outcomes|
  {
    if outcomes != [] {
      var n := |outcomes| - 1;
      SettlesEach(policy, rows, claims, outcomes[..n], now);
      SettledIs(policy, claims[n].row, outcomes[n], now);
      hide RowAfter, Settled;
    }
  }

  // ------------------------------------------------------------- one batch, in code

  class Queue {
    const policy: Policy
    var rows: Table

    constructor (policy: Policy)
      ensures this.policy == policy && rows == map[]
    {
      this.policy, rows := policy, map[];
    }

    /** One round of a worker: `claims` is what the locking query returned, the
        outcomes are the webhook's, `commits` says whether the transaction lives
        to the end. The committed table is the settled one. */
    method DeliverBatch(claims: seq<Claim>, outcomes: seq<bool>, now: int, commits: bool)
      requires |outcomes| == |claims|
      modifies this`rows
      ensures rows == if commits then Settle(policy, old(rows), claims, outcomes, now) else old(rows)
      ensures commits && (forall i, j :: 0 <= i < j < |claims| ==> claims[i].id < claims[j].id) ==>
                forall i :: 0 <= i < |claims| ==>
                  claims[i].id in rows && RowAfter(policy, claims[i].row, outcomes[i], now, rows[claims[i].id])
    {
      var tx := rows;
      for i := 0 to |claims|
        invariant tx == Settle(policy, old(rows), claims, outcomes[..i], now)
      {
        assert outcomes[..i + 1][..i] == outcomes[..i];
        var j := claims[i].row;
        var bound := j.maxAttempts;
        if outcomes[i] {
          j := j.(status := Delivered);
        } else if j.attempts + 1 >= bound {
          j := j.(status := Dead, attempts := j.attempts + 1);
        } else {
          j := j.(runAt := now + Backoff(policy, j.attempts), attempts := j.attempts + 1);
        }
        tx := tx[claims[i].id := j];
      }
      assert outcomes[..|claims|] == outcomes;
      if commits {
        rows := tx;
        if forall i, j :: 0 <= i < j < |claims| ==> claims[i].id < claims[j].id {
          SettlesEach(policy, old(rows), claims, outcomes, now);
        }
      }
    }
  }
}
