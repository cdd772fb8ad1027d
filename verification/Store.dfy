/** The tables of svc-data and the handlers that change them: upsert, reindex,
    purge, delete and batch ingest (services/svc-data/db.go, ingest.go, admin.go). */
module Store {
  import opened Prelude
  import opened JsonDoc
  import opened Rules
  import opened Filter
  import opened Query

  datatype RecordKey = RecordKey(dataset: string, pk: string)
  datatype Record = Record(payload: Json, updatedAt: int)
  datatype Dataset = Dataset(pkField: string, rules: seq<Rule>, enabled: bool, retentionDays: int)

  datatype DeliveryKey = DeliveryKey(dataset: string, delivery: string)
  datatype Rejection = MissingPk | DbError(pk: string)
  datatype IngestResult = IngestResult(accepted: nat, rejected: seq<Rejection>)
  datatype Delivery = Delivery(result: IngestResult, createdAt: int)

  /** What a key's index rows were extracted from. */
  datatype Extraction = Extraction(rules: seq<Rule>, payload: Json)

  /** The tables, with a history: `built` says what each key's index rows were last
      extracted from. A purge that stops half-way leaves entries without a record. */
  datatype State = State(
    datasets: map<string, Dataset>,
    records: map<RecordKey, Record>,
    index: Index,
    deliveries: map<DeliveryKey, Delivery>,
    built: map<RecordKey, Extraction>)

  const DAY: int := 86_400_000_000

  function Owner(ik: IndexKey): RecordKey { RecordKey(ik.dataset, ik.pk) }

  function RowAt(rules: seq<Rule>, payload: Json, ik: IndexKey): Option<Cell> {
    Get(RowsOf(rules, payload), (ik.field, ik.k))
  }

  // ---------------------------------------------------------------- invariant

  /** The index row a key should have. */
  function Expected(s: State, ik: IndexKey): Option<Cell> {
    if Owner(ik) in s.built then RowAt(s.built[Owner(ik)].rules, s.built[Owner(ik)].payload, ik) else None
  }

  /** Each record's rows are the last-wins extraction of its payload under the rules
      of its latest upsert or reindex; a row without a record is one that the record
      had when an unfinished purge deleted it. */
  ghost predicate Consistent(s: State) {
    && (forall rk :: rk in s.records ==> rk in s.built && s.built[rk].payload == s.records[rk].payload)
    && (forall ik :: Get(s.index, ik) == Expected(s, ik))
    && (forall id :: id in s.datasets ==> ValidRules(s.datasets[id].rules))
    && (forall rk :: rk in s.built ==> ValidRules(s.built[rk].rules))
  }

  /** Keys whose rows outlived their record. */
  function Orphans(s: State): set<RecordKey> { s.built.Keys - s.records.Keys }

  // -------------------------------------------------------------------- steps

  /** One item of a batch: its payload, whether its transaction commits, and when. */
  datatype Item = Item(payload: Json, dbOk: bool, at: int)

  datatype Response = NotFound | Unauthorized | Malformed | Answered(result: IngestResult)

  /** What an administrator sends; an empty key field or an absent setting keeps the
      default, or on an edit the stored value. */
  datatype DatasetInput = DatasetInput(pkField: string, rules: seq<Rule>, enabled: Option<bool>,
    retentionDays: Option<int>)

  /** Purge and delete are several statements; `stop` says after how many of the three
      they end, all of them unless a statement fails or the client goes away. An ingest
      may fail to look its delivery id up (`looks`) or to record it (`saves`). */
  datatype Step =
    | Create(id: string, input: DatasetInput)
    | Edit(id: string, input: DatasetInput)
    | Reindex(id: string, commits: bool)
    | Purge(id: string, now: int, later: int, stop: nat)
    | Delete(id: string, purge: bool, stop: nat)
    | Ingest(id: string, signed: bool, delivery: string, items: Option<seq<Item>>, now: int, looks: bool,
        saves: bool)

  function ItemPk(env: Env, payload: Json, pkField: string): Option<string> {
    match AsDoc(payload)
    case None => None
    case Some(m) =>
      match ValueAt(Obj(m), Segments(pkField))
      case Str(s) => if s == "" then None else Some(s)
      case Number(r) => Some(env.formatNum(r))
      case _ => None
  }

  /** The last of the first `n` items that was accepted for primary key `pk`. */
  function LastAccepted(env: Env, items: seq<Item>, n: nat, pkField: string, pk: string): (r: Option<nat>)
    requires n <= |items|
    ensures r.Some? ==> r.value < n && items[r.value].dbOk && ItemPk(env, items[r.value].payload, pkField) == Some(pk)
  {
    if n == 0 then None
    else if items[n - 1].dbOk && ItemPk(env, items[n - 1].payload, pkField) == Some(pk) then Some(n - 1)
    else LastAccepted(env, items, n - 1, pkField, pk)
  }

  /** What the sender is told about the first `n` items. */
  function Tally(env: Env, items: seq<Item>, n: nat, pkField: string): (r: IngestResult)
    requires n <= |items|
    ensures r.accepted + |r.rejected| == n
  {
    if n == 0 then IngestResult(0, [])
    else
      var r := Tally(env, items, n - 1, pkField);
      match ItemPk(env, items[n - 1].payload, pkField)
      case None => r.(rejected := r.rejected + [MissingPk])
      case Some(pk) => if items[n - 1].dbOk then r.(accepted := r.accepted + 1)
        else r.(rejected := r.rejected + [DbError(pk)])
  }

  /** The item that a key holds after the first `n` of a batch for dataset `id`. */
  function Latest(env: Env, id: string, d: Dataset, items: seq<Item>, n: nat, rk: RecordKey): Option<Item>
    requires n <= |items|
  {
    if rk.dataset != id then None
    else
      match LastAccepted(env, items, n, d.pkField, rk.pk)
      case None => None
      case Some(i) => Some(items[i])
  }

  /** The first `n` items of a batch have been written: each key holds its last
      accepted item, other keys are untouched. */
  ghost predicate Written(env: Env, s: State, id: string, d: Dataset, items: seq<Item>, n: nat, s': State)
    requires n <= |items|
  {
    && s'.datasets == s.datasets && s'.deliveries == s.deliveries
    && (forall rk :: Get(s'.records, rk) ==
          match Latest(env, id, d, items, n, rk) case Some(item) => Some(Record(item.payload, item.at))
            case None => Get(s.records, rk))
    && (forall rk :: Get(s'.built, rk) ==
          match Latest(env, id, d, items, n, rk) case Some(item) => Some(Extraction(d.rules, item.payload))
            case None => Get(s.built, rk))
    && (forall ik :: Get(s'.index, ik) ==
          match Latest(env, id, d, items, n, Owner(ik)) case Some(item) => RowAt(d.rules, item.payload, ik)
            case None => Get(s.index, ik))
  }

  /** The result is recorded under the delivery id, unless one is recorded already. */
  function Noted(deliveries: map<DeliveryKey, Delivery>, b: Step, result: IngestResult): map<DeliveryKey, Delivery>
    requires b.Ingest?
  {
    var dk := DeliveryKey(b.id, b.delivery);
    if b.delivery == "" || !b.saves || dk in deliveries then deliveries
    else deliveries[dk := Delivery(result, b.now)]
  }

  ghost predicate Ingests(env: Env, s: State, b: Step, s': State, r: Response)
    requires b.Ingest?
  {
    if b.id !in s.datasets || !s.datasets[b.id].enabled then s' == s && r == NotFound
    else if !b.signed then s' == s && r == Unauthorized
    else if b.delivery != "" && b.looks && DeliveryKey(b.id, b.delivery) in s.deliveries then
      s' == s && r == Answered(s.deliveries[DeliveryKey(b.id, b.delivery)].result)
    else if b.items.None? then s' == s && r == Malformed
    else
      var d, items := s.datasets[b.id], b.items.value;
      var result := Tally(env, items, |items|, d.pkField);
      && r == Answered(result)
      && s'.deliveries == Noted(s.deliveries, b, result)
      && Written(env, s, b.id, d, items, |items|, s'.(deliveries := s.deliveries))
  }

  /** One record overwritten, with its index rows rebuilt under the rules. */
  ghost predicate Upserted(s: State, rk: RecordKey, payload: Json, rules: seq<Rule>, at: int, s': State) {
    && s' == s.(records := s.records[rk := Record(payload, at)], built := s.built[rk := Extraction(rules, payload)],
      index := s'.index)
    && forall ik :: Get(s'.index, ik) == if Owner(ik) == rk then RowAt(rules, payload, ik) else Get(s.index, ik)
  }

  lemma OneMoreWritten(env: Env, s: State, id: string, d: Dataset, items: seq<Item>, i: nat, mid: State, s': State)
    requires i < |items| && Written(env, s, id, d, items, i, mid)
    requires ItemPk(env, items[i].payload, d.pkField).Some? && items[i].dbOk
    requires Upserted(mid, RecordKey(id, ItemPk(env, items[i].payload, d.pkField).value), items[i].payload, d.rules,
      items[i].at, s')
    ensures Written(env, s, id, d, items, i + 1, s')
  {
    var p := ItemPk(env, items[i].payload, d.pkField).value;
    forall rk
      ensures Latest(env, id, d, items, i + 1, rk) == if rk == RecordKey(id, p) then Some(items[i])
        else Latest(env, id, d, items, i, rk)
    {
      assert rk == RecordKey(rk.dataset, rk.pk);
    }
    hide Latest, ItemPk, RowAt;
    forall rk: RecordKey
      ensures Get(s'.records, rk) == if rk == RecordKey(id, p) then Some(Record(items[i].payload, items[i].at))
        else Get(mid.records, rk)
      ensures Get(s'.built, rk) == if rk == RecordKey(id, p) then Some(Extraction(d.rules, items[i].payload))
        else Get(mid.built, rk)
    {}
  }

  lemma NothingWritten(env: Env, s: State, id: string, d: Dataset, items: seq<Item>)
    ensures Written(env, s, id, d, items, 0, s)
  {}

  lemma OneMoreSkipped(env: Env, s: State, id: string, d: Dataset, items: seq<Item>, i: nat, s': State)
    requires i < |items| && Written(env, s, id, d, items, i, s')
    requires ItemPk(env, items[i].payload, d.pkField).None? || !items[i].dbOk
    ensures Written(env, s, id, d, items, i + 1, s')
  {
    assert forall rk :: Latest(env, id, d, items, i + 1, rk) == Latest(env, id, d, items, i, rk);
    hide Latest, RowAt;
  }

  /** The dataset's rows deleted, and inserted again for the records in `done`. */
  ghost predicate PartlyReindexed(s: State, id: string, rules: seq<Rule>, done: set<RecordKey>, s': State) {
    && s' == s.(index := s'.index, built := s'.built)
    && (forall rk :: Get(s'.built, rk) ==
          if rk.dataset != id then Get(s.built, rk)
          else if rk in done && rk in s.records then Some(Extraction(rules, s.records[rk].payload)) else None)
    && (forall ik :: Get(s'.index, ik) ==
          if ik.dataset != id then Get(s.index, ik)
          else if Owner(ik) in done && Owner(ik) in s.records then RowAt(rules, s.records[Owner(ik)].payload, ik)
            else None)
  }

  lemma OneMoreReindexed(s: State, id: string, rules: seq<Rule>, done: set<RecordKey>, rk: RecordKey, mid: State,
      s': State)
    requires PartlyReindexed(s, id, rules, done, mid)
    requires rk in s.records && rk.dataset == id && rk !in done
    requires s' == mid.(index := s'.index, built := mid.built[rk := Extraction(rules, s.records[rk].payload)])
    requires forall ik :: Get(s'.index, ik) ==
               if Owner(ik) == rk && RowAt(rules, s.records[rk].payload, ik).Some?
                 then RowAt(rules, s.records[rk].payload, ik) else Get(mid.index, ik)
    ensures PartlyReindexed(s, id, rules, done + {rk}, s')
  {}

  /** Each record of the dataset now has the rows of the current rules. */
  ghost predicate Reindexed(s: State, id: string, rules: seq<Rule>, s': State) {
    && s' == s.(index := s'.index, built := s'.built)
    && (forall rk :: Get(s'.built, rk) ==
          if rk.dataset != id then Get(s.built, rk)
          else if rk in s.records then Some(Extraction(rules, s.records[rk].payload)) else None)
    && (forall ik :: Get(s'.index, ik) ==
          if ik.dataset != id then Get(s.index, ik)
          else if Owner(ik) in s.records then RowAt(rules, s.records[Owner(ik)].payload, ik) else None)
  }

  lemma NoneReindexed(s: State, id: string, rules: seq<Rule>, s': State)
    requires s' == s.(index := map ik | ik in s.index && ik.dataset != id :: s.index[ik],
                      built := map rk | rk in s.built && rk.dataset != id :: s.built[rk])
    ensures PartlyReindexed(s, id, rules, {}, s')
  {}

  lemma AllReindexed(s: State, id: string, rules: seq<Rule>, done: set<RecordKey>, s': State)
    requires PartlyReindexed(s, id, rules, done, s') && done == set rk | rk in s.records && rk.dataset == id
    ensures Reindexed(s, id, rules, s')
  {}

  predicate Expired(d: Dataset, at: int, now: int) { at < now - d.retentionDays * DAY }

  function LiveRecords(records: map<RecordKey, Record>, id: string, d: Dataset, now: int): map<RecordKey, Record> {
    map rk | rk in records && !(rk.dataset == id && Expired(d, records[rk].updatedAt, now)) :: records[rk]
  }

  function RowsWithRecord(index: Index, records: map<RecordKey, Record>, id: string): Index {
    map ik | ik in index && !(ik.dataset == id && Owner(ik) !in records) :: index[ik]
  }

  function BuiltWithRecord(built: map<RecordKey, Extraction>, records: map<RecordKey, Record>, id: string)
      : map<RecordKey, Extraction> {
    map rk | rk in built && !(rk.dataset == id && rk !in records) :: built[rk]
  }

  function LiveDeliveries(deliveries: map<DeliveryKey, Delivery>, id: string, d: Dataset, now: int)
      : map<DeliveryKey, Delivery> {
    map dk | dk in deliveries && !(dk.dataset == id && Expired(d, deliveries[dk].createdAt, now)) :: deliveries[dk]
  }

  /** The first statement deletes the expired records, the second the rows left without
      a record, the third the expired deliveries. */
  ghost predicate Purged(s: State, id: string, d: Dataset, now: int, later: int, stop: nat, s': State) {
    var live := LiveRecords(s.records, id, d, now);
    s' == if stop == 0 then s
          else if stop == 1 then s.(records := live)
          else s.(records := live,
                  index := RowsWithRecord(s.index, live, id),
                  built := BuiltWithRecord(s.built, live, id),
                  deliveries := if stop == 2 then s.deliveries else LiveDeliveries(s.deliveries, id, d, later))
  }

  ghost predicate Emptied(s: State, id: string, s': State) {
    && s'.datasets == s.datasets && s'.deliveries == s.deliveries
    && s'.records == (map rk | rk in s.records && rk.dataset != id :: s.records[rk])
    && s'.built == (map rk | rk in s.built && rk.dataset != id :: s.built[rk])
    && s'.index == (map ik | ik in s.index && ik.dataset != id :: s.index[ik])
  }

  function Created(input: DatasetInput): Dataset {
    Dataset(
      if input.pkField == "" then "id" else input.pkField,
      input.rules,
      true,
      if input.retentionDays.Some? && input.retentionDays.value >= 0 then input.retentionDays.value else 0)
  }

  function Edited(d: Dataset, input: DatasetInput): Dataset {
    Dataset(
      if input.pkField == "" then d.pkField else input.pkField,
      input.rules,
      if input.enabled.Some? then input.enabled.value else d.enabled,
      if input.retentionDays.Some? && input.retentionDays.value >= 0 then input.retentionDays.value
        else d.retentionDays)
  }

  ghost predicate Does(env: Env, s: State, step: Step, s': State) {
    match step
    case Create(id, input) =>
      s' == if id != "" && ValidRules(input.rules) && id !in s.datasets
        then s.(datasets := s.datasets[id := Created(input)]) else s
    case Edit(id, input) =>
      s' == if ValidRules(input.rules) && id in s.datasets
        then s.(datasets := s.datasets[id := Edited(s.datasets[id], input)]) else s
    case Reindex(id, commits) =>
      if id in s.datasets && commits then Reindexed(s, id, s.datasets[id].rules, s') else s' == s
    case Purge(id, now, later, stop) =>
      if id in s.datasets && s.datasets[id].retentionDays > 0 then Purged(s, id, s.datasets[id], now, later, stop, s')
        else s' == s
    case Delete(id, purge, stop) =>
      // rows, records, dataset; taking all rows is reindexing under no rules
      var kept := s'.(datasets := s.datasets);
      && s'.datasets == (if stop >= 3 then s.datasets - {id} else s.datasets)
      && if !purge || stop == 0 then kept == s else if stop == 1 then Reindexed(s, id, [], kept)
        else Emptied(s, id, kept)
    case Ingest(_, _, _, _, _, _, _) => exists r :: Ingests(env, s, step, s', r)
  }

  const EMPTY := State(map[], map[], map[], map[], map[])

  /** `run` is a history of the tables: it starts empty and each state follows
      from the one before by the corresponding step. */
  ghost predicate IsRun(env: Env, run: seq<State>, steps: seq<Step>) {
    && |run| == |steps| + 1 && run[0] == EMPTY
    && forall i :: 0 <= i < |steps| ==> Does(env, run[i], steps[i], run[i + 1])
  }

  // ------------------------------------------------- the invariant is preserved

  lemma WrittenKeepsConsistent(env: Env, s: State, id: string, d: Dataset, items: seq<Item>, s': State)
    requires Consistent(s) && ValidRules(d.rules) && Written(env, s, id, d, items, |items|, s')
    ensures Consistent(s')
  {
    forall rk | rk in s'.records ensures rk in s'.built && s'.built[rk].payload == s'.records[rk].payload {
      assert Get(s'.built, rk) == Get(s'.built, rk) && Get(s'.records, rk) == Get(s'.records, rk);
    }
    forall rk | rk in s'.built ensures ValidRules(s'.built[rk].rules) {
      assert Get(s'.built, rk) == Get(s'.built, rk);
    }
    forall ik ensures Get(s'.index, ik) == Expected(s', ik) {
      assert Get(s'.built, Owner(ik)) == Get(s'.built, Owner(ik));
      assert Get(s.index, ik) == Expected(s, ik);
    }
  }

  lemma ReindexedKeepsConsistent(s: State, id: string, rules: seq<Rule>, s': State)
    requires Consistent(s) && ValidRules(rules) && Reindexed(s, id, rules, s')
    ensures Consistent(s')
  {
    forall rk
      ensures rk in s'.records ==> rk in s'.built && s'.built[rk].payload == s'.records[rk].payload
      ensures rk in s'.built ==> ValidRules(s'.built[rk].rules)
    {
      assert Get(s'.built, rk) == Get(s'.built, rk);
    }
    forall ik ensures Get(s'.index, ik) == Expected(s', ik) {
      assert Get(s'.built, Owner(ik)) == Get(s'.built, Owner(ik));
      assert Get(s.index, ik) == Expected(s, ik);
    }
  }

  lemma PurgedKeepsConsistent(s: State, id: string, d: Dataset, now: int, later: int, stop: nat, s': State)
    requires Consistent(s) && Purged(s, id, d, now, later, stop, s')
    ensures Consistent(s')
  {
    forall ik ensures Get(s'.index, ik) == Expected(s', ik) {
      assert Get(s.index, ik) == Expected(s, ik);
    }
  }

  lemma EmptiedKeepsConsistent(s: State, id: string, s': State)
    requires Consistent(s) && Emptied(s, id, s')
    ensures Consistent(s')
  {
    forall ik ensures Get(s'.index, ik) == Expected(s', ik) {
      assert Get(s.index, ik) == Expected(s, ik);
    }
  }

  lemma OnlyIndexMatters(s: State, t: State)
    requires Consistent(s) && t == s.(datasets := t.datasets, deliveries := t.deliveries)
    requires forall id :: id in t.datasets ==> ValidRules(t.datasets[id].rules)
    ensures Consistent(t)
  {
    forall ik ensures Get(t.index, ik) == Expected(t, ik) {
      assert Get(s.index, ik) == Expected(s, ik);
    }
  }

  lemma IngestKeepsConsistent(env: Env, s: State, b: Step, s': State, r: Response)
    requires Consistent(s) && b.Ingest? && Ingests(env, s, b, s', r)
    ensures Consistent(s')
  {
    hide Expected, Written, Tally, ItemPk, RowAt;
    if s' != s {
      var written := s'.(deliveries := s.deliveries);
      WrittenKeepsConsistent(env, s, b.id, s.datasets[b.id], b.items.value, written);
      OnlyIndexMatters(written, s');
    }
  }

  lemma DeleteKeepsConsistent(env: Env, s: State, step: Step, s': State)
    requires Consistent(s) && step.Delete? && Does(env, s, step, s')
    ensures Consistent(s')
  {
    hide Expected, Reindexed, Emptied, RowAt;
    var kept := s'.(datasets := s.datasets);
    if step.purge && step.stop == 1 { ReindexedKeepsConsistent(s, step.id, [], kept); }
    if step.purge && step.stop >= 2 { EmptiedKeepsConsistent(s, step.id, kept); }
    OnlyIndexMatters(kept, s');
  }

  lemma StepKeepsConsistent(env: Env, s: State, step: Step, s': State)
    requires Consistent(s) && Does(env, s, step, s')
    ensures Consistent(s')
  {
    hide Expected, Ingests, Reindexed, Purged, Emptied, RowAt;
    match step {
      case Create(_, _) => OnlyIndexMatters(s, s');
      case Edit(_, _) => OnlyIndexMatters(s, s');
      case Reindex(id, commits) =>
        if id in s.datasets && commits { ReindexedKeepsConsistent(s, id, s.datasets[id].rules, s'); }
      case Purge(id, now, later, stop) =>
        if id in s.datasets && s.datasets[id].retentionDays > 0 {
          PurgedKeepsConsistent(s, id, s.datasets[id], now, later, stop, s');
        }
      case Delete(_, _, _) => DeleteKeepsConsistent(env, s, step, s');
      case Ingest(_, _, _, _, _, _, _) =>
        var r :| Ingests(env, s, step, s', r);
        IngestKeepsConsistent(env, s, step, s', r);
    }
  }

  /** In every reachable state the index agrees with the records. */
  lemma {:induction false} ReachableConsistent(env: Env, run: seq<State>, steps: seq<Step>)
    requires IsRun(env, run, steps)
    ensures Consistent(run[|steps|])
    decreases |steps|
  {
    if steps != [] {
      var n := |steps| - 1;
      ReachableConsistent(env, run[..n + 1], steps[..n]);
      StepKeepsConsistent(env, run[n], steps[n], run[n + 1]);
    }
  }

  // ------------------------------------------------------------ consequences

  /** The rows that some rules extract, whichever key they are asked for. */
  lemma SameRowsIff(e: Extraction, f: Extraction, rk: RecordKey)
    ensures RowsOf(e.rules, e.payload) == RowsOf(f.rules, f.payload)
       <==> forall ik :: Owner(ik) == rk ==> RowAt(e.rules, e.payload, ik) == RowAt(f.rules, f.payload, ik)
  {
    var a, b := RowsOf(e.rules, e.payload), RowsOf(f.rules, f.payload);
    if forall ik :: Owner(ik) == rk ==> RowAt(e.rules, e.payload, ik) == RowAt(f.rules, f.payload, ik) {
      forall fk: (string, string) ensures Get(a, fk) == Get(b, fk) {
        var ik := IndexKey(rk.dataset, rk.pk, fk.0, fk.1);
        assert Owner(ik) == rk && RowAt(e.rules, e.payload, ik) == RowAt(f.rules, f.payload, ik);
      }
      SameLookups(a, b);
    }
  }

  /** What a rebuild makes of a key: its record under the new rules, or nothing. */
  function Rebuilt(s: State, rules: seq<Rule>, rk: RecordKey): Rows {
    if rk in s.records then RowsOf(rules, s.records[rk].payload) else map[]
  }

  lemma NoRowsIff(e: Extraction, rk: RecordKey)
    ensures RowsOf(e.rules, e.payload) == map[] <==> forall ik :: Owner(ik) == rk ==>
      RowAt(e.rules, e.payload, ik) == None
  {
    var nothing := Extraction([], Null);
    assert RowsOf(nothing.rules, nothing.payload) == map[];
    SameRowsIff(e, nothing, rk);
  }

  /** Rebuilding a dataset from scratch changes the index exactly when the current
      rules extract something else from some record than what its rows were built
      from, or rows are left over from an unfinished purge. */
  lemma RebuildChangesNothingIff(s: State, id: string, rules: seq<Rule>, s': State)
    requires Consistent(s) && ValidRules(rules) && Reindexed(s, id, rules, s')
    ensures s'.index == s.index
       <==> forall rk :: rk in s.built && rk.dataset == id ==>
         RowsOf(s.built[rk].rules, s.built[rk].payload) == Rebuilt(s, rules, rk)
  {
    hide RowsOf, RowAt, Consistent;
    if s'.index == s.index {
      forall rk | rk in s.built && rk.dataset == id
        ensures RowsOf(s.built[rk].rules, s.built[rk].payload) == Rebuilt(s, rules, rk) {
        forall ik | Owner(ik) == rk
          ensures RowAt(s.built[rk].rules, s.built[rk].payload, ik) == if rk in s.records
            then RowAt(rules, s.records[rk].payload, ik) else None
        {
          RowWas(s, ik);
          assert Get(s'.index, ik) == if rk in s.records then RowAt(rules, s.records[rk].payload, ik) else None;
        }
        if rk in s.records {
          SameRowsIff(s.built[rk], Extraction(rules, s.records[rk].payload), rk);
        } else {
          NoRowsIff(s.built[rk], rk);
        }
      }
    }
    if forall rk :: rk in s.built && rk.dataset == id ==>
      RowsOf(s.built[rk].rules, s.built[rk].payload) == Rebuilt(s, rules, rk) {
      forall ik ensures Get(s'.index, ik) == Get(s.index, ik) {
        var rk := Owner(ik);
        RowWas(s, ik);
        if rk in s.built && rk.dataset == id {
          assert RowsOf(s.built[rk].rules, s.built[rk].payload) == Rebuilt(s, rules, rk);
          if rk in s.records {
            SameRowsIff(s.built[rk], Extraction(rules, s.records[rk].payload), rk);
          } else {
            NoRowsIff(s.built[rk], rk);
          }
        } else if rk in s.records {
          RecordsAreBuilt(s, rk);
        }
      }
      SameLookups(s'.index, s.index);
    }
  }

  lemma RowWas(s: State, ik: IndexKey)
    requires Consistent(s)
    ensures Get(s.index, ik) == Expected(s, ik)
  {}

  lemma RecordsAreBuilt(s: State, rk: RecordKey)
    requires Consistent(s) && rk in s.records
    ensures rk in s.built
  {}

  // ------------------------------------------------------ rules in force

  /** The dataset's records all have the rows of the rules in force. */
  ghost predicate UnderRules(s: State, id: string) {
    && id in s.datasets
    && forall rk :: rk in s.records && rk.dataset == id ==>
         rk in s.built && s.built[rk].rules == s.datasets[id].rules
  }

  ghost predicate HasRecords(s: State, id: string) { exists rk :: rk in s.records && rk.dataset == id }

  /** A new dataset of which there are no records yet, or a committed reindex. */
  ghost predicate Settles(s: State, step: Step, id: string) {
    || (step.Create? && step.id == id != "" && ValidRules(step.input.rules) && id !in s.datasets && !HasRecords(s, id))
    || (step.Reindex? && step.id == id && step.commits && id in s.datasets)
  }

  /** New rules for existing records, a delete that stops between rows and records, or
      the end of the dataset. */
  ghost predicate Unsettles(s: State, step: Step, id: string)
    requires id in s.datasets
  {
    || (step.Edit? && step.id == id && ValidRules(step.input.rules) && step.input.rules != s.datasets[id].rules
        && HasRecords(s, id))
    || (step.Delete? && step.id == id && step.stop >= 3)
    || (step.Delete? && step.id == id && step.purge && step.stop == 1 && s.datasets[id].rules != []
        && HasRecords(s, id))
  }

  /** A creation that succeeds where there are no records settles a dataset, and so does a
      committed reindex. */
  lemma HowToSettle(env: Env, s: State, id: string, input: DatasetInput, s': State)
    requires Does(env, s, Create(id, input), s') && id !in s.datasets && id in s'.datasets
    requires forall rk :: rk in s.records ==> rk.dataset != id
    ensures Settles(s, Create(id, input), id) && Settles(s', Reindex(id, true), id) && UnderRules(s', id)
  {
    SettlesWorks(env, s, Create(id, input), id, s');
  }

  lemma SettlesWorks(env: Env, s: State, step: Step, id: string, s': State)
    requires Does(env, s, step, s') && Settles(s, step, id)
    ensures UnderRules(s', id)
  {
    hide RowAt;
    if step.Reindex? {
      forall rk | rk in s'.records && rk.dataset == id
        ensures rk in s'.built && s'.built[rk].rules == s'.datasets[id].rules
      {
        assert Get(s'.built, rk) == Get(s'.built, rk);
      }
    }
  }

  /** Once the records are under the rules in force, a handler ends that exactly in
      those cases. */
  lemma UnderRulesStep(env: Env, s: State, step: Step, id: string, s': State)
    requires Does(env, s, step, s') && UnderRules(s, id)
    ensures UnderRules(s', id) <==> !Unsettles(s, step, id)
  {
    hide Ingests, Reindexed, RowAt, RowsWithRecord, LiveDeliveries;
    match step {
      case Create(_, _) =>
      case Edit(_, _) =>
      case Reindex(_, _) => ReindexUnderRules(env, s, step, id, s');
      case Purge(_, _, _, _) =>
      case Delete(_, _, _) => DeleteUnderRules(env, s, step, id, s');
      case Ingest(_, _, _, _, _, _, _) =>
        var r :| Ingests(env, s, step, s', r);
        IngestUnderRules(env, s, step, s', r, id);
    }
  }

  lemma ReindexUnderRules(env: Env, s: State, step: Step, id: string, s': State)
    requires Does(env, s, step, s') && UnderRules(s, id) && step.Reindex?
    ensures UnderRules(s', id)
  {
    hide RowAt;
    if s' != s {
      forall rk | rk in s'.records && rk.dataset == id
        ensures rk in s'.built && s'.built[rk].rules == s'.datasets[id].rules
      {
        assert Get(s'.built, rk) == Get(s'.built, rk);
      }
    }
  }

  lemma DeleteUnderRules(env: Env, s: State, step: Step, id: string, s': State)
    requires Does(env, s, step, s') && UnderRules(s, id) && step.Delete?
    ensures UnderRules(s', id) <==> !Unsettles(s, step, id)
  {
    hide RowAt, Emptied;
    var kept := s'.(datasets := s.datasets);
    if step.purge && step.stop == 1 {
      assert s'.records == s.records;
      WithoutRules(s, step.id, kept, id);
      hide Reindexed;
    } else {
      hide Reindexed;
      if step.purge && step.stop >= 2 { EmptiedUnderRules(s, step.id, kept, id); }
    }
  }

  lemma EmptiedUnderRules(s: State, id: string, kept: State, other: string)
    requires Emptied(s, id, kept) && UnderRules(s, other)
    ensures forall rk :: rk in kept.records && rk.dataset == other ==>
              rk in kept.built && kept.built[rk].rules == s.datasets[other].rules
  {}

  lemma WithoutRules(s: State, id: string, kept: State, other: string)
    requires Reindexed(s, id, [], kept) && UnderRules(s, other)
    ensures forall rk :: rk in s.records && rk.dataset == other ==>
              rk in kept.built && kept.built[rk].rules == if id == other then [] else s.datasets[other].rules
  {
    hide RowAt;
    forall rk | rk in s.records && rk.dataset == other
      ensures rk in kept.built && kept.built[rk].rules == if id == other then [] else s.datasets[other].rules
    {
      assert Get(kept.built, rk) == Get(kept.built, rk);
    }
  }

  lemma IngestUnderRules(env: Env, s: State, b: Step, s': State, r: Response, id: string)
    requires b.Ingest? && Ingests(env, s, b, s', r) && UnderRules(s, id)
    ensures UnderRules(s', id)
  {
    hide RowAt, Tally, ItemPk, LastAccepted;
    if s' != s {
      forall rk | rk in s'.records && rk.dataset == id
        ensures rk in s'.built && s'.built[rk].rules == s'.datasets[id].rules
      {
        assert Get(s'.built, rk) == Get(s'.built, rk) && Get(s'.records, rk) == Get(s'.records, rk);
      }
    }
  }

  /** Over every run: from a moment when the records are under the rules in force, they
      stay so exactly while none of those things happens. */
  lemma {:induction false} UnderRulesWhile(env: Env, run: seq<State>, steps: seq<Step>, i: nat, j: nat, id: string)
    requires IsRun(env, run, steps) && i <= j <= |steps| && UnderRules(run[i], id)
    ensures (forall k :: i <= k <= j ==> UnderRules(run[k], id))
      <==> (forall k :: i <= k < j && id in run[k].datasets ==> !Unsettles(run[k], steps[k], id))
    decreases j
  {
    if i < j {
      UnderRulesWhile(env, run, steps, i, j - 1, id);
      hide Does, Unsettles;
      assert Does(env, run[j - 1], steps[j - 1], run[j]);
      hide IsRun;
      if UnderRules(run[j - 1], id) { UnderRulesStep(env, run[j - 1], steps[j - 1], id, run[j]); }
    }
  }

  /** The last creation without records, or committed reindex, was step `i`, and nothing
      unsettled the dataset since. */
  ghost predicate SettledSince(run: seq<State>, steps: seq<Step>, i: nat, id: string)
    requires |run| == |steps| + 1
  {
    && i < |steps| && Settles(run[i], steps[i], id)
    && forall k :: i < k < |steps| && id in run[k].datasets ==> !Unsettles(run[k], steps[k], id)
  }

  lemma SettledUnderRules(env: Env, run: seq<State>, steps: seq<Step>, i: nat, id: string)
    requires IsRun(env, run, steps) && SettledSince(run, steps, i, id)
    ensures Consistent(run[|steps|]) && UnderRules(run[|steps|], id)
  {
    ReachableConsistent(env, run, steps);
    hide Does, Unsettles, Consistent, UnderRules;
    assert Does(env, run[i], steps[i], run[i + 1]);
    SettlesWorks(env, run[i], steps[i], id, run[i + 1]);
    UnderRulesWhile(env, run, steps, i + 1, |steps|, id);
  }

  /** No row of the dataset lacks a record. */
  ghost predicate NoLeftovers(s: State, id: string) {
    forall ik :: ik in s.index && ik.dataset == id ==> Owner(ik) in s.records
  }

  function RulesOf(s: State, id: string): seq<Rule> { if id in s.datasets then s.datasets[id].rules else [] }

  /** What an index row of the dataset would be, built from scratch. */
  function FromScratch(s: State, ik: IndexKey): Option<Cell> {
    if Owner(ik) in s.records then RowAt(RulesOf(s, ik.dataset), s.records[Owner(ik)].payload, ik) else None
  }

  lemma RowsFromScratch(s: State, id: string, ik: IndexKey)
    requires Consistent(s) && UnderRules(s, id) && ik.dataset == id
    ensures Owner(ik) in s.records ==> Get(s.index, ik) == FromScratch(s, ik)
    ensures NoLeftovers(s, id) ==> Get(s.index, ik) == FromScratch(s, ik)
  {
    RowWas(s, ik);
    hide RowAt;
  }

  /** The upserts, in whatever order they came, have built what a rebuild from scratch
      would: a reindex changes the index exactly when rows were left over. */
  lemma RebuildRemovesLeftovers(env: Env, run: seq<State>, steps: seq<Step>, i: nat, id: string, s': State)
    requires IsRun(env, run, steps) && SettledSince(run, steps, i, id)
    requires Does(env, run[|steps|], Reindex(id, true), s')
    ensures s'.index == run[|steps|].index <==> NoLeftovers(run[|steps|], id)
  {
    var s := run[|steps|];
    SettledUnderRules(env, run, steps, i, id);
    ReindexRows(env, s, id, s');
    hide IsRun, SettledSince, Does, UnderRules, Consistent, FromScratch;
    forall ik: IndexKey | ik.dataset == id && (Owner(ik) in s.records || NoLeftovers(s, id))
      ensures Get(s.index, ik) == FromScratch(s, ik)
    {
      RowsFromScratch(s, id, ik);
    }
    SameIndexIff(s, id, s');
  }

  lemma ReindexRows(env: Env, s: State, id: string, s': State)
    requires Does(env, s, Reindex(id, true), s') && UnderRules(s, id)
    ensures forall ik :: Get(s'.index, ik) == if ik.dataset == id then FromScratch(s, ik) else Get(s.index, ik)
  {
    hide RowAt;
  }

  lemma SameIndexIff(s: State, id: string, s': State)
    requires forall ik :: Get(s'.index, ik) == if ik.dataset == id then FromScratch(s, ik) else Get(s.index, ik)
    requires forall ik: IndexKey :: ik.dataset == id && (Owner(ik) in s.records || NoLeftovers(s, id)) ==>
               Get(s.index, ik) == FromScratch(s, ik)
    ensures s'.index == s.index <==> NoLeftovers(s, id)
  {
    hide RowAt;
    if s'.index == s.index {
      forall ik | ik in s.index && ik.dataset == id ensures Owner(ik) in s.records {
        assert Get(s'.index, ik) == FromScratch(s, ik);
      }
    }
    if NoLeftovers(s, id) { SameLookups(s'.index, s.index); }
  }

  /** So two runs that end with the same rules and payloads of a dataset, without rows
      left over, end with the same index rows of it, whatever happened before. */
  lemma IndexDetermined(env: Env, run: seq<State>, steps: seq<Step>, i: nat, run2: seq<State>, steps2: seq<Step>,
      j: nat, id: string, ik: IndexKey)
    requires IsRun(env, run, steps) && SettledSince(run, steps, i, id) && NoLeftovers(run[|steps|], id)
    requires IsRun(env, run2, steps2) && SettledSince(run2, steps2, j, id) && NoLeftovers(run2[|steps2|], id)
    requires RulesOf(run[|steps|], id) == RulesOf(run2[|steps2|], id)
    requires forall rk: RecordKey :: rk.dataset == id ==> PayloadOf(run[|steps|], rk) == PayloadOf(run2[|steps2|], rk)
    requires ik.dataset == id
    ensures Get(run[|steps|].index, ik) == Get(run2[|steps2|].index, ik)
  {
    SettledUnderRules(env, run, steps, i, id);
    SettledUnderRules(env, run2, steps2, j, id);
    hide IsRun, SettledSince, Consistent, UnderRules, RowAt;
    RowsFromScratch(run[|steps|], id, ik);
    RowsFromScratch(run2[|steps2|], id, ik);
    assert PayloadOf(run[|steps|], Owner(ik)) == PayloadOf(run2[|steps2|], Owner(ik));
  }

  /** What a filter asks of a payload, read off the document: the rule for its
      field puts a matching value under the key it names. */
  ghost predicate DocumentSatisfies(env: Env, rules: seq<Rule>, payload: Json, f: FilterCond) {
    AsDoc(payload).Some? && exists r, k, cell ::
      && r in rules && r.field == f.field
      && RuleSays(r, Obj(AsDoc(payload).value), k, cell)
      && (f.key == "" || k == f.key)
      && CellMatches(env, f, cell)
  }

  /** In a consistent store a record satisfies a filter through the index exactly
      when its payload does. */
  lemma SatisfiesMeansDocument(env: Env, s: State, rk: RecordKey, updatedAt: int, f: FilterCond)
    requires Consistent(s) && rk in s.records
    ensures Satisfies(env, s.index, RecordRow(rk.dataset, rk.pk, updatedAt), f)
       <==> DocumentSatisfies(env, s.built[rk].rules, s.records[rk].payload, f)
  {
    var rec, rules, payload := RecordRow(rk.dataset, rk.pk, updatedAt), s.built[rk].rules, s.records[rk].payload;
    if Satisfies(env, s.index, rec, f) {
      var k :| IndexKey(rec.dataset, rec.pk, f.field, k) in s.index && (f.key == "" || k == f.key)
            && CellMatches(env, f, s.index[IndexKey(rec.dataset, rec.pk, f.field, k)]);
      var ik := IndexKey(rec.dataset, rec.pk, f.field, k);
      assert Get(s.index, ik) == Expected(s, ik) && Owner(ik) == rk;
      RowsMeanDocument(rules, payload, f.field, k, s.index[ik]);
    }
    if DocumentSatisfies(env, rules, payload, f) {
      var r, k, cell :| r in rules && r.field == f.field && RuleSays(r, Obj(AsDoc(payload).value), k, cell)
                     && (f.key == "" || k == f.key) && CellMatches(env, f, cell);
      var ik := IndexKey(rk.dataset, rk.pk, f.field, k);
      RowsMeanDocument(rules, payload, f.field, k, cell);
      assert Get(s.index, ik) == Expected(s, ik) && Owner(ik) == rk;
    }
  }

  /** What a request asks of a record, read off its document. */
  ghost predicate DocumentWanted(env: Env, req: Request, s: State, rk: RecordKey)
    requires WellFormed(env, req) && rk in s.records && rk in s.built
  {
    var rules, payload := s.built[rk].rules, s.records[rk].payload;
    && rk.dataset == req.dataset
    && (req.pk == "" || rk.pk == req.pk)
    && (req.since == "" || s.records[rk].updatedAt > env.parseTime(req.since).value)
    && (forall i :: 0 <= i < |req.fs| ==> DocumentSatisfies(env, rules, payload, Parsed(req.fs[i]).value))
    && (req.ors == [] || exists i ::
          0 <= i < |req.ors| && DocumentSatisfies(env, rules, payload, Parsed(req.ors[i]).value))
  }

  function RowOf(s: State, rk: RecordKey): RecordRow
    requires rk in s.records
  {
    RecordRow(rk.dataset, rk.pk, s.records[rk].updatedAt)
  }

  lemma WantedIffDocumentWanted(env: Env, s: State, req: Request, rk: RecordKey)
    requires Consistent(s) && rk in s.records && WellFormed(env, req)
    ensures Wanted(env, req, s.index, RowOf(s, rk)) <==> DocumentWanted(env, req, s, rk)
  {
    RecordsAreBuilt(s, rk);
    hide Satisfies, DocumentSatisfies, Consistent;
    forall f: FilterCond
      ensures Satisfies(env, s.index, RowOf(s, rk), f)
        <==> DocumentSatisfies(env, s.built[rk].rules, s.records[rk].payload, f)
    {
      SatisfiesMeansDocument(env, s, rk, s.records[rk].updatedAt, f);
    }
  }

  /** End to end: whatever happened to the tables before, the SQL compiled from a
      request selects a record exactly when its document is what was asked for. */
  lemma SelectedIffDocumentWanted(env: Env, run: seq<State>, steps: seq<Step>, req: Request, q: CompiledQuery,
      rk: RecordKey)
    requires IsRun(env, run, steps) && rk in run[|steps|].records
    requires WellFormed(env, req) && Compiles(env, req, q)
    ensures Consistent(run[|steps|])
    ensures var s := run[|steps|];
            Selects(env, q, s.index, RowOf(s, rk)) <==> DocumentWanted(env, req, s, rk)
  {
    ReachableConsistent(env, run, steps);
    hide Consistent, IsRun, Selects, Wanted, DocumentWanted, Before, QueryBefore;
    WantedIffDocumentWanted(env, run[|steps|], req, rk);
  }

  // ------------------------------------------------------- what a filter finds

  lemma IndexRow(s: State, rk: RecordKey, field: string, k: string)
    requires Consistent(s) && rk in s.records
    ensures Get(s.index, IndexKey(rk.dataset, rk.pk, field, k)) ==
            Get(RowsOf(s.built[rk].rules, s.records[rk].payload), (field, k))
  {
    RowWas(s, IndexKey(rk.dataset, rk.pk, field, k));
  }

  /** A record whose only row of the field, or whose row at the key asked for, is `cell`. */
  lemma SatisfiesByRow(env: Env, index: Index, rec: RecordRow, f: FilterCond, k: string, cell: Cell)
    requires Get(index, IndexKey(rec.dataset, rec.pk, f.field, k)) == Some(cell)
    requires f.key == k || f.key == ""
    requires f.key == "" ==> forall other: string :: other != k ==>
               Get(index, IndexKey(rec.dataset, rec.pk, f.field, other)) == None
    ensures Satisfies(env, index, rec, f) <==> CellMatches(env, f, cell)
  {
    hide CellMatches;
    assert IndexKey(rec.dataset, rec.pk, f.field, k) in index;
  }

  /** A request with one filter and nothing else. */
  function OneFilter(dataset: string, spec: string): Request {
    Request(dataset, "", "", [spec], [], "", None, None)
  }

  lemma OneFilterSelects(env: Env, s: State, q: CompiledQuery, rk: RecordKey, spec: string, f: FilterCond)
    requires rk.dataset != "" && rk in s.records && Parsed(spec) == Ok(f)
    requires WellFormed(env, OneFilter(rk.dataset, spec)) && Compiles(env, OneFilter(rk.dataset, spec), q)
    ensures Selects(env, q, s.index, RowOf(s, rk)) <==> Satisfies(env, s.index, RowOf(s, rk), f)
  {
    hide Satisfies, Parsed, Selects, Before, QueryBefore;
    var req := OneFilter(rk.dataset, spec);
    assert Selects(env, q, s.index, RowOf(s, rk)) <==> Wanted(env, req, s.index, RowOf(s, rk));
    assert req.fs[0] == spec;
  }

  /** End to end, spelt out: while a dataset's records are under its rules, a query for
      `field op text` selects a record that has the number `x` at the field's scalar path
      exactly when `x` stands in that relation to the number in the text. */
  lemma FoundByNumber(env: Env, run: seq<State>, steps: seq<Step>, i: nat, rk: RecordKey, m: map<string, Json>,
      r: Rule, x: real, op: string, text: string, n: real, q: CompiledQuery)
    requires IsRun(env, run, steps) && SettledSince(run, steps, i, rk.dataset) && rk.dataset != ""
    requires rk in run[|steps|].records && run[|steps|].records[rk].payload == Obj(m)
    requires r in RulesOf(run[|steps|], rk.dataset) && (r.mode == "" || r.mode == "scalar")
    requires '.' !in r.field && !HasOpChar(r.field) && ValueAt(Obj(m), Segments(r.path)) == Number(x)
    requires op in {"=", "<", "<=", ">", ">="} && text != "" && !HasOpChar(text)
    requires env.parseNum(text) == Some(Finite(n))
    requires WellFormed(env, OneFilter(rk.dataset, r.field + op + text))
    requires Compiles(env, OneFilter(rk.dataset, r.field + op + text), q)
    ensures Selects(env, q, run[|steps|].index, RowOf(run[|steps|], rk)) <==>
            ((op == "=" && x == n) || (op == "<" && x < n) || (op == "<=" && x <= n)
              || (op == ">" && x > n) || (op == ">=" && x >= n))
  {
    var s, f := run[|steps|], FilterCond(r.field, "", op, text);
    var cell := Cell(Some(Finite(x)), None);
    RuleInForce(env, run, steps, i, rk, r);
    ScalarIndexed(s, rk, m, r);
    PlainSpec(r.field, "k", op, text);
    hide *;
    OneFilterSelects(env, s, q, rk, r.field + op + text, f);
    SatisfiesByRow(env, s.index, RowOf(s, rk), f, "", cell);
    NumberMatches(env, f, x, n);
  }

  lemma RuleInForce(env: Env, run: seq<State>, steps: seq<Step>, i: nat, rk: RecordKey, r: Rule)
    requires IsRun(env, run, steps) && SettledSince(run, steps, i, rk.dataset)
    requires rk in run[|steps|].records && r in RulesOf(run[|steps|], rk.dataset)
    ensures var s := run[|steps|];
            Consistent(s) && rk in s.built && r in s.built[rk].rules && ValidRules(s.built[rk].rules) && r.field != ""
  {
    SettledUnderRules(env, run, steps, i, rk.dataset);
  }

  lemma ScalarIndexed(s: State, rk: RecordKey, m: map<string, Json>, r: Rule)
    requires Consistent(s) && rk in s.records && s.records[rk].payload == Obj(m) && rk in s.built
    requires r in s.built[rk].rules && (r.mode == "" || r.mode == "scalar") && ValidRules(s.built[rk].rules)
    ensures var v, ik := ValueAt(Obj(m), Segments(r.path)), IndexKey(rk.dataset, rk.pk, r.field, "");
            && (v.Number? ==> Get(s.index, ik) == Some(Cell(Some(Finite(v.r)), None)))
            && (v.Str? && v.s != "" ==> Get(s.index, ik) == Some(Cell(None, Some(v.s))))
    ensures forall k: string :: k != "" ==> Get(s.index, IndexKey(rk.dataset, rk.pk, r.field, k)) == None
  {
    hide Consistent, RowsOf;
    IndexRow(s, rk, r.field, "");
    ScalarRow(s.built[rk].rules, m, r, "");
    forall k: string | k != "" ensures Get(s.index, IndexKey(rk.dataset, rk.pk, r.field, k)) == None {
      IndexRow(s, rk, r.field, k);
      ScalarRow(s.built[rk].rules, m, r, k);
    }
  }

  /** The same for a text `t` there: `=` is equality, and against a text that is no
      number the others are the text order. */
  lemma FoundByText(env: Env, run: seq<State>, steps: seq<Step>, i: nat, rk: RecordKey, m: map<string, Json>,
      r: Rule, t: string, op: string, text: string, q: CompiledQuery)
    requires IsRun(env, run, steps) && SettledSince(run, steps, i, rk.dataset) && rk.dataset != ""
    requires rk in run[|steps|].records && run[|steps|].records[rk].payload == Obj(m)
    requires r in RulesOf(run[|steps|], rk.dataset) && (r.mode == "" || r.mode == "scalar")
    requires '.' !in r.field && !HasOpChar(r.field) && ValueAt(Obj(m), Segments(r.path)) == Str(t) && t != ""
    requires op in {"=", "<", "<=", ">", ">="} && text != "" && !HasOpChar(text) && Collates(env)
    requires WellFormed(env, OneFilter(rk.dataset, r.field + op + text))
    requires Compiles(env, OneFilter(rk.dataset, r.field + op + text), q)
    ensures Selects(env, q, run[|steps|].index, RowOf(run[|steps|], rk)) <==>
            if op == "=" then t == text
            else
              && env.parseNum(text) == None
              && ((op == "<" && env.collate(t, text) < 0) || (op == "<=" && env.collate(t, text) <= 0)
                || (op == ">" && env.collate(t, text) > 0) || (op == ">=" && env.collate(t, text) >= 0))
  {
    var s, f := run[|steps|], FilterCond(r.field, "", op, text);
    RuleInForce(env, run, steps, i, rk, r);
    ScalarIndexed(s, rk, m, r);
    PlainSpec(r.field, "k", op, text);
    assert IsOp(op);
    hide *;
    OneFilterSelects(env, s, q, rk, r.field + op + text, f);
    SatisfiesByRow(env, s.index, RowOf(s, rk), f, "", Cell(None, Some(t)));
    TextMatches(env, f, t);
  }

  /** And for an array rule: `field.k op text` asks for the number of the last element
      with the key `k`. */
  lemma FoundByKey(env: Env, run: seq<State>, steps: seq<Step>, i: nat, rk: RecordKey, m: map<string, Json>,
      r: Rule, e: nat, k: string, x: real, op: string, text: string, n: real, q: CompiledQuery)
    requires IsRun(env, run, steps) && SettledSince(run, steps, i, rk.dataset) && rk.dataset != ""
    requires rk in run[|steps|].records && run[|steps|].records[rk].payload == Obj(m)
    requires r in RulesOf(run[|steps|], rk.dataset) && r.mode == "array" && r.valuePath != ""
    requires '.' !in r.field && !HasOpChar(r.field) && !HasOpChar(k)
    requires var at := ValueAt(Obj(m), Segments(r.path));
             && at.Arr? && e < |at.elems| && Keyed(r, at.elems[e], k)
             && (forall j :: e < j < |at.elems| ==> !Keyed(r, at.elems[j], k))
             && ValueAt(at.elems[e], Segments(r.valuePath)) == Number(x)
    requires op in {"=", "<", "<=", ">", ">="} && text != "" && !HasOpChar(text)
    requires env.parseNum(text) == Some(Finite(n))
    requires WellFormed(env, OneFilter(rk.dataset, r.field + "." + k + op + text))
    requires Compiles(env, OneFilter(rk.dataset, r.field + "." + k + op + text), q)
    ensures Selects(env, q, run[|steps|].index, RowOf(run[|steps|], rk)) <==>
            ((op == "=" && x == n) || (op == "<" && x < n) || (op == "<=" && x <= n)
              || (op == ">" && x > n) || (op == ">=" && x >= n))
  {
    var s, f := run[|steps|], FilterCond(r.field, k, op, text);
    RuleInForce(env, run, steps, i, rk, r);
    IndexRow(s, rk, r.field, k);
    ArrayRow(s.built[rk].rules, m, r, k, e);
    PlainSpec(r.field, k, op, text);
    hide *;
    OneFilterSelects(env, s, q, rk, r.field + "." + k + op + text, f);
    SatisfiesByRow(env, s.index, RowOf(s, rk), f, k, Cell(Some(Finite(x)), None));
    NumberMatches(env, f, x, n);
  }

  /** The table `record` as a query sees it. */
  function Table(s: State): set<RecordRow> { set rk | rk in s.records :: RowOf(s, rk) }

  lemma TableHasPrimaryKey(s: State)
    ensures PrimaryKey(Table(s))
  {}

  /** The document is wanted and its rank among the wanted lies in the page's window. */
  ghost predicate OnPage(env: Env, req: Request, s: State, rk: RecordKey)
    requires WellFormed(env, req) && rk in s.records && rk in s.built
  {
    DocumentWanted(env, req, s, rk) && InWindow(req, Rank(env, req, s.index, Table(s), RowOf(s, rk)))
  }

  /** The page the database answers holds exactly the records in the window. */
  lemma PageOfDocuments(env: Env, s: State, req: Request, q: CompiledQuery, rows: seq<RecordRow>, rk: RecordKey)
    requires Consistent(s) && rk in s.records && Collates(env)
    requires WellFormed(env, req) && Compiles(env, req, q) && IsAnswer(env, q, s.index, Table(s), rows)
    ensures RowOf(s, rk) in Page(q, rows) <==> OnPage(env, req, s, rk)
  {
    TableHasPrimaryKey(s);
    assert RowOf(s, rk) in Table(s);
    WantedIffDocumentWanted(env, s, req, rk);
    PageIsTheWindow(env, req, q, s.index, Table(s), rows, RowOf(s, rk));
  }

  // ------------------------------------------- purges and deletes that stop half-way

  /** The rows without a record are those extracted from what an orphan held. */
  lemma OrphanRowsIff(s: State, ik: IndexKey)
    requires Consistent(s)
    ensures ik in s.index && Owner(ik) !in s.records
       <==> Owner(ik) in Orphans(s) && RowAt(s.built[Owner(ik)].rules, s.built[Owner(ik)].payload, ik).Some?
  {
    RowWas(s, ik);
  }

  /** A purge keeps of the dataset exactly the records changed no longer ago than the
      retention, in days of 86400 seconds, and leaves other datasets alone; one that
      finishes does the same with the deliveries, by its own reading of the clock. */
  lemma PurgeKeepsExactly(env: Env, s: State, id: string, now: int, later: int, stop: nat, s': State, rk: RecordKey,
      dk: DeliveryKey)
    requires Does(env, s, Purge(id, now, later, stop), s')
    ensures id !in s.datasets || s.datasets[id].retentionDays <= 0 || stop == 0 ==> s' == s
    ensures id in s.datasets && s.datasets[id].retentionDays > 0 && stop >= 1 ==>
              Get(s'.records, rk) ==
              if rk in s.records
                && (rk.dataset != id || s.records[rk].updatedAt >= now - s.datasets[id].retentionDays * 86_400_000_000)
              then Some(s.records[rk]) else None
    ensures id in s.datasets && s.datasets[id].retentionDays > 0 ==>
              Get(s'.deliveries, dk) ==
              if dk in s.deliveries
                && (stop < 3 || dk.dataset != id
                    || s.deliveries[dk].createdAt >= later - s.datasets[id].retentionDays * 86_400_000_000)
              then Some(s.deliveries[dk]) else None
    ensures s'.datasets == s.datasets
  {}

  /** So a record outlives, in every purge, the records of its dataset changed before it. */
  lemma NewerOutlives(env: Env, s: State, step: Step, s': State, older: RecordKey, newer: RecordKey)
    requires Does(env, s, step, s') && step.Purge? && older.dataset == newer.dataset
    requires older in s.records && newer in s.records && s.records[older].updatedAt <= s.records[newer].updatedAt
    requires older in s'.records
    ensures newer in s'.records
  {}

  /** An orphan after a step was one before, or the step is a purge that stopped after
      its first statement and deleted that record as expired. */
  lemma OrphanStep(env: Env, s: State, step: Step, s': State, rk: RecordKey)
    requires Consistent(s) && Does(env, s, step, s') && rk in Orphans(s')
    ensures rk in s.built && s'.built[rk] == s.built[rk]
    ensures rk in Orphans(s) || OrphanedBy(s, step, rk)
  {
    RecordsAreBuiltAll(s);
    hide Consistent, RowAt, Ingests, Reindexed, Emptied;
    match step {
      case Create(_, _) =>
      case Edit(_, _) =>
      case Reindex(id, _) =>
        if s' != s { ReindexOrphansNothing(s, id, s.datasets[id].rules, s', rk); }
      case Purge(_, _, _, _) =>
      case Delete(_, _, _) => DeleteOrphansNothing(env, s, step, s', rk);
      case Ingest(_, _, _, _, _, _, _) =>
        var r :| Ingests(env, s, step, s', r);
        IngestOrphansNothing(env, s, step, s', r, rk);
    }
  }

  lemma ReindexOrphansNothing(s: State, id: string, rules: seq<Rule>, s': State, rk: RecordKey)
    requires Reindexed(s, id, rules, s') && rk in Orphans(s')
    ensures rk in Orphans(s) && s'.built[rk] == s.built[rk]
  {
    hide RowAt;
    assert Get(s'.built, rk) == Get(s'.built, rk);
  }

  lemma DeleteOrphansNothing(env: Env, s: State, step: Step, s': State, rk: RecordKey)
    requires step.Delete? && Does(env, s, step, s') && rk in Orphans(s')
    ensures rk in Orphans(s) && s'.built[rk] == s.built[rk]
  {
    hide Reindexed;
    var kept := s'.(datasets := s.datasets);
    if step.purge && step.stop == 1 { ReindexOrphansNothing(s, step.id, [], kept, rk); }
  }

  lemma IngestOrphansNothing(env: Env, s: State, b: Step, s': State, r: Response, rk: RecordKey)
    requires b.Ingest? && Ingests(env, s, b, s', r) && rk in Orphans(s')
    ensures rk in Orphans(s) && s'.built[rk] == s.built[rk]
  {
    hide RowAt, Tally, ItemPk, Latest;
    if s' != s { assert Get(s'.built, rk) == Get(s'.built, rk) && Get(s'.records, rk) == Get(s'.records, rk); }
  }

  lemma RecordsAreBuiltAll(s: State)
    requires Consistent(s)
    ensures s.records.Keys <= s.built.Keys
  {}

  /** A purge that stopped after its first statement deleted this record. */
  predicate OrphanedBy(s: State, step: Step, rk: RecordKey) {
    && step.Purge? && step.stop == 1 && step.id == rk.dataset && step.id in s.datasets
      && s.datasets[step.id].retentionDays > 0
    && rk in s.records && Expired(s.datasets[step.id], s.records[rk].updatedAt, step.now)
  }

  /** In every run an orphan is what an unfinished purge left, untouched since. */
  lemma {:induction false} OrphansComeFromPurges(env: Env, run: seq<State>, steps: seq<Step>, n: nat, rk: RecordKey)
      returns (at: nat)
    requires IsRun(env, run, steps) && n <= |steps| && rk in Orphans(run[n])
    ensures at < n && OrphanedBy(run[at], steps[at], rk)
    ensures forall i :: at < i <= n ==> rk in Orphans(run[i])
    decreases n
  {
    if n == 0 {
      assert false;
    } else {
      PrefixIsRun(env, run, steps, n - 1);
      ReachableConsistent(env, run[..n], steps[..n - 1]);
      assert Does(env, run[n - 1], steps[n - 1], run[n]);
      OrphanStep(env, run[n - 1], steps[n - 1], run[n], rk);
      if OrphanedBy(run[n - 1], steps[n - 1], rk) {
        at := n - 1;
      } else {
        at := OrphansComeFromPurges(env, run, steps, n - 1, rk);
      }
    }
  }

  lemma PrefixIsRun(env: Env, run: seq<State>, steps: seq<Step>, n: nat)
    requires IsRun(env, run, steps) && n <= |steps|
    ensures IsRun(env, run[..n + 1], steps[..n])
  {
    hide Does;
    forall i | 0 <= i < n ensures Does(env, run[..n + 1][i], steps[..n][i], run[..n + 1][i + 1]) {
      assert Does(env, run[i], steps[i], run[i + 1]);
    }
  }

  /** So while every purge gets past its second statement no row lacks a record. */
  lemma NoRowLacksARecord(env: Env, run: seq<State>, steps: seq<Step>, ik: IndexKey)
    requires IsRun(env, run, steps) && forall i :: 0 <= i < |steps| && steps[i].Purge? ==> steps[i].stop != 1
    requires ik in run[|steps|].index
    ensures Owner(ik) in run[|steps|].records
  {
    ReachableConsistent(env, run, steps);
    OrphanRowsIff(run[|steps|], ik);
    if Owner(ik) in Orphans(run[|steps|]) {
      var at := OrphansComeFromPurges(env, run, steps, |steps|, Owner(ik));
    }
  }

  /** The next purge that gets past its second statement removes what was left over,
      so does a reindex. */
  lemma LeftoversGo(env: Env, s: State, step: Step, s': State, ik: IndexKey)
    requires Consistent(s) && Does(env, s, step, s') && ik in s'.index
    requires || (step.Purge? && step.id in s.datasets && s.datasets[step.id].retentionDays > 0 && step.stop >= 2)
             || (step.Reindex? && step.id in s.datasets && step.commits)
    requires ik.dataset == step.id
    ensures Owner(ik) in s'.records
  {
    hide Consistent, RowAt;
    if step.Reindex? { assert Get(s'.index, ik) == Get(s'.index, ik); }
  }

  /** A purge that stops after its first statement leaves exactly the rows of the
      records it deleted behind: whatever row such a record had lacks a record now. */
  lemma StoppedPurgeLeavesRows(env: Env, s: State, step: Step, s': State, ik: IndexKey)
    requires Consistent(s) && Does(env, s, step, s') && OrphanedBy(s, step, Owner(ik))
    ensures Owner(ik) !in s'.records && Get(s'.index, ik) == Get(s.index, ik)
  {}

  // ------------------------------------------------------- settings and batches

  /** A created dataset is enabled, keyed by `id` and kept for ever unless told otherwise. */
  lemma CreatedSettings(env: Env, s: State, id: string, input: DatasetInput, s': State)
    requires Does(env, s, Create(id, input), s') && id != "" && ValidRules(input.rules) && id !in s.datasets
    ensures id in s'.datasets && s' == s.(datasets := s.datasets[id := s'.datasets[id]])
    ensures var d := s'.datasets[id];
            && d.rules == input.rules && d.enabled
            && (input.pkField == "" ==> d.pkField == "id") && (input.pkField != "" ==> d.pkField == input.pkField)
            && (input.retentionDays.Some? && input.retentionDays.value >= 0 ==>
                  d.retentionDays == input.retentionDays.value)
            && (input.retentionDays == None || input.retentionDays.value < 0 ==> d.retentionDays == 0)
  {}

  /** An edit replaces the rules and what is given, and keeps what is not. */
  lemma EditedSettings(env: Env, s: State, id: string, input: DatasetInput, s': State)
    requires Does(env, s, Edit(id, input), s') && ValidRules(input.rules) && id in s.datasets
    ensures id in s'.datasets && s' == s.(datasets := s.datasets[id := s'.datasets[id]])
    ensures var d, d' := s.datasets[id], s'.datasets[id];
            && d'.rules == input.rules
            && (input.pkField == "" ==> d'.pkField == d.pkField)
            && (input.pkField != "" ==> d'.pkField == input.pkField)
            && (input.enabled == None ==> d'.enabled == d.enabled)
            && (input.enabled.Some? ==> d'.enabled == input.enabled.value)
            && (input.retentionDays.Some? && input.retentionDays.value >= 0 ==>
                  d'.retentionDays == input.retentionDays.value)
            && (input.retentionDays == None || input.retentionDays.value < 0 ==> d'.retentionDays == d.retentionDays)
  {}

  /** A delete of the data takes the rows, then the records of this dataset and no other,
      whether or not it is known; the dataset itself goes last. */
  lemma DeleteRemoves(env: Env, s: State, id: string, purge: bool, stop: nat, s': State, rk: RecordKey, ik: IndexKey,
      other: string)
    requires Does(env, s, Delete(id, purge, stop), s')
    ensures Get(s'.datasets, other) == if stop >= 3 && other == id then None else Get(s.datasets, other)
    ensures Get(s'.index, ik) == if purge && stop >= 1 && ik.dataset == id then None else Get(s.index, ik)
    ensures Get(s'.records, rk) == if purge && stop >= 2 && rk.dataset == id then None else Get(s.records, rk)
    ensures s'.deliveries == s.deliveries
  {
    NoRulesNoRows();
    hide RowAt;
  }

  /** A committed reindex gives each record of the dataset the rows of its current rules,
      and nothing else of it; everything else stays. */
  lemma ReindexBuilds(env: Env, s: State, id: string, s': State, ik: IndexKey)
    requires Does(env, s, Reindex(id, true), s') && id in s.datasets
    ensures s'.records == s.records && s'.datasets == s.datasets && s'.deliveries == s.deliveries
    ensures Get(s'.index, ik) ==
            if ik.dataset != id then Get(s.index, ik)
            else if RecordKey(id, ik.pk) in s.records
              then Get(RowsOf(s.datasets[id].rules, s.records[RecordKey(id, ik.pk)].payload), (ik.field, ik.k))
            else None
  {
    hide RowsOf;
  }

  /** The key of an item: a non-empty text or a printed number at the key path of an
      object. */
  ghost predicate HasKey(env: Env, payload: Json, pkField: string, pk: string) {
    && payload.Obj?
    && var v := ValueAt(payload, Segments(pkField));
       (v == Str(pk) && pk != "") || (v.Number? && env.formatNum(v.r) == pk)
  }

  lemma HasKeyIsItemPk(env: Env, payload: Json, pkField: string, pk: string)
    ensures HasKey(env, payload, pkField, pk) <==> ItemPk(env, payload, pkField) == Some(pk)
  {}

  lemma {:induction false} LastAcceptedIs(env: Env, items: seq<Item>, n: nat, pkField: string, pk: string, i: nat)
    requires i < n <= |items| && items[i].dbOk && HasKey(env, items[i].payload, pkField, pk)
    requires forall j :: i < j < n && items[j].dbOk ==> !HasKey(env, items[j].payload, pkField, pk)
    ensures LastAccepted(env, items, n, pkField, pk) == Some(i)
  {
    HasKeyIsItemPk(env, items[n - 1].payload, pkField, pk);
    hide HasKey, ItemPk;
    if i < n - 1 { LastAcceptedIs(env, items, n - 1, pkField, pk, i); }
  }

  lemma NoneAccepted(env: Env, items: seq<Item>, n: nat, pkField: string, pk: string)
    requires n <= |items|
    requires forall j :: 0 <= j < n && items[j].dbOk ==> !HasKey(env, items[j].payload, pkField, pk)
    ensures LastAccepted(env, items, n, pkField, pk) == None
  {
    var last := LastAccepted(env, items, n, pkField, pk);
    if last.Some? { HasKeyIsItemPk(env, items[last.value].payload, pkField, pk); }
  }

  /** The batch is worked through: known and enabled dataset, right signature, readable
      items, and no first answer to repeat. */
  predicate TakenUp(s: State, b: Step)
    requires b.Ingest?
  {
    && b.id in s.datasets && s.datasets[b.id].enabled && b.signed && b.items.Some?
    && !(b.delivery != "" && b.looks && DeliveryKey(b.id, b.delivery) in s.deliveries)
  }

  /** How an ingest is answered, and which delivery it notes. */
  lemma IngestAnswers(env: Env, s: State, b: Step, s': State, r: Response, other: DeliveryKey)
    requires b.Ingest? && Ingests(env, s, b, s', r)
    ensures r == NotFound <==> b.id !in s.datasets || !s.datasets[b.id].enabled
    ensures b.id in s.datasets && s.datasets[b.id].enabled ==> (r == Unauthorized <==> !b.signed)
    ensures var dk := DeliveryKey(b.id, b.delivery);
            && (b.id in s.datasets && s.datasets[b.id].enabled && b.signed && !TakenUp(s, b) ==>
                  r == if b.delivery != "" && b.looks && dk in s.deliveries then Answered(s.deliveries[dk].result)
                       else Malformed)
            && (!TakenUp(s, b) ==> s' == s)
            && (TakenUp(s, b) ==> r.Answered?)
            && Get(s'.deliveries, other) ==
               if TakenUp(s, b) && other == dk && b.delivery != "" && b.saves && dk !in s.deliveries
               then Some(Delivery(r.result, b.now)) else Get(s.deliveries, other)
  {
    hide Written, Tally;
  }

  /** What an ingest leaves under a key, read off the batch: the last item with this key
      that was written, with its rows under the dataset's rules, else what was there. */
  lemma IngestStores(env: Env, s: State, b: Step, s': State, r: Response, pk: string, i: nat)
    requires b.Ingest? && Ingests(env, s, b, s', r) && TakenUp(s, b)
    ensures var d, items, rk := s.datasets[b.id], b.items.value, RecordKey(b.id, pk);
            && (i < |items| && items[i].dbOk && HasKey(env, items[i].payload, d.pkField, pk)
                && (forall j :: i < j < |items| && items[j].dbOk ==> !HasKey(env, items[j].payload, d.pkField, pk)) ==>
                  && Get(s'.records, rk) == Some(Record(items[i].payload, items[i].at))
                  && forall f, k :: Get(s'.index, IndexKey(b.id, pk, f, k)) ==
                                    Get(RowsOf(d.rules, items[i].payload), (f, k)))
            && ((forall j :: 0 <= j < |items| && items[j].dbOk ==> !HasKey(env, items[j].payload, d.pkField, pk)) ==>
                  && Get(s'.records, rk) == Get(s.records, rk)
                  && forall f, k :: Get(s'.index, IndexKey(b.id, pk, f, k)) == Get(s.index, IndexKey(b.id, pk, f, k)))
  {
    var d, items := s.datasets[b.id], b.items.value;
    var written := s'.(deliveries := s.deliveries);
    hide RowsOf, HasKey, LastAccepted, Tally;
    if i < |items| && items[i].dbOk && HasKey(env, items[i].payload, d.pkField, pk)
      && (forall j :: i < j < |items| && items[j].dbOk ==> !HasKey(env, items[j].payload, d.pkField, pk)) {
      LastAcceptedIs(env, items, |items|, d.pkField, pk, i);
    }
    if forall j :: 0 <= j < |items| && items[j].dbOk ==> !HasKey(env, items[j].payload, d.pkField, pk) {
      NoneAccepted(env, items, |items|, d.pkField, pk);
    }
    assert Written(env, s, b.id, d, items, |items|, written);
    assert Get(written.records, RecordKey(b.id, pk)) == Get(s'.records, RecordKey(b.id, pk));
  }

  /** Other datasets are left alone. */
  lemma IngestSparesOthers(env: Env, s: State, b: Step, s': State, r: Response, rk: RecordKey, ik: IndexKey)
    requires b.Ingest? && Ingests(env, s, b, s', r) && rk.dataset != b.id && ik.dataset != b.id
    ensures s'.datasets == s.datasets
    ensures Get(s'.records, rk) == Get(s.records, rk) && Get(s'.index, ik) == Get(s.index, ik)
  {
    hide Tally, LastAccepted, RowAt;
    if TakenUp(s, b) {
      var written := s'.(deliveries := s.deliveries);
      assert Written(env, s, b.id, s.datasets[b.id], b.items.value, |b.items.value|, written);
      assert Get(written.records, rk) == Get(s'.records, rk);
    }
  }

  ghost predicate IsWritten(env: Env, item: Item, pkField: string) {
    item.dbOk && exists pk :: HasKey(env, item.payload, pkField, pk)
  }

  ghost predicate RejectedAs(env: Env, item: Item, pkField: string, x: Rejection) {
    match x
    case MissingPk => forall pk :: !HasKey(env, item.payload, pkField, pk)
    case DbError(pk) => !item.dbOk && HasKey(env, item.payload, pkField, pk)
  }

  /** The answer counts the items written, and names in order those without a key and
      the keys of those the database refused; `at` are their positions. */
  ghost predicate Reports(env: Env, items: seq<Item>, n: nat, pkField: string, at: seq<nat>, r: IngestResult)
    requires n <= |items|
  {
    && |at| == |r.rejected| && r.accepted + |at| == n
    && (forall a :: 0 <= a < |at| ==> at[a] < n && (a > 0 ==> at[a - 1] < at[a]))
    && (forall i :: 0 <= i < n ==> (i !in at <==> IsWritten(env, items[i], pkField)))
    && (forall a :: 0 <= a < |at| ==> RejectedAs(env, items[at[a]], pkField, r.rejected[a]))
  }

  lemma {:induction false} TallyReports(env: Env, items: seq<Item>, n: nat, pkField: string) returns (at: seq<nat>)
    requires n <= |items|
    ensures Reports(env, items, n, pkField, at, Tally(env, items, n, pkField))
  {
    hide *;
    at := [];
    NothingReported(env, items, pkField);
    if n > 0 {
      at := TallyReports(env, items, n - 1, pkField);
      var x := TallyStep(env, items, n, pkField);
      if x.Some? {
        OneMoreRejected(env, items, n, pkField, at, Tally(env, items, n - 1, pkField), x.value);
        at := at + [n - 1];
      } else {
        OneMoreAccepted(env, items, n, pkField, at, Tally(env, items, n - 1, pkField));
      }
    }
  }

  lemma NothingReported(env: Env, items: seq<Item>, pkField: string)
    ensures Reports(env, items, 0, pkField, [], Tally(env, items, 0, pkField))
  {}

  lemma OneMoreAccepted(env: Env, items: seq<Item>, n: nat, pkField: string, at: seq<nat>, r: IngestResult)
    requires 0 < n <= |items| && Reports(env, items, n - 1, pkField, at, r) && IsWritten(env, items[n - 1], pkField)
    ensures Reports(env, items, n, pkField, at, r.(accepted := r.accepted + 1))
  {
    hide IsWritten, RejectedAs;
  }

  lemma OneMoreRejected(env: Env, items: seq<Item>, n: nat, pkField: string, at: seq<nat>, r: IngestResult,
      x: Rejection)
    requires 0 < n <= |items| && Reports(env, items, n - 1, pkField, at, r)
    requires !IsWritten(env, items[n - 1], pkField) && RejectedAs(env, items[n - 1], pkField, x)
    ensures Reports(env, items, n, pkField, at + [n - 1], r.(rejected := r.rejected + [x]))
  {
    hide IsWritten, RejectedAs;
    forall i ensures i in at + [n - 1] <==> i in at || i == n - 1 {}
  }

  /** How the last of `n` items is counted. */
  lemma TallyStep(env: Env, items: seq<Item>, n: nat, pkField: string) returns (x: Option<Rejection>)
    requires 0 < n <= |items|
    ensures var r, before := Tally(env, items, n, pkField), Tally(env, items, n - 1, pkField);
            if x.Some? then r == before.(rejected := before.rejected + [x.value])
            else r == before.(accepted := before.accepted + 1)
    ensures x == None <==> IsWritten(env, items[n - 1], pkField)
    ensures x.Some? ==> RejectedAs(env, items[n - 1], pkField, x.value)
  {
    var payload := items[n - 1].payload;
    var key := ItemPk(env, payload, pkField);
    forall pk ensures HasKey(env, payload, pkField, pk) <==> key == Some(pk) {
      HasKeyIsItemPk(env, payload, pkField, pk);
    }
    hide HasKey, ItemPk;
    if key.Some? { assert HasKey(env, payload, pkField, key.value); }
    x := if key.None? then Some(MissingPk) else if items[n - 1].dbOk then None else Some(DbError(key.value));
  }

  // ------------------------------------------------------- batches and replays

  /** No handler overwrites a delivery that is kept. */
  lemma DeliveryStep(env: Env, s: State, step: Step, s': State, dk: DeliveryKey)
    requires Does(env, s, step, s') && dk in s.deliveries && dk in s'.deliveries
    ensures s'.deliveries[dk] == s.deliveries[dk]
  {
    hide Written, Tally, Reindexed, LiveRecords, RowsWithRecord, BuiltWithRecord;
    if step.Reindex? || step.Delete? { DeliveriesLeftAlone(env, s, step, s'); }
    if step.Ingest? { var r :| Ingests(env, s, step, s', r); }
  }

  lemma DeliveriesLeftAlone(env: Env, s: State, step: Step, s': State)
    requires Does(env, s, step, s') && (step.Reindex? || step.Delete?)
    ensures s'.deliveries == s.deliveries
  {}

  lemma {:induction false} DeliveryKept(env: Env, run: seq<State>, steps: seq<Step>, i: nat, j: nat, dk: DeliveryKey)
    requires IsRun(env, run, steps) && i <= j <= |steps|
    requires forall k :: i <= k <= j ==> dk in run[k].deliveries
    ensures run[j].deliveries[dk] == run[i].deliveries[dk]
    decreases j
  {
    if i < j {
      DeliveryKept(env, run, steps, i, j - 1, dk);
      hide Does;
      assert Does(env, run[j - 1], steps[j - 1], run[j]);
      DeliveryStep(env, run[j - 1], steps[j - 1], run[j], dk);
    }
  }

  /** While a delivery id is retained a retry changes nothing and gets the first answer,
      whatever it carries and whatever other handlers did in between; only a dataset
      disabled or deleted meanwhile and a bad signature are refused first. */
  lemma ReplayById(env: Env, run: seq<State>, steps: seq<Step>, i: nat, j: nat, r1: Response, r2: Response)
    requires IsRun(env, run, steps) && i < j < |steps| && steps[i].Ingest? && steps[j].Ingest?
    requires steps[j].id == steps[i].id && steps[j].delivery == steps[i].delivery != ""
    requires forall k :: i < k <= j ==> DeliveryKey(steps[i].id, steps[i].delivery) in run[k].deliveries
    requires steps[i].looks || DeliveryKey(steps[i].id, steps[i].delivery) !in run[i].deliveries
    requires Ingests(env, run[i], steps[i], run[i + 1], r1) && r1.Answered?
    requires steps[j].looks && Ingests(env, run[j], steps[j], run[j + 1], r2)
    ensures run[j + 1] == run[j]
    ensures var known := steps[j].id in run[j].datasets && run[j].datasets[steps[j].id].enabled;
            r2 == if !known then NotFound else if !steps[j].signed then Unauthorized else r1
  {
    var dk := DeliveryKey(steps[i].id, steps[i].delivery);
    hide Does, Written, Tally;
    DeliveryKept(env, run, steps, i + 1, j, dk);
    hide IsRun;
    assert r1 == Answered(run[i + 1].deliveries[dk].result);
  }

  predicate SamePattern(a: seq<Item>, b: seq<Item>) {
    |a| == |b| && forall i :: 0 <= i < |a| ==> a[i].payload == b[i].payload && a[i].dbOk == b[i].dbOk
  }

  lemma {:induction false} SamePatternSameLast(env: Env, a: seq<Item>, b: seq<Item>, n: nat, pkField: string,
      pk: string)
    requires SamePattern(a, b) && n <= |a|
    ensures LastAccepted(env, a, n, pkField, pk) == LastAccepted(env, b, n, pkField, pk)
  {
    if n > 0 { SamePatternSameLast(env, a, b, n - 1, pkField, pk); }
  }

  /** Without an id the same batch, failing where it failed before, leaves every
      payload and the index as the first run left them. */
  lemma ReplayWithoutId(env: Env, s: State, id: string, d: Dataset, a: seq<Item>, s1: State, b: seq<Item>, s2: State)
    requires SamePattern(a, b)
    requires Written(env, s, id, d, a, |a|, s1) && Written(env, s1, id, d, b, |b|, s2)
    ensures s2.index == s1.index && s2.built == s1.built && s2.records.Keys == s1.records.Keys
    ensures forall rk :: rk in s1.records ==> rk in s2.records && s2.records[rk].payload == s1.records[rk].payload
  {
    forall rk ensures Get(s2.built, rk) == Get(s1.built, rk)
      ensures rk in s2.records <==> rk in s1.records
      ensures rk in s1.records && rk in s2.records ==> s2.records[rk].payload == s1.records[rk].payload
    {
      SamePatternSameLast(env, a, b, |a|, d.pkField, rk.pk);
      assert Get(s1.records, rk) == Get(s1.records, rk) && Get(s2.records, rk) == Get(s2.records, rk);
    }
    forall ik ensures Get(s2.index, ik) == Get(s1.index, ik) {
      SamePatternSameLast(env, a, b, |a|, d.pkField, ik.pk);
    }
    SameLookups(s2.index, s1.index);
    SameLookups(s2.built, s1.built);
  }

  function PayloadOf(s: State, rk: RecordKey): Option<Json> {
    if rk in s.records then Some(s.records[rk].payload) else None
  }

  predicate SamePayloads(a: seq<Item>, b: seq<Item>) {
    |a| == |b| && forall i :: 0 <= i < |a| ==> a[i].payload == b[i].payload
  }

  predicate AllCommit(a: seq<Item>) { forall i :: 0 <= i < |a| ==> a[i].dbOk }

  /** Items of the batch with the same primary key carry the same payload. */
  predicate OnePayloadPerKey(env: Env, items: seq<Item>, pkField: string) {
    forall i, j :: 0 <= i < |items| && 0 <= j < |items| && SameKey(env, items, pkField, i, j) ==>
      items[i].payload == items[j].payload
  }

  predicate SameKey(env: Env, items: seq<Item>, pkField: string, i: nat, j: nat)
    requires i < |items| && j < |items|
  {
    ItemPk(env, items[i].payload, pkField).Some?
      && ItemPk(env, items[i].payload, pkField) == ItemPk(env, items[j].payload, pkField)
  }

  ghost predicate Unharmed(s: State, s': State) {
    s'.index == s.index && forall rk :: PayloadOf(s', rk) == PayloadOf(s, rk)
  }

  /** A replay of the same payloads never does harm, whichever of its items fail. */
  ghost predicate ReplaysAreHarmless(env: Env, id: string, d: Dataset, a: seq<Item>, s1: State) {
    forall b, s2 :: SamePayloads(a, b) && Written(env, s1, id, d, b, |b|, s2) ==> Unharmed(s1, s2)
  }

  lemma {:induction false} LastAcceptedAtLeast(env: Env, items: seq<Item>, n: nat, pkField: string, i: nat)
    requires i < n <= |items| && items[i].dbOk && ItemPk(env, items[i].payload, pkField).Some?
    ensures var last := LastAccepted(env, items, n, pkField, ItemPk(env, items[i].payload, pkField).value);
            last.Some? && last.value >= i
  {
    if i < n - 1 { LastAcceptedAtLeast(env, items, n - 1, pkField, i); }
  }

  /** Once a batch has been written in full, replaying it does no harm under any
      pattern of failures exactly when its items with the same key carry the same
      payload, which the sender can check on the batch. */
  lemma ReplayHarmlessIff(env: Env, s: State, id: string, d: Dataset, a: seq<Item>, s1: State)
    requires AllCommit(a) && Written(env, s, id, d, a, |a|, s1)
    ensures ReplaysAreHarmless(env, id, d, a, s1) <==> OnePayloadPerKey(env, a, d.pkField)
  {
    hide Written, Unharmed;
    if OnePayloadPerKey(env, a, d.pkField) {
      forall b, s2 | SamePayloads(a, b) && Written(env, s1, id, d, b, |b|, s2) ensures Unharmed(s1, s2) {
        ReplayUnharmed(env, s, id, d, a, s1, b, s2);
      }
    } else {
      var i, j :| 0 <= i < |a| && 0 <= j < |a| && SameKey(env, a, d.pkField, i, j) && a[i].payload != a[j].payload;
      ReplayHarms(env, s, id, d, a, s1, i, j);
    }
  }

  lemma ReplayUnharmed(env: Env, s: State, id: string, d: Dataset, a: seq<Item>, s1: State, b: seq<Item>, s2: State)
    requires AllCommit(a) && SamePayloads(a, b) && OnePayloadPerKey(env, a, d.pkField)
    requires Written(env, s, id, d, a, |a|, s1) && Written(env, s1, id, d, b, |b|, s2)
    ensures Unharmed(s1, s2)
  {
    forall pk | LastAccepted(env, b, |b|, d.pkField, pk).Some?
      ensures LastAccepted(env, a, |a|, d.pkField, pk).Some?
      ensures var i := LastAccepted(env, b, |b|, d.pkField, pk).value;
              var k := LastAccepted(env, a, |a|, d.pkField, pk).value;
              a[k].payload == b[i].payload
    {
      var i := LastAccepted(env, b, |b|, d.pkField, pk).value;
      LastAcceptedAtLeast(env, a, |a|, d.pkField, i);
      var k := LastAccepted(env, a, |a|, d.pkField, pk).value;
      assert SameKey(env, a, d.pkField, i, k);
    }
    assert forall rk :: Latest(env, id, d, b, |b|, rk).Some? ==>
      Latest(env, id, d, a, |a|, rk).Some?
        && Latest(env, id, d, a, |a|, rk).value.payload == Latest(env, id, d, b, |b|, rk).value.payload;
    hide Latest, RowAt;
    forall rk ensures PayloadOf(s2, rk) == PayloadOf(s1, rk) {
      assert Get(s1.records, rk) == Get(s1.records, rk) && Get(s2.records, rk) == Get(s2.records, rk);
    }
    forall ik ensures Get(s2.index, ik) == Get(s1.index, ik) {}
    SameLookups(s2.index, s1.index);
  }

  /** The batch of which only item `m` succeeds. */
  function OnlyItem(a: seq<Item>, m: nat): (b: seq<Item>)
    ensures |b| == |a|
  {
    seq(|a|, i requires 0 <= i < |a| => a[i].(dbOk := i == m))
  }

  lemma {:induction false} OnlyItemLast(env: Env, a: seq<Item>, m: nat, n: nat, pkField: string, pk: string)
    requires m < |a| && n <= |a|
    ensures LastAccepted(env, OnlyItem(a, m), n, pkField, pk) ==
            if m < n && ItemPk(env, a[m].payload, pkField) == Some(pk) then Some(m) else None
  {
    if n > 0 { OnlyItemLast(env, a, m, n - 1, pkField, pk); }
  }

  /** The index with the rows of one key replaced. */
  function IndexWith(index: Index, rk: RecordKey, rows: Rows): Index {
    (map ik | ik in index && Owner(ik) != rk :: index[ik])
    + (map fk: (string, string) | fk in rows :: IndexKey(rk.dataset, rk.pk, fk.0, fk.1) := rows[fk])
  }

  lemma IndexWithAt(index: Index, rk: RecordKey, rows: Rows, ik: IndexKey)
    ensures Get(IndexWith(index, rk, rows), ik) == if Owner(ik) == rk then Get(rows, (ik.field, ik.k))
      else Get(index, ik)
  {
    var fk := (ik.field, ik.k);
    if Owner(ik) == rk && fk in rows {
      assert IndexKey(rk.dataset, rk.pk, fk.0, fk.1) == ik;
    }
  }

  function WithRecord(s: State, rk: RecordKey, payload: Json, rules: seq<Rule>, at: int): State {
    s.(records := s.records[rk := Record(payload, at)],
       built := s.built[rk := Extraction(rules, payload)],
       index := IndexWith(s.index, rk, RowsOf(rules, payload)))
  }

  lemma OnlyItemWritten(env: Env, s: State, id: string, d: Dataset, a: seq<Item>, m: nat)
    requires m < |a| && ItemPk(env, a[m].payload, d.pkField).Some?
    ensures Written(env, s, id, d, OnlyItem(a, m), |a|,
              WithRecord(s, RecordKey(id, ItemPk(env, a[m].payload, d.pkField).value), a[m].payload, d.rules, a[m].at))
  {
    var rk, b := RecordKey(id, ItemPk(env, a[m].payload, d.pkField).value), OnlyItem(a, m);
    forall k ensures Latest(env, id, d, b, |b|, k) == if k == rk then Some(b[m]) else None {
      OnlyItemLast(env, a, m, |a|, d.pkField, k.pk);
      assert k == RecordKey(k.dataset, k.pk);
    }
    hide Latest, ItemPk;
    OneRecordWritten(env, s, id, d, b, rk, b[m]);
  }

  lemma OneRecordWritten(env: Env, s: State, id: string, d: Dataset, b: seq<Item>, rk: RecordKey, item: Item)
    requires forall k :: Latest(env, id, d, b, |b|, k) == if k == rk then Some(item) else None
    ensures Written(env, s, id, d, b, |b|, WithRecord(s, rk, item.payload, d.rules, item.at))
  {
    hide Latest, RowsOf, IndexWith;
    forall ik ensures Get(IndexWith(s.index, rk, RowsOf(d.rules, item.payload)), ik) ==
                        if Owner(ik) == rk then RowAt(d.rules, item.payload, ik) else Get(s.index, ik) {
      IndexWithAt(s.index, rk, RowsOf(d.rules, item.payload), ik);
    }
  }

  lemma ReplayHarms(env: Env, s: State, id: string, d: Dataset, a: seq<Item>, s1: State, i: nat, j: nat)
    requires AllCommit(a) && Written(env, s, id, d, a, |a|, s1)
    requires i < |a| && j < |a| && SameKey(env, a, d.pkField, i, j) && a[i].payload != a[j].payload
    ensures !ReplaysAreHarmless(env, id, d, a, s1)
  {
    var pk := ItemPk(env, a[i].payload, d.pkField).value;
    LastAcceptedAtLeast(env, a, |a|, d.pkField, i);
    var k := LastAccepted(env, a, |a|, d.pkField, pk).value;
    var m := if a[k].payload == a[i].payload then j else i;
    PayloadWritten(env, s, id, d, a, s1, pk);
    hide LastAccepted, ItemPk, Written, IndexWith, RowsOf;
    var b := OnlyItem(a, m);
    var s2 := WithRecord(s1, RecordKey(id, pk), a[m].payload, d.rules, a[m].at);
    OnlyItemWritten(env, s1, id, d, a, m);
    assert PayloadOf(s2, RecordKey(id, pk)) != PayloadOf(s1, RecordKey(id, pk));
    assert SamePayloads(a, b) && Written(env, s1, id, d, b, |b|, s2) && !Unharmed(s1, s2);
  }

  lemma PayloadWritten(env: Env, s: State, id: string, d: Dataset, items: seq<Item>, s1: State, pk: string)
    requires Written(env, s, id, d, items, |items|, s1) && LastAccepted(env, items, |items|, d.pkField, pk).Some?
    ensures var last := LastAccepted(env, items, |items|, d.pkField, pk).value;
            PayloadOf(s1, RecordKey(id, pk)) == Some(items[last].payload)
  {
    hide LastAccepted, RowAt;
    assert Get(s1.records, RecordKey(id, pk)) == Get(s1.records, RecordKey(id, pk));
  }

  /** So a replay that fails where the first run did not can bring back a value
      that the first run had overwritten. */
  lemma ReplayMayRestoreOlder(env: Env, s: State, id: string, d: Dataset, older: Json, newer: Json, pk: string,
      s1: State, s2: State)
    requires ItemPk(env, older, d.pkField) == ItemPk(env, newer, d.pkField) == Some(pk)
    requires Written(env, s, id, d, [Item(older, true, 0), Item(newer, true, 0)], 2, s1)
    requires Written(env, s1, id, d, [Item(older, true, 1), Item(newer, false, 1)], 2, s2)
    ensures Get(s1.records, RecordKey(id, pk)) == Some(Record(newer, 0))
    ensures Get(s2.records, RecordKey(id, pk)) == Some(Record(older, 1))
  {
    var again := [Item(older, true, 1), Item(newer, false, 1)];
    assert LastAccepted(env, again, 1, d.pkField, pk) == Some(0);
    assert LastAccepted(env, again, 2, d.pkField, pk) == Some(0);
    assert Latest(env, id, d, again, 2, RecordKey(id, pk)) == Some(again[0]);
  }

  // ---------------------------------------------------------------- the tables

  /** The database with its handlers. Each handler's effect is the step above. */
  class Database {
    var datasets: map<string, Dataset>
    var records: map<RecordKey, Record>
    var index: Index
    var deliveries: map<DeliveryKey, Delivery>
    ghost var built: map<RecordKey, Extraction>

    ghost function View(): State
      reads this
    {
      State(datasets, records, index, deliveries, built)
    }

    constructor ()
      ensures View() == EMPTY
    {
      datasets, records, index, deliveries := map[], map[], map[], map[];
      built := map[];
    }

    /** INSERT ... ON CONFLICT DO UPDATE, entry by entry. */
    method InsertIndexEntries(rk: RecordKey, entries: seq<Entry>)
      modifies this`index
      ensures forall ik :: Get(index, ik) ==
                if Owner(ik) == rk && (ik.field, ik.k) in LastWins(entries)
                  then Get(LastWins(entries), (ik.field, ik.k))
                else Get(old(index), ik)
    {
      for i := 0 to |entries|
        invariant forall ik :: Get(index, ik) ==
                    if Owner(ik) == rk && (ik.field, ik.k) in LastWins(entries[..i])
                      then Get(LastWins(entries[..i]), (ik.field, ik.k))
                    else Get(old(index), ik)
      {
        assert entries[..i + 1][..i] == entries[..i];
        var e := entries[i];
        index := index[IndexKey(rk.dataset, rk.pk, e.field, e.k) := e.cell];
      }
      assert entries[..|entries|] == entries;
    }

    /** One transaction: the record is overwritten and its rows rebuilt, or
        nothing happens. */
    method UpsertRecord(rk: RecordKey, payload: Json, entries: seq<Entry>, ghost rules: seq<Rule>, dbOk: bool, at: int)
        returns (ok: bool)
      requires entries == Extracted(rules, payload)
      modifies this`records, this`index, this`built
      ensures ok == dbOk
      ensures !dbOk ==> View() == old(View())
      ensures dbOk ==> Upserted(old(View()), rk, payload, rules, at, View())
    {
      if !dbOk {
        return false;
      }
      records := records[rk := Record(payload, at)];
      index := map ik | ik in index && Owner(ik) != rk :: index[ik];
      InsertIndexEntries(rk, entries);
      built := built[rk := Extraction(rules, payload)];
      ok := true;
    }

    /** Deletes the dataset's rows and inserts them again record by record. */
    method ReindexDataset(id: string, rules: seq<Rule>, commits: bool) returns (count: Option<nat>)
      modifies this`index, this`built
      ensures !commits ==> View() == old(View()) && count.None?
      ensures commits ==> Reindexed(old(View()), id, rules, View())
      ensures commits ==> count == Some(|set rk | rk in records && rk.dataset == id|)
    {
      hide Extracted, LastWins, PartlyReindexed, Reindexed;
      if !commits {
        return None;
      }
      index := map ik | ik in index && ik.dataset != id :: index[ik];
      built := map rk | rk in built && rk.dataset != id :: built[rk];
      var mine := set rk | rk in records && rk.dataset == id;
      var todo := mine;
      NoneReindexed(old(View()), id, rules, View());
      assert mine - todo == {};
      while todo != {}
        invariant todo <= mine
        invariant PartlyReindexed(old(View()), id, rules, mine - todo, View())
      {
        ghost var mid := View();
        var rk :| rk in todo;
        var entries := ExtractEntries(rules, records[rk].payload);
        InsertIndexEntries(rk, entries);
        built := built[rk := Extraction(rules, records[rk].payload)];
        OneMoreReindexed(old(View()), id, rules, mine - todo, rk, mid, View());
        assert mine - (todo - {rk}) == mine - todo + {rk};
        todo := todo - {rk};
      }
      assert mine - todo == mine;
      AllReindexed(old(View()), id, rules, mine, View());
      count := Some(|mine|);
    }

    /** Removes expired records, then index rows left without a record, then expired
        deliveries, and says how many records went; or stops after `stop` of the
        three statements with an error. */
    method PurgeExpired(id: string, d: Dataset, now: int, later: int, stop: nat) returns (count: Option<nat>)
      modifies this
      ensures d.retentionDays <= 0 ==> View() == old(View()) && count == Some(0)
      ensures d.retentionDays > 0 ==> Purged(old(View()), id, d, now, later, stop, View())
      ensures d.retentionDays > 0 ==>
                count == if stop < 3 then None
                         else Some(|set rk | rk in old(records) && rk.dataset == id
                           && old(records)[rk].updatedAt < now - d.retentionDays * 86_400_000_000|)
    {
      if d.retentionDays <= 0 {
        return Some(0);
      }
      if stop == 0 {
        return None;
      }
      var outdated := set rk | rk in records && rk.dataset == id && Expired(d, records[rk].updatedAt, now);
      assert outdated == set rk | rk in records && rk.dataset == id
        && records[rk].updatedAt < now - d.retentionDays * 86_400_000_000;
      var n := |outdated|;
      hide LiveRecords, RowsWithRecord, BuiltWithRecord, LiveDeliveries;
      records := LiveRecords(records, id, d, now);
      if stop == 1 {
        return None;
      }
      index := RowsWithRecord(index, records, id);
      built := BuiltWithRecord(built, records, id);
      if stop == 2 {
        return None;
      }
      deliveries := LiveDeliveries(deliveries, id, d, later);
      count := Some(n);
    }

    method HandleCreate(env: Env, id: string, input: DatasetInput) returns (ok: bool)
      modifies this`datasets
      ensures Does(env, old(View()), Create(id, input), View())
      ensures ok <==> id != "" && ValidRules(input.rules) && id !in old(datasets)
    {
      if id == "" {
        return false;
      }
      var bad := ValidateRules(input.rules);
      if bad.Some? {
        return false;
      }
      var pkField := input.pkField;
      if pkField == "" {
        pkField := "id";
      }
      var retention := 0;
      if input.retentionDays.Some? && input.retentionDays.value >= 0 {
        retention := input.retentionDays.value;
      }
      if id in datasets {
        return false;
      }
      datasets := datasets[id := Dataset(pkField, input.rules, true, retention)];
      ok := true;
    }

    method HandleEdit(env: Env, id: string, input: DatasetInput) returns (ok: bool)
      modifies this`datasets
      ensures Does(env, old(View()), Edit(id, input), View())
      ensures ok <==> ValidRules(input.rules) && id in old(datasets)
    {
      var bad := ValidateRules(input.rules);
      if bad.Some? || id !in datasets {
        return false;
      }
      var d := datasets[id];
      var pkField := input.pkField;
      if pkField == "" {
        pkField := d.pkField;
      }
      var enabled := d.enabled;
      if input.enabled.Some? {
        enabled := input.enabled.value;
      }
      var retention := d.retentionDays;
      if input.retentionDays.Some? && input.retentionDays.value >= 0 {
        retention := input.retentionDays.value;
      }
      datasets := datasets[id := Dataset(pkField, input.rules, enabled, retention)];
      ok := true;
    }

    method HandleReindex(env: Env, id: string, commits: bool) returns (count: Option<nat>)
      requires Consistent(View())
      modifies this
      ensures Does(env, old(View()), Reindex(id, commits), View())
      ensures Consistent(View())
      ensures count == if id in datasets && commits then Some(|set rk | rk in records && rk.dataset == id|) else None
    {
      StepsKeep(env, Reindex(id, commits), View());
      hide Consistent;
      if id !in datasets {
        return None;
      }
      count := ReindexDataset(id, datasets[id].rules, commits);
    }

    /** Fails for an unknown dataset and when a statement does. */
    method HandlePurge(env: Env, id: string, now: int, later: int, stop: nat) returns (count: Option<nat>)
      requires Consistent(View())
      modifies this
      ensures Does(env, old(View()), Purge(id, now, later, stop), View())
      ensures Consistent(View())
      ensures count.Some? <==> id in datasets && (stop >= 3 || datasets[id].retentionDays <= 0)
      ensures count.Some? && datasets[id].retentionDays <= 0 ==> count.value == 0
      ensures count.Some? && datasets[id].retentionDays > 0 ==>
                count.value == |set rk | rk in old(records) && rk.dataset == id
                  && old(records)[rk].updatedAt < now - datasets[id].retentionDays * 86_400_000_000|
    {
      StepsKeep(env, Purge(id, now, later, stop), View());
      hide Consistent, Purged;
      if id !in datasets {
        return None;
      }
      count := PurgeExpired(id, datasets[id], now, later, stop);
    }

    /** The rows go first, then the records, when asked for, even if the dataset is
        unknown; then the dataset. It may stop after `stop` of the three statements. */
    method HandleDelete(env: Env, id: string, purge: bool, stop: nat) returns (found: bool)
      requires Consistent(View())
      modifies this
      ensures Does(env, old(View()), Delete(id, purge, stop), View())
      ensures Consistent(View())
      ensures found <==> id in old(datasets) && stop >= 3
    {
      StepsKeep(env, Delete(id, purge, stop), View());
      hide Consistent, Emptied, Reindexed;
      if purge {
        if stop == 0 {
          return false;
        }
        DeleteRows(id);
        if stop == 1 {
          return false;
        }
        DeleteRecords(id);
      }
      if stop <= 2 {
        return false;
      }
      found := id in datasets;
      datasets := datasets - {id};
    }

    /** Without its rows a record is as one reindexed under no rules. */
    method DeleteRows(id: string)
      modifies this`index, this`built
      ensures Reindexed(old(View()), id, [], View())
    {
      ghost var before := View();
      index := map ik | ik in index && ik.dataset != id :: index[ik];
      built := BuiltWithoutRows(View(), id);
      hide Reindexed, BuiltWithoutRows;
      RowsDeleted(before, id, View());
    }

    method DeleteRecords(id: string)
      modifies this`records, this`built
      ensures forall s :: Reindexed(s, id, [], old(View())) ==> Emptied(s, id, View())
    {
      records := map rk | rk in records && rk.dataset != id :: records[rk];
      built := map rk | rk in built && rk.dataset != id :: built[rk];
      forall s | Reindexed(s, id, [], old(View())) ensures Emptied(s, id, View()) {
        EmptiedAfterRows(s, id, old(View()), View());
      }
    }

    /** Compiles a request against the tables as they are. It is refused exactly when it
        cannot be read. Otherwise the query selects exactly the records whose documents
        are wanted, and whatever answer the database gives, the page holds those whose
        rank lies in its window. */
    method HandleRecords(env: Env, req: Request) returns (r: Result<CompiledQuery, RequestError>)
      requires Consistent(View())
      ensures r.Ok? <==> WellFormed(env, req)
      ensures r.Ok? ==> Compiles(env, req, r.value)
      ensures r.Ok? ==> forall rk :: rk in records ==>
                (Selects(env, r.value, index, RowOf(View(), rk)) <==> DocumentWanted(env, req, View(), rk))
      ensures r.Ok? && Collates(env) ==>
        forall rows, rk :: rk in records && IsAnswer(env, r.value, index, Table(View()), rows) ==>
                (RowOf(View(), rk) in Page(r.value, rows) <==> OnPage(env, req, View(), rk))
    {
      r := CompileRequest(env, req);
      if r.Ok? {
        ghost var s := View();
        RecordsAreBuiltAll(s);
        hide Consistent, Selects, Wanted, DocumentWanted, Before, QueryBefore, IsAnswer, Collates, Rank, Page;
        forall rk | rk in s.records
          ensures Selects(env, r.value, s.index, RowOf(s, rk)) <==> DocumentWanted(env, req, s, rk)
        {
          WantedIffDocumentWanted(env, s, req, rk);
        }
        if Collates(env) {
          forall rows, rk | rk in s.records && IsAnswer(env, r.value, s.index, Table(s), rows)
            ensures RowOf(s, rk) in Page(r.value, rows) <==> OnPage(env, req, s, rk)
          {
            PageOfDocuments(env, s, req, r.value, rows, rk);
          }
        }
      }
    }

    /** A batch: each item is its own transaction; one failing does not stop the
        others. */
    method HandleIngest(env: Env, b: Step) returns (r: Response)
      requires b.Ingest? && Consistent(View())
      modifies this
      ensures Ingests(env, old(View()), b, View(), r)
      ensures Consistent(View())
    {
      StepsKeep(env, b, View());
      hide Consistent, Written, Tally;
      if b.id !in datasets || !datasets[b.id].enabled {
        return NotFound;
      }
      var d := datasets[b.id];
      if !b.signed {
        return Unauthorized;
      }
      if b.delivery != "" && b.looks && DeliveryKey(b.id, b.delivery) in deliveries {
        return Answered(deliveries[DeliveryKey(b.id, b.delivery)].result);
      }
      if b.items.None? {
        return Malformed;
      }
      var result := WriteItems(env, b.id, d, b.items.value);
      SaveDelivery(b, result);
      r := Answered(result);
      assert Ingests(env, old(View()), b, View(), r);
      assert Does(env, old(View()), b, View());
    }

    /** INSERT ... ON CONFLICT DO NOTHING; a failure is only logged. */
    method SaveDelivery(b: Step, result: IngestResult)
      requires b.Ingest?
      modifies this`deliveries
      ensures deliveries == Noted(old(deliveries), b, result)
    {
      if b.delivery == "" || !b.saves {
        return;
      }
      if DeliveryKey(b.id, b.delivery) !in deliveries {
        deliveries := deliveries[DeliveryKey(b.id, b.delivery) := Delivery(result, b.now)];
      }
    }

    method WriteItems(env: Env, id: string, d: Dataset, items: seq<Item>) returns (result: IngestResult)
      modifies this`records, this`index, this`built
      ensures result == Tally(env, items, |items|, d.pkField)
      ensures Written(env, old(View()), id, d, items, |items|, View())
    {
      hide Upserted, Written, LastAccepted, Extracted, ItemPk;
      NothingWritten(env, View(), id, d, items);
      var accepted: nat := 0;
      var rejected: seq<Rejection> := [];
      for i := 0 to |items|
        invariant IngestResult(accepted, rejected) == Tally(env, items, i, d.pkField)
        invariant Written(env, old(View()), id, d, items, i, View())
      {
        var item := items[i];
        ghost var mid := View();
        var pk := ItemPk(env, item.payload, d.pkField);
        if pk.None? {
          OneMoreSkipped(env, old(View()), id, d, items, i, mid);
          rejected := rejected + [MissingPk];
          continue;
        }
        var entries := ExtractEntries(d.rules, item.payload);
        var ok := UpsertRecord(RecordKey(id, pk.value), item.payload, entries, d.rules, item.dbOk, item.at);
        if !ok {
          OneMoreSkipped(env, old(View()), id, d, items, i, mid);
          rejected := rejected + [DbError(pk.value)];
          continue;
        }
        OneMoreWritten(env, old(View()), id, d, items, i, mid, View());
        accepted := accepted + 1;
      }
      result := IngestResult(accepted, rejected);
    }
  }

  lemma NoRulesNoRows()
    ensures forall payload, ik :: RowAt([], payload, ik) == None
  {
    forall payload, ik ensures RowAt([], payload, ik) == None {
      assert RowsOf([], payload) == map[];
    }
  }

  ghost function BuiltWithoutRows(s: State, id: string): map<RecordKey, Extraction> {
    (map rk | rk in s.built && rk.dataset != id :: s.built[rk])
    + (map rk | rk in s.records && rk.dataset == id :: Extraction([], s.records[rk].payload))
  }

  lemma RowsDeleted(s: State, id: string, s': State)
    requires s' == s.(index := map ik | ik in s.index && ik.dataset != id :: s.index[ik],
                      built := BuiltWithoutRows(s, id))
    ensures Reindexed(s, id, [], s')
  {
    NoRulesNoRows();
    hide RowAt, BuiltWithoutRows;
    forall rk ensures Get(s'.built, rk) ==
                        if rk.dataset != id then Get(s.built, rk)
                        else if rk in s.records then Some(Extraction([], s.records[rk].payload)) else None {
      BuiltWithoutRowsAt(s, id, rk);
    }
  }

  lemma BuiltWithoutRowsAt(s: State, id: string, rk: RecordKey)
    ensures Get(BuiltWithoutRows(s, id), rk) ==
            if rk.dataset != id then Get(s.built, rk)
            else if rk in s.records then Some(Extraction([], s.records[rk].payload)) else None
  {}

  lemma EmptiedAfterRows(s: State, id: string, mid: State, s': State)
    requires Reindexed(s, id, [], mid)
    requires s' == mid.(records := map rk | rk in mid.records && rk.dataset != id :: mid.records[rk],
                        built := map rk | rk in mid.built && rk.dataset != id :: mid.built[rk])
    ensures Emptied(s, id, s')
  {
    NoRulesNoRows();
    var index := map ik | ik in s.index && ik.dataset != id :: s.index[ik];
    var built := map rk | rk in s.built && rk.dataset != id :: s.built[rk];
    forall ik ensures Get(s'.index, ik) == Get(index, ik) {}
    forall rk ensures Get(s'.built, rk) == Get(built, rk) {
      assert Get(mid.built, rk) == Get(mid.built, rk);
    }
    SameLookups(s'.index, index);
    SameLookups(s'.built, built);
  }

  lemma StepsKeep(env: Env, step: Step, s: State)
    requires Consistent(s)
    ensures forall s' :: Does(env, s, step, s') ==> Consistent(s')
  {
    forall s' | Does(env, s, step, s') ensures Consistent(s') {
      StepKeepsConsistent(env, s, step, s');
    }
  }
}
