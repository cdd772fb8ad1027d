/** The query compiler of svc-data: filter conditions become SQL over the index
    table, values become numbered parameters (services/svc-data/query.go). */
module Query {
  import opened Prelude
  import opened JsonDoc
  import opened Rules
  import opened Filter

  /** What the libraries decide: number and time syntax, and the text collation
      (negative, zero, positive, as a three-way comparison). */
  datatype Env = Env(
    parseNum: string -> Option<Num>,
    parseTime: string -> Option<int>,
    formatNum: real -> string,
    collate: (string, string) -> int)

  /** Primary key of the table record_index. */
  datatype IndexKey = IndexKey(dataset: string, pk: string, field: string, k: string)

  type Index = map<IndexKey, Cell>

  /** The columns of `record` that a query looks at. */
  datatype RecordRow = RecordRow(dataset: string, pk: string, updatedAt: int)

  // ------------------------------------------------------- what a filter means

  predicate Ordered(op: string, less: bool, equal: bool) {
    match op
    case "=" => equal
    case "<" => less
    case "<=" => less || equal
    case ">" => !less && !equal
    case ">=" => !less
    case _ => false
  }

  /** A value that reads as a number is compared with the numeric column (for `=`
      also as text); any other value is compared with the text column. An absent
      column never matches. */
  predicate CellMatches(env: Env, f: FilterCond, cell: Cell) {
    if f.op == "" then true
    else
      match env.parseNum(f.value)
      case Some(x) =>
        if f.op == "=" then cell.num == Some(x) || cell.txt == Some(f.value)
        else cell.num.Some? && Ordered(f.op, NumLess(cell.num.value, x), cell.num.value == x)
      case None =>
        cell.txt.Some? && Ordered(f.op, env.collate(cell.txt.value, f.value) < 0, cell.txt.value == f.value)
  }

  /** A number in the index against a filter value that reads as a number. */
  lemma NumberMatches(env: Env, f: FilterCond, x: real, n: real)
    requires env.parseNum(f.value) == Some(Finite(n))
    ensures var cell := Cell(Some(Finite(x)), None);
            && (f.op == "=" ==> (CellMatches(env, f, cell) <==> x == n))
            && (f.op == "<" ==> (CellMatches(env, f, cell) <==> x < n))
            && (f.op == "<=" ==> (CellMatches(env, f, cell) <==> x <= n))
            && (f.op == ">" ==> (CellMatches(env, f, cell) <==> x > n))
            && (f.op == ">=" ==> (CellMatches(env, f, cell) <==> x >= n))
            && (f.op == "" ==> CellMatches(env, f, cell))
  {}

  /** A text in the index: against a number only `=` can hold, and then as text;
      against another text it is the text order. */
  lemma TextMatches(env: Env, f: FilterCond, t: string)
    ensures var cell := Cell(None, Some(t));
            && (f.op == "" ==> CellMatches(env, f, cell))
            && (f.op == "=" ==> (CellMatches(env, f, cell) <==> t == f.value))
            && (IsOp(f.op) && f.op != "=" && env.parseNum(f.value).Some? ==> !CellMatches(env, f, cell))
            && (env.parseNum(f.value).None? && Collates(env) ==>
                  && (f.op == "<" ==> (CellMatches(env, f, cell) <==> env.collate(t, f.value) < 0))
                  && (f.op == "<=" ==> (CellMatches(env, f, cell) <==> env.collate(t, f.value) <= 0))
                  && (f.op == ">" ==> (CellMatches(env, f, cell) <==> env.collate(t, f.value) > 0))
                  && (f.op == ">=" ==> (CellMatches(env, f, cell) <==> env.collate(t, f.value) >= 0)))
  {
    if Collates(env) { assert env.collate(t, f.value) == 0 <==> t == f.value; }
  }

  /** Neither number nor text: found by its key alone. */
  lemma EmptyMatches(env: Env, f: FilterCond)
    ensures IsOp(f.op) ==> !CellMatches(env, f, Cell(None, None))
    ensures f.op == "" ==> CellMatches(env, f, Cell(None, None))
  {}

  /** Some index row of the record has the field (and the key, when one is given)
      and a matching value. */
  ghost predicate Satisfies(env: Env, index: Index, rec: RecordRow, f: FilterCond) {
    exists k: string ::
      && IndexKey(rec.dataset, rec.pk, f.field, k) in index
      && (f.key == "" || k == f.key)
      && CellMatches(env, f, index[IndexKey(rec.dataset, rec.pk, f.field, k)])
  }

  // --------------------------------------------------------------- SQL fragment

  datatype Value = VNull | VText(s: string) | VNum(n: Num) | VTime(t: int) | VInt(i: int)

  datatype Column = RDataset | RPk | RUpdatedAt | IDataset | IPk | IField | IK | INum | ITxt

  /** `Param(n)` is the placeholder $n, counted from 1. */
  datatype Operand = Param(n: nat) | Col(c: Column)

  datatype Cond =
    | Cmp(col: Column, op: string, rhs: Operand)
    | And(a: Cond, b: Cond)
    | Or(a: Cond, b: Cond)
    | Exists(sub: Cond)  // EXISTS (SELECT 1 FROM record_index i WHERE sub)

  function NumValue(n: Option<Num>): Value { if n.Some? then VNum(n.value) else VNull }
  function TxtValue(t: Option<string>): Value { if t.Some? then VText(t.value) else VNull }

  function RowColumn(index: Index, row: IndexKey, c: Column): Value
    requires row in index
  {
    match c
    case IDataset => VText(row.dataset)
    case IPk => VText(row.pk)
    case IField => VText(row.field)
    case IK => VText(row.k)
    case INum => NumValue(index[row].num)
    case ITxt => TxtValue(index[row].txt)
    case _ => VNull
  }

  /** `row` is the index row in scope, if any. */
  function ColumnValue(index: Index, rec: RecordRow, row: Option<IndexKey>, c: Column): Value {
    match c
    case RDataset => VText(rec.dataset)
    case RPk => VText(rec.pk)
    case RUpdatedAt => VTime(rec.updatedAt)
    case _ => if row.Some? && row.value in index then RowColumn(index, row.value, c) else VNull
  }

  /** Comparison in three-valued logic: NULL on either side gives NULL (None). */
  function Compare(env: Env, op: string, l: Value, r: Value): Option<bool> {
    match (l, r)
    case (VText(x), VText(y)) => Some(Ordered(op, env.collate(x, y) < 0, x == y))
    case (VNum(x), VNum(y)) => Some(Ordered(op, NumLess(x, y), x == y))
    case (VTime(x), VTime(y)) => Some(Ordered(op, x < y, x == y))
    case _ => None
  }

  function Argument(args: seq<Value>, n: nat): Value {
    if 1 <= n <= |args| then args[n - 1] else VNull
  }

  ghost function Eval(env: Env, index: Index, rec: RecordRow, row: Option<IndexKey>, args: seq<Value>,
      cond: Cond): Option<bool>
    decreases cond
  {
    match cond
    case Cmp(col, op, rhs) =>
      var r := match rhs case Param(n) => Argument(args, n) case Col(c) => ColumnValue(index, rec, row, c);
      Compare(env, op, ColumnValue(index, rec, row, col), r)
    case And(a, b) =>
      var x, y := Eval(env, index, rec, row, args, a), Eval(env, index, rec, row, args, b);
      if x == Some(false) || y == Some(false) then Some(false) else if x == None || y == None then None else Some(true)
    case Or(a, b) =>
      var x, y := Eval(env, index, rec, row, args, a), Eval(env, index, rec, row, args, b);
      if x == Some(true) || y == Some(true) then Some(true) else if x == None || y == None then None else Some(false)
    case Exists(sub) =>
      Some(exists k :: k in index && Eval(env, index, rec, Some(k), args, sub) == Some(true))
  }

  /** The logic of SQL: false decides a conjunction and true a disjunction; otherwise an
      unknown side leaves either unknown. */
  lemma ThreeValued(env: Env, index: Index, rec: RecordRow, row: Option<IndexKey>, args: seq<Value>, a: Cond, b: Cond)
    ensures var x, y := Eval(env, index, rec, row, args, a), Eval(env, index, rec, row, args, b);
            var both, either := Eval(env, index, rec, row, args, And(a, b)), Eval(env, index, rec, row, args, Or(a, b));
            && (both == Some(true) <==> x == Some(true) && y == Some(true))
            && (both == Some(false) <==> x == Some(false) || y == Some(false))
            && (either == Some(true) <==> x == Some(true) || y == Some(true))
            && (either == Some(false) <==> x == Some(false) && y == Some(false))
  {}

  /** And its comparisons: of numbers, of instants, of texts in the text order, unknown as
      soon as a side is NULL. */
  lemma SqlCompares(env: Env, op: string, a: Num, b: Num, s: int, t: int, x: string, y: string, v: Value)
    requires IsOp(op) && Collates(env)
    ensures Compare(env, op, VNum(a), VNum(b)) ==
            Some(match op case "=" => a == b case "<" => NumLess(a, b) case "<=" => NumLess(a, b) || a == b
                 case ">" => NumLess(b, a) case _ => NumLess(b, a) || a == b)
    ensures Compare(env, op, VTime(s), VTime(t)) ==
            Some(match op case "=" => s == t case "<" => s < t case "<=" => s <= t case ">" => s > t case _ => s >= t)
    ensures Compare(env, op, VText(x), VText(y)) ==
            Some(match op case "=" => x == y case "<" => env.collate(x, y) < 0 case "<=" => env.collate(x, y) <= 0
                 case ">" => env.collate(x, y) > 0 case _ => env.collate(x, y) >= 0)
    ensures Compare(env, op, VNull, v) == Compare(env, op, v, VNull) == None
  {
    NumLessTotal(a, b, a);
    assert env.collate(x, y) == 0 <==> x == y;
  }

  // ------------------------------------------------------- compiling one filter

  /** The parts of what an index row must meet to witness a filter. */
  datatype Part = OwnDataset | OwnPk | FieldIs | KeyIs | ValueIs

  ghost predicate RowHolds(env: Env, f: FilterCond, parts: set<Part>, rec: RecordRow, row: IndexKey, cell: Cell) {
    && (OwnDataset in parts ==> row.dataset == rec.dataset)
    && (OwnPk in parts ==> row.pk == rec.pk)
    && (FieldIs in parts ==> row.field == f.field)
    && (KeyIs in parts ==> f.key == "" || row.k == f.key)
    && (ValueIs in parts ==> CellMatches(env, f, cell))
  }

  /** On every index row, with these arguments and whatever is appended to them
      later, the condition is true exactly when the row meets the parts. */
  ghost predicate TestsRow(env: Env, cond: Cond, args: seq<Value>, f: FilterCond, parts: set<Part>) {
    forall index: Index, rec, row, later {:trigger Eval(env, index, rec, Some(row), later, cond)} ::
      row in index && args <= later ==>
        (Eval(env, index, rec, Some(row), later, cond) == Some(true) <==> RowHolds(env, f, parts, rec, row, index[row]))
  }

  lemma ConjoinRowTests(env: Env, f: FilterCond, a: Cond, aArgs: seq<Value>, p: set<Part>, b: Cond, args: seq<Value>,
      q: set<Part>)
    requires TestsRow(env, a, aArgs, f, p) && aArgs <= args && TestsRow(env, b, args, f, q)
    ensures TestsRow(env, And(a, b), args, f, p + q)
  {}

  /** What one conjunct of the WHERE clause is there to say. */
  datatype Meaning =
    | DatasetIs(dataset: string)
    | PkIs(pk: string)
    | NewerThan(t: int)
    | FilterIs(f: FilterCond)
    | AnyOf(fs: seq<FilterCond>)

  ghost predicate MeaningHolds(env: Env, m: Meaning, index: Index, rec: RecordRow) {
    match m
    case DatasetIs(d) => rec.dataset == d
    case PkIs(p) => rec.pk == p
    case NewerThan(t) => rec.updatedAt > t
    case FilterIs(f) => Satisfies(env, index, rec, f)
    case AnyOf(fs) => exists i :: 0 <= i < |fs| && Satisfies(env, index, rec, fs[i])
  }

  /** On every record, with these arguments and whatever is appended to them
      later, the condition is true exactly when its meaning holds. */
  ghost predicate Means(env: Env, cond: Cond, args: seq<Value>, m: Meaning) {
    forall index: Index, rec, later {:trigger Eval(env, index, rec, None, later, cond)} ::
      args <= later ==> (Eval(env, index, rec, None, later, cond) == Some(true) <==> MeaningHolds(env, m, index, rec))
  }

  /** The growing argument list; placeholders are handed out in order. */
  class ArgList {
    var vals: seq<Value>

    constructor ()
      ensures vals == []
    {
      vals := [];
    }

    /** Appends a value and returns the number of its placeholder. */
    method Bind(v: Value) returns (n: nat)
      modifies this
      ensures vals == old(vals) + [v]
      ensures n == |vals| && Argument(vals, n) == v
    {
      vals := vals + [v];
      n := |vals|;
    }
  }

  lemma ExistsTests(env: Env, sub: Cond, args: seq<Value>, f: FilterCond)
    requires TestsRow(env, sub, args, f, {OwnDataset, OwnPk, FieldIs, KeyIs, ValueIs})
    ensures Means(env, Exists(sub), args, FilterIs(f))
  {
    forall index: Index, rec, later | args <= later
      ensures Eval(env, index, rec, None, later, Exists(sub)) == Some(true) <==> Satisfies(env, index, rec, f)
    {
      if Satisfies(env, index, rec, f) {
        var k :| IndexKey(rec.dataset, rec.pk, f.field, k) in index && (f.key == "" || k == f.key)
              && CellMatches(env, f, index[IndexKey(rec.dataset, rec.pk, f.field, k)]);
        var row := IndexKey(rec.dataset, rec.pk, f.field, k);
        assert Eval(env, index, rec, Some(row), later, sub) == Some(true);
      }
      if row :| row in index && Eval(env, index, rec, Some(row), later, sub) == Some(true) {
        assert row == IndexKey(rec.dataset, rec.pk, f.field, row.k);
      }
    }
  }

  const OWN_FIELD := And(Cmp(IDataset, "=", Col(RDataset)), Cmp(IPk, "=", Col(RPk)))

  /** The comparison with the filter's value. */
  method ValueSql(env: Env, f: FilterCond, args: ArgList) returns (cond: Cond)
    requires IsOp(f.op)
    modifies args
    ensures old(args.vals) <= args.vals
    ensures TestsRow(env, cond, args.vals, f, {ValueIs})
  {
    var parsed := env.parseNum(f.value);
    if parsed.Some? {
      var v := args.Bind(VNum(parsed.value));
      if f.op == "=" {
        var t := args.Bind(VText(f.value));
        cond := Or(Cmp(INum, "=", Param(v)), Cmp(ITxt, "=", Param(t)));
      } else {
        cond := Cmp(INum, f.op, Param(v));
      }
    } else {
      var t := args.Bind(VText(f.value));
      cond := Cmp(ITxt, f.op, Param(t));
    }
  }

  /** Compiles one filter to an EXISTS over the index, appending what it needs to
      the arguments. */
  method CondSql(env: Env, f: FilterCond, args: ArgList) returns (cond: Cond)
    requires f.op == "" || IsOp(f.op)
    modifies args
    ensures old(args.vals) <= args.vals
    ensures Means(env, cond, args.vals, FilterIs(f))
  {
    var n := args.Bind(VText(f.field));
    var onField := Cmp(IField, "=", Param(n));
    assert TestsRow(env, OWN_FIELD, args.vals, f, {OwnDataset, OwnPk}) by { OwnRow(env, f, args.vals); }
    ConjoinRowTests(env, f, OWN_FIELD, args.vals, {OwnDataset, OwnPk}, onField, args.vals, {FieldIs});
    var sub := And(OWN_FIELD, onField);
    ghost var parts := {OwnDataset, OwnPk, FieldIs};
    if f.key != "" {
      ghost var before := args.vals;
      var m := args.Bind(VText(f.key));
      var onKey := Cmp(IK, "=", Param(m));
      ConjoinRowTests(env, f, sub, before, parts, onKey, args.vals, {KeyIs});
      sub := And(sub, onKey);
    }
    parts := parts + {KeyIs};
    assert TestsRow(env, sub, args.vals, f, parts);
    if f.op != "" {
      ghost var before := args.vals;
      var onValue := ValueSql(env, f, args);
      ConjoinRowTests(env, f, sub, before, parts, onValue, args.vals, {ValueIs});
      sub := And(sub, onValue);
    }
    assert parts + {ValueIs} == {OwnDataset, OwnPk, FieldIs, KeyIs, ValueIs};
    assert TestsRow(env, sub, args.vals, f, parts + {ValueIs});
    ExistsTests(env, sub, args.vals, f);
    cond := Exists(sub);
  }

  lemma OwnRow(env: Env, f: FilterCond, args: seq<Value>)
    ensures TestsRow(env, OWN_FIELD, args, f, {OwnDataset, OwnPk})
  {
    ConjoinRowTests(env, f, Cmp(IDataset, "=", Col(RDataset)), args, {OwnDataset}, Cmp(IPk, "=", Col(RPk)), args,
      {OwnPk});
    assert {OwnDataset} + {OwnPk} == {OwnDataset, OwnPk};
  }

  // --------------------------------------------------------- compiling a request

  datatype Request = Request(
    dataset: string, pk: string, since: string,
    fs: seq<string>, ors: seq<string>,
    sort: string, limit: Option<int>, offset: Option<int>)

  datatype Order = NewestFirst | ByIndex(fieldParam: nat, keyParam: nat, descending: bool)

  datatype CompiledQuery = CompiledQuery(conds: seq<Cond>, args: seq<Value>, order: Order, limitParam: nat,
    offsetParam: nat)

  datatype RequestError = DatasetRequired | BadSince | BadSpec(spec: string)

  /** conds[0] AND conds[1] AND ... */
  function Joined(conds: seq<Cond>): Cond
    requires conds != []
  {
    if |conds| == 1 then conds[0] else And(Joined(conds[..|conds| - 1]), conds[|conds| - 1])
  }

  /** parts[0] OR parts[1] OR ... */
  function Alternatives(parts: seq<Cond>): Cond
    requires parts != []
  {
    if |parts| == 1 then parts[0] else Or(Alternatives(parts[..|parts| - 1]), parts[|parts| - 1])
  }

  lemma {:induction false} JoinedIsAll(env: Env, index: Index, rec: RecordRow, args: seq<Value>, conds: seq<Cond>)
    requires conds != []
    ensures Eval(env, index, rec, None, args, Joined(conds)) == Some(true)
       <==> forall i :: 0 <= i < |conds| ==> Eval(env, index, rec, None, args, conds[i]) == Some(true)
  {
    if |conds| > 1 {
      var n := |conds| - 1;
      JoinedIsAll(env, index, rec, args, conds[..n]);
      AndIsBoth(env, index, rec, args, Joined(conds[..n]), conds[n]);
      hide Eval;
      assert forall i :: 0 <= i < n ==> conds[..n][i] == conds[i];
    }
  }

  lemma AndIsBoth(env: Env, index: Index, rec: RecordRow, args: seq<Value>, a: Cond, b: Cond)
    ensures Eval(env, index, rec, None, args, And(a, b)) == Some(true)
       <==> Eval(env, index, rec, None, args, a) == Some(true) && Eval(env, index, rec, None, args, b) == Some(true)
  {}

  lemma {:induction false} AlternativesIsAny(env: Env, index: Index, rec: RecordRow, args: seq<Value>, parts: seq<Cond>)
    requires parts != []
    ensures Eval(env, index, rec, None, args, Alternatives(parts)) == Some(true)
       <==> exists i :: 0 <= i < |parts| && Eval(env, index, rec, None, args, parts[i]) == Some(true)
  {
    if |parts| > 1 {
      var n := |parts| - 1;
      AlternativesIsAny(env, index, rec, args, parts[..n]);
      assert forall i :: 0 <= i < n ==> parts[..n][i] == parts[i];
    }
  }

  /** The sort field and direction; a trailing `:asc` or `:desc` is the direction. */
  function SortSpec(sort: string): (string, bool) {
    var n := |sort|;
    if n > 4 && sort[n - 4..] == ":asc" then (sort[..n - 4], false)
    else if n > 5 && sort[n - 5..] == ":desc" then (sort[..n - 5], true)
    else (sort, false)
  }

  predicate WellFormed(env: Env, req: Request) {
    && req.dataset != ""
    && (req.since == "" || env.parseTime(req.since).Some?)
    && (forall i :: 0 <= i < |req.fs| ==> Parsed(req.fs[i]).Ok?)
    && (forall i :: 0 <= i < |req.ors| ==> Parsed(req.ors[i]).Ok?)
    && (req.sort == "" || Parsed(SortSpec(req.sort).0).Ok?)
  }

  /** The records a request asks for: every `f` holds and, when there are `or`
      specs, at least one of them. */
  ghost predicate Wanted(env: Env, req: Request, index: Index, rec: RecordRow)
    requires WellFormed(env, req)
  {
    && rec.dataset == req.dataset
    && (req.pk == "" || rec.pk == req.pk)
    && (req.since == "" || rec.updatedAt > env.parseTime(req.since).value)
    && (forall i :: 0 <= i < |req.fs| ==> Satisfies(env, index, rec, Parsed(req.fs[i]).value))
    && (req.ors == [] || exists i :: 0 <= i < |req.ors| && Satisfies(env, index, rec, Parsed(req.ors[i]).value))
  }

  /** The value a record is ordered by when sorting on an index column. */
  function SortKey(index: Index, rec: RecordRow, field: string, k: string): Option<Num> {
    match Get(index, IndexKey(rec.dataset, rec.pk, field, k))
    case None => None
    case Some(cell) => if cell.num.Some? then cell.num else Some(Finite(0.0))
  }

  /** (SELECT COALESCE(num, 0) FROM record_index WHERE own record AND field = $a AND k = $b LIMIT 1) */
  ghost function OrderValue(q: CompiledQuery, index: Index, rec: RecordRow): Option<Num>
    requires q.order.ByIndex?
  {
    match (Argument(q.args, q.order.fieldParam), Argument(q.args, q.order.keyParam))
    case (VText(field), VText(k)) => SortKey(index, rec, field, k)
    case _ => None
  }

  ghost predicate Selects(env: Env, q: CompiledQuery, index: Index, rec: RecordRow)
    requires q.conds != []
  {
    Eval(env, index, rec, None, q.args, Joined(q.conds)) == Some(true)
  }

  /** Ascending order with NULL last, as the database has it; descending reverses all of it. */
  predicate KeyLess(a: Option<Num>, b: Option<Num>) { a.Some? && (b.None? || NumLess(a.value, b.value)) }

  predicate PkLess(env: Env, a: RecordRow, b: RecordRow) { env.collate(a.pk, b.pk) < 0 }

  /** ORDER BY a sort value, then the primary key. */
  ghost predicate ByKey(env: Env, x: Option<Num>, y: Option<Num>, descending: bool, a: RecordRow, b: RecordRow) {
    || (if descending then KeyLess(y, x) else KeyLess(x, y))
    || (x == y && PkLess(env, a, b))
  }

  /** The order a request asks for: newest first, or by an index value. */
  ghost predicate Before(env: Env, req: Request, index: Index, a: RecordRow, b: RecordRow)
    requires WellFormed(env, req)
  {
    if req.sort == "" then a.updatedAt > b.updatedAt || (a.updatedAt == b.updatedAt && PkLess(env, a, b))
    else
      var f := Parsed(SortSpec(req.sort).0).value;
      ByKey(env, SortKey(index, a, f.field, f.key), SortKey(index, b, f.field, f.key), SortSpec(req.sort).1, a, b)
  }

  /** The order of the compiled ORDER BY clause. */
  ghost predicate QueryBefore(env: Env, q: CompiledQuery, index: Index, a: RecordRow, b: RecordRow) {
    match q.order
    case NewestFirst => a.updatedAt > b.updatedAt || (a.updatedAt == b.updatedAt && PkLess(env, a, b))
    case ByIndex(_, _, descending) => ByKey(env, OrderValue(q, index, a), OrderValue(q, index, b), descending, a, b)
  }

  function PageLimit(limit: Option<int>): int {
    if limit.Some? && 0 < limit.value <= 200 then limit.value else 50
  }

  function PageOffset(offset: Option<int>): int {
    if offset.Some? && 0 <= offset.value then offset.value else 0
  }

  ghost predicate AllMean(env: Env, conds: seq<Cond>, args: seq<Value>, ms: seq<Meaning>) {
    |conds| == |ms| && forall i :: 0 <= i < |ms| ==> Means(env, conds[i], args, ms[i])
  }

  lemma AddMeaning(env: Env, conds: seq<Cond>, args: seq<Value>, ms: seq<Meaning>, cond: Cond, later: seq<Value>,
      m: Meaning)
    requires AllMean(env, conds, args, ms) && args <= later && Means(env, cond, later, m)
    ensures AllMean(env, conds + [cond], later, ms + [m])
  {
    forall i | 0 <= i < |ms| ensures Means(env, conds[i], later, ms[i]) {
      assert Means(env, conds[i], args, ms[i]);
    }
  }

  ghost function ParsedSpecs(specs: seq<string>): (fs: seq<FilterCond>)
    requires forall i :: 0 <= i < |specs| ==> Parsed(specs[i]).Ok?
    ensures |fs| == |specs| && forall i :: 0 <= i < |fs| ==> fs[i] == Parsed(specs[i]).value
  {
    seq(|specs|, i requires 0 <= i < |specs| => Parsed(specs[i]).value)
  }

  lemma AlternativesMean(env: Env, parts: seq<Cond>, args: seq<Value>, fs: seq<FilterCond>)
    requires parts != [] && |parts| == |fs| && forall i :: 0 <= i < |fs| ==> Means(env, parts[i], args, FilterIs(fs[i]))
    ensures Means(env, Alternatives(parts), args, AnyOf(fs))
  {
    forall index: Index, rec, later | args <= later
      ensures Eval(env, index, rec, None, later, Alternatives(parts)) == Some(true)
        <==> MeaningHolds(env, AnyOf(fs), index, rec)
    {
      AlternativesIsAny(env, index, rec, later, parts);
      assert forall i :: 0 <= i < |fs| ==>
        (Eval(env, index, rec, None, later, parts[i]) == Some(true) <==>
         MeaningHolds(env, FilterIs(fs[i]), index, rec));
    }
  }

  lemma JoinedMean(env: Env, conds: seq<Cond>, args: seq<Value>, ms: seq<Meaning>, index: Index, rec: RecordRow,
      later: seq<Value>)
    requires conds != [] && AllMean(env, conds, args, ms) && args <= later
    ensures Eval(env, index, rec, None, later, Joined(conds)) == Some(true)
       <==> AllHold(env, ms, index, rec)
  {
    JoinedIsAll(env, index, rec, later, conds);
    assert forall i :: 0 <= i < |ms| ==>
      (Eval(env, index, rec, None, later, conds[i]) == Some(true) <==> MeaningHolds(env, ms[i], index, rec));
    if AllHold(env, ms, index, rec) {
      forall i | 0 <= i < |conds| ensures Eval(env, index, rec, None, later, conds[i]) == Some(true) {
        assert ms[i] in ms;
      }
    }
  }

  /** The parts of a request other than the filters. */
  ghost function FixedMeanings(env: Env, req: Request): seq<Meaning>
    requires req.since == "" || env.parseTime(req.since).Some?
  {
    [DatasetIs(req.dataset)]
    + (if req.pk == "" then [] else [PkIs(req.pk)])
    + (if req.since == "" then [] else [NewerThan(env.parseTime(req.since).value)])
  }

  ghost function FilterMeanings(fs: seq<FilterCond>): (ms: seq<Meaning>)
    ensures |ms| == |fs|
  {
    seq(|fs|, i requires 0 <= i < |fs| => FilterIs(fs[i]))
  }

  ghost function Meanings(env: Env, req: Request): seq<Meaning>
    requires WellFormed(env, req)
  {
    FixedMeanings(env, req) + FilterMeanings(ParsedSpecs(req.fs)) + (if req.ors == [] then []
      else [AnyOf(ParsedSpecs(req.ors))])
  }

  ghost predicate AllHold(env: Env, ms: seq<Meaning>, index: Index, rec: RecordRow) {
    forall m :: m in ms ==> MeaningHolds(env, m, index, rec)
  }

  lemma AllHoldConcat(env: Env, a: seq<Meaning>, b: seq<Meaning>, index: Index, rec: RecordRow)
    ensures AllHold(env, a + b, index, rec) <==> AllHold(env, a, index, rec) && AllHold(env, b, index, rec)
  {
    forall m ensures m in a + b <==> m in a || m in b {}
  }

  lemma FixedMeaningsHold(env: Env, req: Request, index: Index, rec: RecordRow)
    requires req.since == "" || env.parseTime(req.since).Some?
    ensures AllHold(env, FixedMeanings(env, req), index, rec)
       <==> && rec.dataset == req.dataset
            && (req.pk == "" || rec.pk == req.pk)
            && (req.since == "" || rec.updatedAt > env.parseTime(req.since).value)
  {
    var d, p := [DatasetIs(req.dataset)], if req.pk == "" then [] else [PkIs(req.pk)];
    var t := if req.since == "" then [] else [NewerThan(env.parseTime(req.since).value)];
    AllHoldConcat(env, d + p, t, index, rec);
    AllHoldConcat(env, d, p, index, rec);
    assert AllHold(env, d, index, rec) <==> MeaningHolds(env, d[0], index, rec);
    assert req.pk != "" ==> (AllHold(env, p, index, rec) <==> MeaningHolds(env, p[0], index, rec));
    assert req.since != "" ==> (AllHold(env, t, index, rec) <==> MeaningHolds(env, t[0], index, rec));
  }

  lemma FilterMeaningsHold(env: Env, fs: seq<FilterCond>, index: Index, rec: RecordRow)
    ensures AllHold(env, FilterMeanings(fs), index, rec) <==> forall i :: 0 <= i < |fs| ==>
      Satisfies(env, index, rec, fs[i])
  {
    var ms := FilterMeanings(fs);
    assert forall i :: 0 <= i < |fs| ==> ms[i] == FilterIs(fs[i]) && ms[i] in ms;
    if AllHold(env, ms, index, rec) {
      forall i | 0 <= i < |fs| ensures Satisfies(env, index, rec, fs[i]) {
        assert MeaningHolds(env, ms[i], index, rec);
      }
    }
  }

  lemma MeaningsAreWanted(env: Env, req: Request, index: Index, rec: RecordRow)
    requires WellFormed(env, req)
    ensures AllHold(env, Meanings(env, req), index, rec) <==> Wanted(env, req, index, rec)
  {
    var fixed, filters := FixedMeanings(env, req), FilterMeanings(ParsedSpecs(req.fs));
    var ors := if req.ors == [] then [] else [AnyOf(ParsedSpecs(req.ors))];
    AllHoldConcat(env, fixed + filters, ors, index, rec);
    AllHoldConcat(env, fixed, filters, index, rec);
    FixedMeaningsHold(env, req, index, rec);
    FilterMeaningsHold(env, ParsedSpecs(req.fs), index, rec);
    assert req.ors != [] ==> (AllHold(env, ors, index, rec) <==> MeaningHolds(env, ors[0], index, rec));
  }

  /** The conditions on dataset, primary key and update time. */
  method CompileFixed(env: Env, req: Request, args: ArgList) returns (r: Result<seq<Cond>, RequestError>)
    requires args.vals == []
    modifies args
    ensures r.Ok? <==> req.dataset != "" && (req.since == "" || env.parseTime(req.since).Some?)
    ensures r.Ok? ==> r.value != [] && AllMean(env, r.value, args.vals, FixedMeanings(env, req))
  {
    if req.dataset == "" {
      return Err(DatasetRequired);
    }
    var n := args.Bind(VText(req.dataset));
    var conds := [Cmp(RDataset, "=", Param(n))];
    ghost var ms := [DatasetIs(req.dataset)];
    assert AllMean(env, conds, args.vals, ms);
    if req.pk != "" {
      ghost var before := args.vals;
      n := args.Bind(VText(req.pk));
      AddMeaning(env, conds, before, ms, Cmp(RPk, "=", Param(n)), args.vals, PkIs(req.pk));
      conds, ms := conds + [Cmp(RPk, "=", Param(n))], ms + [PkIs(req.pk)];
    }
    if req.since != "" {
      var t := env.parseTime(req.since);
      if t.None? {
        return Err(BadSince);
      }
      ghost var before := args.vals;
      n := args.Bind(VTime(t.value));
      AddMeaning(env, conds, before, ms, Cmp(RUpdatedAt, ">", Param(n)), args.vals, NewerThan(t.value));
      conds, ms := conds + [Cmp(RUpdatedAt, ">", Param(n))], ms + [NewerThan(t.value)];
    }
    assert ms == FixedMeanings(env, req);
    r := Ok(conds);
  }

  /** One condition for each spec, in order. */
  method CompileSpecs(env: Env, specs: seq<string>, args: ArgList) returns (r: Result<seq<Cond>, RequestError>)
    modifies args
    ensures old(args.vals) <= args.vals
    ensures r.Ok? <==> forall i :: 0 <= i < |specs| ==> Parsed(specs[i]).Ok?
    ensures r.Ok? ==> AllMean(env, r.value, args.vals, FilterMeanings(ParsedSpecs(specs)))
  {
    var conds: seq<Cond> := [];
    ghost var ms: seq<Meaning> := [];
    for i := 0 to |specs|
      invariant old(args.vals) <= args.vals
      invariant forall j :: 0 <= j < i ==> Parsed(specs[j]).Ok?
      invariant |ms| == i && forall j :: 0 <= j < i ==> ms[j] == FilterIs(Parsed(specs[j]).value)
      invariant AllMean(env, conds, args.vals, ms)
    {
      var parsed := ParseFilter(specs[i]);
      if parsed.Err? {
        return Err(BadSpec(specs[i]));
      }
      ghost var before := args.vals;
      var cond := CondSql(env, parsed.value, args);
      AddMeaning(env, conds, before, ms, cond, args.vals, FilterIs(parsed.value));
      conds, ms := conds + [cond], ms + [FilterIs(parsed.value)];
    }
    assert ms == FilterMeanings(ParsedSpecs(specs));
    r := Ok(conds);
  }

  /** The last position of `c`, or -1. */
  function LastIndex(s: string, c: char): (i: int)
    ensures -1 <= i < |s| && (i >= 0 ==> s[i] == c) && forall j :: i < j < |s| ==> s[j] != c
  {
    if s == "" then -1 else if s[|s| - 1] == c then |s| - 1 else LastIndex(s[..|s| - 1], c)
  }

  /** Cutting at the last colon finds the same direction as looking at the suffix. */
  lemma LastColonIsSuffix(sort: string)
    ensures var i := LastIndex(sort, ':');
            SortSpec(sort) ==
            if i > 0 && sort[i + 1..] == "desc" then (sort[..i], true)
            else if i > 0 && sort[i + 1..] == "asc" then (sort[..i], false)
            else (sort, false)
  {
    var i, n := LastIndex(sort, ':'), |sort|;
    if i > 0 && sort[i + 1..] == "desc" {
      assert sort[n - 5..] == ":desc" && n - 5 == i;
      assert sort[n - 4..] == "desc";
    } else if i > 0 && sort[i + 1..] == "asc" {
      assert sort[n - 4..] == ":asc" && n - 4 == i;
    } else {
      if n > 4 && sort[n - 4..] == ":asc" { SuffixAtColon(sort, ":asc", i); }
      if n > 5 && sort[n - 5..] == ":desc" { SuffixAtColon(sort, ":desc", i); }
    }
  }

  lemma SuffixAtColon(sort: string, suffix: string, i: int)
    requires i == LastIndex(sort, ':') && suffix in {":asc", ":desc"} && |suffix| < |sort|
    requires sort[|sort| - |suffix|..] == suffix
    ensures i == |sort| - |suffix| && sort[i + 1..] == suffix[1..]
  {
    var at := |sort| - |suffix|;
    assert forall j :: 0 <= j < |suffix| ==> sort[at + j] == suffix[j];
    assert sort[at] == suffix[0] == ':';
    assert sort[at + (i - at)] == suffix[i - at];
    assert sort[i + 1..] == sort[at..][1..];
  }

  /** What a sort text asks for, by its ending: `path:desc`, `path:asc`, or a path. */
  ghost predicate SortsBy(sort: string, path: string, descending: bool) {
    || (path != "" && sort == path + ":desc" && descending)
    || (path != "" && sort == path + ":asc" && !descending)
    || (sort == path && !descending && forall p: string :: p != "" ==> sort != p + ":asc" && sort != p + ":desc")
  }

  lemma SortsByIsSortSpec(sort: string, path: string, descending: bool)
    requires SortsBy(sort, path, descending)
    ensures SortSpec(sort) == (path, descending)
  {
    var n := |sort|;
    if path != "" && sort == path + ":desc" {
      assert sort[n - 5..] == ":desc" && sort[n - 4..] == "desc" && sort[..n - 5] == path;
    } else if path != "" && sort == path + ":asc" {
      assert sort[n - 4..] == ":asc" && sort[..n - 4] == path;
    } else {
      assert n > 4 ==> sort == sort[..n - 4] + sort[n - 4..];
      assert n > 5 ==> sort == sort[..n - 5] + sort[n - 5..];
    }
  }

  /** The compiled order names this field and key, in this direction. */
  ghost predicate OrdersBy(o: Order, args: seq<Value>, field: string, k: string, descending: bool) {
    && o.ByIndex? && o.descending == descending
    && Argument(args, o.fieldParam) == VText(field) && Argument(args, o.keyParam) == VText(k)
  }

  /** The path and the direction of a sort text. */
  method CutSort(sort: string) returns (path: string, descending: bool)
    ensures (path, descending) == SortSpec(sort)
    ensures forall p, d :: SortsBy(sort, p, d) ==> p == path && d == descending
  {
    path, descending := sort, false;
    var i := LastIndex(sort, ':');
    if i > 0 && (sort[i + 1..] == "asc" || sort[i + 1..] == "desc") {
      path, descending := sort[..i], sort[i + 1..] == "desc";
    }
    LastColonIsSuffix(sort);
    forall p, d | SortsBy(sort, p, d) ensures (p, d) == SortSpec(sort) { SortsByIsSortSpec(sort, p, d); }
  }

  method CompileOrder(sort: string, args: ArgList) returns (r: Result<Order, RequestError>)
    modifies args
    ensures old(args.vals) <= args.vals
    ensures forall path, descending :: sort != "" && SortsBy(sort, path, descending) && Parsed(path).Ok? ==>
              r.Ok? && OrdersBy(r.value, args.vals, Parsed(path).value.field, Parsed(path).value.key, descending)
    ensures forall path, descending :: sort != "" && SortsBy(sort, path, descending) && Parsed(path).Err? ==> r.Err?
    ensures r.Ok? <==> sort == "" || Parsed(SortSpec(sort).0).Ok?
    ensures r.Ok? ==> (r.value.NewestFirst? <==> sort == "")
    ensures r.Ok? && sort != "" ==>
              && r.value.descending == SortSpec(sort).1
              && 1 <= r.value.fieldParam <= |args.vals| && 1 <= r.value.keyParam <= |args.vals|
              && args.vals[r.value.fieldParam - 1] == VText(Parsed(SortSpec(sort).0).value.field)
              && args.vals[r.value.keyParam - 1] == VText(Parsed(SortSpec(sort).0).value.key)
  {
    if sort == "" {
      return Ok(NewestFirst);
    }
    hide SortSpec, SortsBy, Parsed;
    var field, descending := CutSort(sort);
    var parsed := ParseFilter(field);
    if parsed.Err? {
      return Err(BadSpec(field));
    }
    var a := args.Bind(VText(parsed.value.field));
    var b := args.Bind(VText(parsed.value.key));
    r := Ok(ByIndex(a, b, descending));
  }

  lemma AllMeanAppend(env: Env, a: seq<Cond>, aArgs: seq<Value>, p: seq<Meaning>, b: seq<Cond>, args: seq<Value>,
      q: seq<Meaning>)
    requires AllMean(env, a, aArgs, p) && aArgs <= args && AllMean(env, b, args, q)
    ensures AllMean(env, a + b, args, p + q)
  {
    forall i | 0 <= i < |p| ensures Means(env, a[i], args, p[i]) {
      assert Means(env, a[i], aArgs, p[i]);
    }
  }

  /** The WHERE clause: fixed part, then every `f`, then the group of `or` specs. */
  method CompileWhere(env: Env, req: Request, args: ArgList) returns (r: Result<seq<Cond>, RequestError>)
    requires args.vals == []
    modifies args
    ensures r.Ok? <==> WellFormed(env, req.(sort := ""))
    ensures r.Ok? ==> r.value != [] && AllMean(env, r.value, args.vals, Meanings(env, req.(sort := "")))
  {
    var fixed := CompileFixed(env, req, args);
    if fixed.Err? {
      return fixed;
    }
    ghost var fixedArgs := args.vals;
    var filters := CompileSpecs(env, req.fs, args);
    if filters.Err? {
      return filters;
    }
    ghost var ms := FixedMeanings(env, req) + FilterMeanings(ParsedSpecs(req.fs));
    AllMeanAppend(env, fixed.value, fixedArgs, FixedMeanings(env, req), filters.value, args.vals,
      FilterMeanings(ParsedSpecs(req.fs)));
    var conds := fixed.value + filters.value;
    if |req.ors| > 0 {
      ghost var before := args.vals;
      var parts := CompileSpecs(env, req.ors, args);
      if parts.Err? {
        return parts;
      }
      ghost var ors := ParsedSpecs(req.ors);
      assert forall i :: 0 <= i < |ors| ==> FilterMeanings(ors)[i] == FilterIs(ors[i]);
      AlternativesMean(env, parts.value, args.vals, ors);
      AddMeaning(env, conds, before, ms, Alternatives(parts.value), args.vals, AnyOf(ors));
      conds := conds + [Alternatives(parts.value)];
    } else {
      assert ms == ms + [];
    }
    r := Ok(conds);
  }

  lemma SelectsWanted(env: Env, req: Request, q: CompiledQuery, whereArgs: seq<Value>)
    requires WellFormed(env, req) && q.conds != [] && whereArgs <= q.args
    requires AllMean(env, q.conds, whereArgs, Meanings(env, req.(sort := "")))
    ensures forall index: Index, rec :: Selects(env, q, index, rec) <==> Wanted(env, req, index, rec)
  {
    forall index: Index, rec ensures Selects(env, q, index, rec) <==> Wanted(env, req, index, rec) {
      JoinedMean(env, q.conds, whereArgs, Meanings(env, req.(sort := "")), index, rec, q.args);
      MeaningsAreWanted(env, req.(sort := ""), index, rec);
    }
  }

  /** The compiled query says what the request says: on every index it selects the
      wanted records, in the order asked for, with the page's limit and offset. */
  ghost predicate Compiles(env: Env, req: Request, q: CompiledQuery)
    requires WellFormed(env, req)
  {
    && q.conds != []
    && (forall index: Index, rec :: Selects(env, q, index, rec) <==> Wanted(env, req, index, rec))
    && (forall index: Index, a, b :: QueryBefore(env, q, index, a, b) <==> Before(env, req, index, a, b))
    && Argument(q.args, q.limitParam) == VInt(PageLimit(req.limit))
    && Argument(q.args, q.offsetParam) == VInt(PageOffset(req.offset))
  }

  lemma OrdersAsAsked(env: Env, req: Request, q: CompiledQuery)
    requires WellFormed(env, req) && (q.order.NewestFirst? <==> req.sort == "")
    requires req.sort != "" ==>
               && q.order.descending == SortSpec(req.sort).1
               && Argument(q.args, q.order.fieldParam) == VText(Parsed(SortSpec(req.sort).0).value.field)
               && Argument(q.args, q.order.keyParam) == VText(Parsed(SortSpec(req.sort).0).value.key)
    ensures forall index: Index, a, b :: QueryBefore(env, q, index, a, b) <==> Before(env, req, index, a, b)
  {
  }

  /** Compiles a whole request. It is refused exactly when a part of it cannot be
      read; otherwise the query, with its final argument list, means the request. */
  method CompileRequest(env: Env, req: Request) returns (r: Result<CompiledQuery, RequestError>)
    ensures r.Ok? <==> WellFormed(env, req)
    ensures r.Ok? ==> Compiles(env, req, r.value)
  {
    var args := new ArgList();
    var conds := CompileWhere(env, req, args);
    if conds.Err? {
      return Err(conds.error);
    }
    ghost var whereArgs := args.vals;
    var order := CompileOrder(req.sort, args);
    if order.Err? {
      return Err(order.error);
    }
    var l := args.Bind(VInt(PageLimit(req.limit)));
    var o := args.Bind(VInt(PageOffset(req.offset)));
    var q := CompiledQuery(conds.value, args.vals, order.value, l, o);
    SelectsWanted(env, req, q, whereArgs);
    hide Before, QueryBefore, Selects, Wanted;
    OrdersAsAsked(env, req, q);
    r := Ok(q);
  }

  // --------------------------------------------------------------------- the page

  /** Text comparison is a total order that tells different texts apart. */
  ghost predicate Collates(env: Env) {
    && (forall x, y :: env.collate(x, y) == 0 <==> x == y)
    && (forall x, y :: env.collate(x, y) < 0 <==> env.collate(y, x) > 0)
    && (forall x, y, z :: env.collate(x, y) < 0 && env.collate(y, z) < 0 ==> env.collate(x, z) < 0)
  }

  /** Dataset and primary key identify a row of the table. */
  ghost predicate PrimaryKey(table: set<RecordRow>) {
    forall a, b :: a in table && b in table && a.dataset == b.dataset && a.pk == b.pk ==> a == b
  }

  /** What the database may answer before paging: the selected rows, each once, none
      after one it should precede. */
  ghost predicate IsAnswer(env: Env, q: CompiledQuery, index: Index, table: set<RecordRow>, rows: seq<RecordRow>)
    requires q.conds != []
  {
    && (forall r :: r in rows <==> r in table && Selects(env, q, index, r))
    && (forall i, j :: 0 <= i < j < |rows| ==> rows[i] != rows[j] && !QueryBefore(env, q, index, rows[j], rows[i]))
  }

  function Number(v: Value): nat { if v.VInt? && v.i >= 0 then v.i else 0 }

  function AtMost(n: nat, bound: nat): nat { if n <= bound then n else bound }

  /** LIMIT and OFFSET cut a page out of the answer. */
  function Page(q: CompiledQuery, rows: seq<RecordRow>): seq<RecordRow> {
    var o, l := Number(Argument(q.args, q.offsetParam)), Number(Argument(q.args, q.limitParam));
    rows[AtMost(o, |rows|)..AtMost(o + l, |rows|)]
  }

  /** The total is read off the page's rows, and stays 0 when there are none. */
  function ReportedTotal(q: CompiledQuery, rows: seq<RecordRow>): nat {
    if Page(q, rows) == [] then 0 else |rows|
  }

  ghost function WantedRows(env: Env, req: Request, index: Index, table: set<RecordRow>): set<RecordRow>
    requires WellFormed(env, req)
  {
    set r | r in table && Wanted(env, req, index, r)
  }

  /** How many wanted rows come before this one. */
  ghost function Rank(env: Env, req: Request, index: Index, table: set<RecordRow>, rec: RecordRow): nat
    requires WellFormed(env, req)
  {
    |set r | r in table && Wanted(env, req, index, r) && Before(env, req, index, r, rec)|
  }

  lemma NumLessTotal(a: Num, b: Num, c: Num)
    ensures !NumLess(a, a) && (a == b || NumLess(a, b) || NumLess(b, a)) && !(NumLess(a, b) && NumLess(b, a))
    ensures NumLess(a, b) && NumLess(b, c) ==> NumLess(a, c)
  {}

  /** Of two different rows of a dataset exactly one comes first. */
  lemma BeforeIsTotal(env: Env, req: Request, index: Index, a: RecordRow, b: RecordRow)
    requires Collates(env) && WellFormed(env, req) && a.pk != b.pk
    ensures Before(env, req, index, a, b) <==> !Before(env, req, index, b, a)
  {
    assert env.collate(a.pk, b.pk) != 0 && (env.collate(a.pk, b.pk) < 0 <==> env.collate(b.pk, a.pk) > 0);
    assert env.collate(b.pk, a.pk) < 0 <==> env.collate(a.pk, b.pk) > 0;
    if req.sort != "" {
      var f := Parsed(SortSpec(req.sort).0).value;
      var x, y := SortKey(index, a, f.field, f.key), SortKey(index, b, f.field, f.key);
      hide SortKey;
      if x.Some? && y.Some? { NumLessTotal(x.value, y.value, x.value); }
    }
  }

  lemma BeforeIsIrreflexive(env: Env, req: Request, index: Index, a: RecordRow)
    requires Collates(env) && WellFormed(env, req)
    ensures !Before(env, req, index, a, a)
  {
    assert env.collate(a.pk, a.pk) == 0;
    if req.sort != "" {
      var f := Parsed(SortSpec(req.sort).0).value;
      var x := SortKey(index, a, f.field, f.key);
      if x.Some? { NumLessTotal(x.value, x.value, x.value); }
    }
  }

  /** In an answer each row comes before the later ones. */
  lemma AnswerInOrder(env: Env, req: Request, q: CompiledQuery, index: Index, table: set<RecordRow>,
      rows: seq<RecordRow>, i: nat, j: nat)
    requires Collates(env) && PrimaryKey(table) && WellFormed(env, req) && Compiles(env, req, q)
    requires IsAnswer(env, q, index, table, rows) && i < j < |rows|
    ensures Before(env, req, index, rows[i], rows[j]) && !Before(env, req, index, rows[j], rows[i])
  {
    hide Before, QueryBefore, Selects, Collates;
    assert rows[i] in rows && rows[j] in rows;
    assert Wanted(env, req, index, rows[i]) && Wanted(env, req, index, rows[j]);
    hide Wanted;
    assert rows[i].pk != rows[j].pk;
    BeforeIsTotal(env, req, index, rows[i], rows[j]);
  }

  lemma {:induction false} DistinctSize<T>(s: seq<T>)
    requires forall i, j :: 0 <= i < j < |s| ==> s[i] != s[j]
    ensures |set x | x in s| == |s|
  {
    if s != [] {
      var n := |s| - 1;
      DistinctSize(s[..n]);
      assert (set x | x in s) == (set x | x in s[..n]) + {s[n]};
    }
  }

  /** The position of a row in the answer is its rank. */
  lemma PositionIsRank(env: Env, req: Request, q: CompiledQuery, index: Index, table: set<RecordRow>,
      rows: seq<RecordRow>, i: nat)
    requires Collates(env) && PrimaryKey(table) && WellFormed(env, req) && Compiles(env, req, q)
    requires IsAnswer(env, q, index, table, rows) && i < |rows|
    ensures Rank(env, req, index, table, rows[i]) == i
  {
    var earlier := set r | r in table && Wanted(env, req, index, r) && Before(env, req, index, r, rows[i]);
    AnswerHolds(env, req, q, index, table, rows);
    hide Before, QueryBefore, Selects, Wanted, Collates, IsAnswer, PrimaryKey, Compiles;
    forall r ensures r in earlier <==> r in rows[..i] {
      if r in rows {
        var j :| 0 <= j < |rows| && rows[j] == r;
        if j < i {
          AnswerInOrder(env, req, q, index, table, rows, j, i);
          assert rows[..i][j] == r;
        } else if j > i {
          AnswerInOrder(env, req, q, index, table, rows, i, j);
        } else {
          BeforeIsIrreflexive(env, req, index, r);
        }
      }
    }
    DistinctSize(rows[..i]);
    assert earlier == set r | r in rows[..i];
  }

  /** An answer holds each wanted row once. */
  lemma AnswerHolds(env: Env, req: Request, q: CompiledQuery, index: Index, table: set<RecordRow>, rows: seq<RecordRow>)
    requires WellFormed(env, req) && Compiles(env, req, q) && IsAnswer(env, q, index, table, rows)
    ensures forall r :: r in rows <==> r in table && Wanted(env, req, index, r)
    ensures forall i, j :: 0 <= i < j < |rows| ==> rows[i] != rows[j]
  {
    hide Before, QueryBefore, Selects, Wanted;
  }

  predicate InWindow(req: Request, rank: nat) {
    PageOffset(req.offset) <= rank < PageOffset(req.offset) + PageLimit(req.limit)
  }

  /** The page is the window of the answer. */
  lemma InPageIff(q: CompiledQuery, rows: seq<RecordRow>, o: nat, l: nat, rec: RecordRow)
    requires Argument(q.args, q.offsetParam) == VInt(o) && Argument(q.args, q.limitParam) == VInt(l)
    ensures rec in Page(q, rows) <==> exists k :: 0 <= k < |rows| && rows[k] == rec && o <= k < o + l
    ensures Page(q, rows) == rows[AtMost(o, |rows|)..AtMost(o + l, |rows|)]
  {
    var page, from := Page(q, rows), AtMost(o, |rows|);
    assert forall i :: 0 <= i < |page| ==> page[i] == rows[from + i];
    if k :| 0 <= k < |rows| && rows[k] == rec && o <= k < o + l {
      assert page[k - from] == rec;
    }
  }

  /** The page of every possible answer: the wanted rows whose rank lies in the
      window. With the order below, there is only one such page. */
  lemma PageIsTheWindow(env: Env, req: Request, q: CompiledQuery, index: Index, table: set<RecordRow>,
      rows: seq<RecordRow>, rec: RecordRow)
    requires Collates(env) && PrimaryKey(table) && WellFormed(env, req) && Compiles(env, req, q)
    requires IsAnswer(env, q, index, table, rows)
    ensures rec in Page(q, rows) <==>
              rec in table && Wanted(env, req, index, rec) && InWindow(req, Rank(env, req, index, table, rec))
  {
    InPageIff(q, rows, PageOffset(req.offset), PageLimit(req.limit), rec);
    AnswerHolds(env, req, q, index, table, rows);
    hide Before, QueryBefore, Selects, Wanted, Collates, Rank, Page, IsAnswer, PrimaryKey, Compiles;
    forall k | 0 <= k < |rows| && rows[k] == rec ensures Rank(env, req, index, table, rec) == k {
      PositionIsRank(env, req, q, index, table, rows, k);
    }
  }

  lemma PagingArguments(env: Env, req: Request, q: CompiledQuery)
    requires WellFormed(env, req) && Compiles(env, req, q)
    ensures PageOffset(req.offset) >= 0 && Argument(q.args, q.offsetParam) == VInt(PageOffset(req.offset))
    ensures PageLimit(req.limit) > 0 && Argument(q.args, q.limitParam) == VInt(PageLimit(req.limit))
  {
    hide Before, QueryBefore, Selects, Wanted;
  }

  lemma PageIsSlice(q: CompiledQuery, rows: seq<RecordRow>, o: nat, l: nat)
    requires Argument(q.args, q.offsetParam) == VInt(o) && Argument(q.args, q.limitParam) == VInt(l)
    ensures AtMost(o, |rows|) + |Page(q, rows)| <= |rows|
    ensures forall i :: 0 <= i < |Page(q, rows)| ==> Page(q, rows)[i] == rows[AtMost(o, |rows|) + i]
  {}

  lemma PageInOrder(env: Env, req: Request, q: CompiledQuery, index: Index, table: set<RecordRow>,
      rows: seq<RecordRow>, page: seq<RecordRow>, i: nat, j: nat)
    requires Collates(env) && PrimaryKey(table) && WellFormed(env, req) && Compiles(env, req, q)
    requires IsAnswer(env, q, index, table, rows) && page == Page(q, rows) && i < j < |page|
    ensures Before(env, req, index, page[i], page[j])
  {
    hide *;
    PagingArguments(env, req, q);
    PageIsSlice(q, rows, PageOffset(req.offset), PageLimit(req.limit));
    var from := AtMost(PageOffset(req.offset), |rows|);
    AnswerInOrder(env, req, q, index, table, rows, from + i, from + j);
  }

  /** The page starts at the offset asked for, 0 if none, and is as long as asked for
      up to 200, 50 if not, or less where the answer ends. */
  lemma PageLength(env: Env, req: Request, q: CompiledQuery, rows: seq<RecordRow>, o: nat, l: nat)
    requires WellFormed(env, req) && Compiles(env, req, q)
    requires o == if req.offset.Some? && req.offset.value >= 0 then req.offset.value else 0
    requires l == if req.limit.Some? && 1 <= req.limit.value <= 200 then req.limit.value else 50
    ensures |Page(q, rows)| == if |rows| <= o then 0 else if |rows| <= o + l then |rows| - o else l
    ensures forall i :: 0 <= i < |Page(q, rows)| ==> o + i < |rows| && Page(q, rows)[i] == rows[o + i]
  {
    PagingArguments(env, req, q);
    hide Compiles;
  }

  /** The number a record is sorted by: that of its index row, 0 if the row holds none. */
  ghost predicate SortNumber(index: Index, rec: RecordRow, field: string, k: string, x: real) {
    var ik := IndexKey(rec.dataset, rec.pk, field, k);
    ik in index && (index[ik].num == Some(Finite(x)) || (index[ik].num == None && x == 0.0))
  }

  ghost predicate NoSortRow(index: Index, rec: RecordRow, field: string, k: string) {
    IndexKey(rec.dataset, rec.pk, field, k) !in index
  }

  /** Sorted by a path the smaller number comes first, the larger with `:desc`; equal
      numbers go by primary key; a record without a row comes last, first with `:desc`. */
  lemma BeforeByNumber(env: Env, req: Request, index: Index, a: RecordRow, b: RecordRow, path: string,
      descending: bool, x: real, y: real)
    requires WellFormed(env, req) && req.sort != "" && SortsBy(req.sort, path, descending) && Parsed(path).Ok?
    ensures var f := Parsed(path).value;
            && (SortNumber(index, a, f.field, f.key, x) && SortNumber(index, b, f.field, f.key, y) ==>
                  (Before(env, req, index, a, b) <==>
                   (if descending then x > y else x < y) || (x == y && env.collate(a.pk, b.pk) < 0)))
            && (SortNumber(index, a, f.field, f.key, x) && NoSortRow(index, b, f.field, f.key) ==>
                  (Before(env, req, index, a, b) <==> !descending) && (Before(env, req, index, b, a) <==> descending))
            && (NoSortRow(index, a, f.field, f.key) && NoSortRow(index, b, f.field, f.key) ==>
                  (Before(env, req, index, a, b) <==> env.collate(a.pk, b.pk) < 0))
  {
    SortsByIsSortSpec(req.sort, path, descending);
    hide SortsBy, Parsed, SortSpec;
  }

  /** Without a sort text the newest comes first, by primary key within an instant. */
  lemma BeforeByTime(env: Env, req: Request, index: Index, a: RecordRow, b: RecordRow)
    requires WellFormed(env, req) && req.sort == ""
    ensures a.updatedAt > b.updatedAt ==> Before(env, req, index, a, b) && !Before(env, req, index, b, a)
    ensures a.updatedAt == b.updatedAt ==> (Before(env, req, index, a, b) <==> env.collate(a.pk, b.pk) < 0)
  {}

  /** So on every page: of two records with different numbers at the sort path the
      larger comes first with `:desc` and last otherwise; unsorted, the newer first. */
  lemma PageSortedByNumber(env: Env, req: Request, q: CompiledQuery, index: Index, table: set<RecordRow>,
      rows: seq<RecordRow>, page: seq<RecordRow>, i: nat, j: nat, path: string, descending: bool, x: real, y: real)
    requires Collates(env) && PrimaryKey(table) && WellFormed(env, req) && Compiles(env, req, q)
    requires IsAnswer(env, q, index, table, rows) && page == Page(q, rows) && i < |page| && j < |page|
    ensures req.sort != "" && SortsBy(req.sort, path, descending) && Parsed(path).Ok?
            && SortNumber(index, page[i], Parsed(path).value.field, Parsed(path).value.key, x)
            && SortNumber(index, page[j], Parsed(path).value.field, Parsed(path).value.key, y) && x < y ==>
              if descending then j < i else i < j
    ensures req.sort == "" && page[i].updatedAt > page[j].updatedAt ==> i < j
  {
    hide *;
    if req.sort == "" && page[i].updatedAt > page[j].updatedAt {
      BeforeByTime(env, req, index, page[i], page[j]);
    }
    if req.sort != "" && SortsBy(req.sort, path, descending) && Parsed(path).Ok? {
      BeforeByNumber(env, req, index, page[i], page[j], path, descending, x, y);
      BeforeByNumber(env, req, index, page[j], page[i], path, descending, y, x);
    }
    if i < j { PageInOrder(env, req, q, index, table, rows, page, i, j); }
    if j < i { PageInOrder(env, req, q, index, table, rows, page, j, i); }
  }

  /** The reported total is the number of wanted rows exactly when the page is not
      past the end: a later page of a non-empty answer reports 0. */
  lemma TotalIsRightIff(env: Env, req: Request, q: CompiledQuery, index: Index, table: set<RecordRow>,
      rows: seq<RecordRow>)
    requires WellFormed(env, req) && Compiles(env, req, q) && IsAnswer(env, q, index, table, rows)
    ensures ReportedTotal(q, rows) == |WantedRows(env, req, index, table)|
       <==> WantedRows(env, req, index, table) == {} || PageOffset(req.offset) < |WantedRows(env, req, index, table)|
  {
    hide Before, QueryBefore, Selects, Wanted;
    DistinctSize(rows);
    assert WantedRows(env, req, index, table) == set r | r in rows;
  }

  lemma BeforeIsTransitive(env: Env, req: Request, index: Index, a: RecordRow, b: RecordRow, c: RecordRow)
    requires Collates(env) && WellFormed(env, req)
    requires Before(env, req, index, a, b) && Before(env, req, index, b, c)
    ensures Before(env, req, index, a, c)
  {
    assert env.collate(a.pk, b.pk) < 0 && env.collate(b.pk, c.pk) < 0 ==> env.collate(a.pk, c.pk) < 0;
    if req.sort != "" {
      var f := Parsed(SortSpec(req.sort).0).value;
      var x, y := SortKey(index, a, f.field, f.key), SortKey(index, b, f.field, f.key);
      var z := SortKey(index, c, f.field, f.key);
      hide SortKey;
      if x.Some? && y.Some? && z.Some? {
        NumLessTotal(x.value, y.value, z.value);
        NumLessTotal(z.value, y.value, x.value);
      }
    }
  }

  /** Rows of one dataset, each with a primary key of its own. */
  ghost predicate OneDataset(rows: set<RecordRow>) {
    forall a, b :: a in rows && b in rows ==> a.dataset == b.dataset && (a.pk == b.pk ==> a == b)
  }

  lemma {:induction false} FirstExists(env: Env, req: Request, index: Index, rows: set<RecordRow>)
      returns (first: RecordRow)
    requires Collates(env) && WellFormed(env, req) && OneDataset(rows) && rows != {}
    ensures first in rows && forall r :: r in rows && r != first ==> Before(env, req, index, first, r)
    decreases |rows|
  {
    var r := Pick(rows);
    first := r;
    if rows != {r} {
      assert rows - {r} != {} by { assert rows <= {r} + (rows - {r}); }
      var f := FirstExists(env, req, index, rows - {r});
      hide Before, Collates;
      BeforeIsTotal(env, req, index, f, r);
      if Before(env, req, index, f, r) {
        first := f;
      } else {
        forall x | x in rows && x != r ensures Before(env, req, index, r, x) {
          if x != f { BeforeIsTransitive(env, req, index, r, f, x); }
        }
      }
    }
  }

  lemma {:induction false} InOrderExists(env: Env, req: Request, index: Index, rows: set<RecordRow>)
      returns (s: seq<RecordRow>)
    requires Collates(env) && WellFormed(env, req) && OneDataset(rows)
    ensures (forall r :: r in s <==> r in rows)
    ensures forall i, j :: 0 <= i < j < |s| ==> s[i] != s[j] && Before(env, req, index, s[i], s[j])
    decreases |rows|
  {
    s := [];
    if rows != {} {
      var f := FirstExists(env, req, index, rows);
      var rest := InOrderExists(env, req, index, rows - {f});
      hide Before, Collates;
      assert forall i :: 0 <= i < |rest| ==> rest[i] in rest;
      s := [f] + rest;
    }
  }

  /** There is always an answer to page through. */
  lemma AnswerExists(env: Env, req: Request, q: CompiledQuery, index: Index, table: set<RecordRow>)
      returns (rows: seq<RecordRow>)
    requires Collates(env) && PrimaryKey(table) && WellFormed(env, req) && Compiles(env, req, q)
    ensures IsAnswer(env, q, index, table, rows)
  {
    var wanted := WantedRows(env, req, index, table);
    assert OneDataset(wanted);
    rows := InOrderExists(env, req, index, wanted);
    hide Before, QueryBefore, Selects, Wanted, Collates;
    forall i, j | 0 <= i < j < |rows| ensures !QueryBefore(env, q, index, rows[j], rows[i]) {
      assert rows[i] in rows && rows[j] in rows;
      BeforeIsTotal(env, req, index, rows[i], rows[j]);
    }
  }
}
