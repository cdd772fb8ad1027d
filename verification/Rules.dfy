/** The extraction engine of svc-data: declared rules turn a payload into index
    entries (services/svc-data/rules.go). */
module Rules {
  import opened Prelude
  import opened JsonDoc

  datatype Rule = Rule(field: string, mode: string, path: string, keyPath: string, valuePath: string)

  /** The two value columns of an index row; at most one is set. */
  datatype Cell = Cell(num: Option<Num>, txt: Option<string>)

  datatype Entry = Entry(field: string, k: string, cell: Cell)

  const EMPTY_CELL := Cell(None, None)

  function NumOrTxt(v: Json): Cell {
    match v
    case Number(r) => Cell(Some(Finite(r)), None)
    case Str(s) => if s == "" then EMPTY_CELL else Cell(None, Some(s))
    case Bool(b) => Cell(None, Some(if b then "true" else "false"))
    case _ => EMPTY_CELL
  }

  // ---------------------------------------------------------------- validation

  predicate RuleOk(r: Rule) {
    && r.field != "" && r.path != ""
    && (r.mode == "" || r.mode == "scalar" || (r.mode == "array" && r.keyPath != ""))
  }

  predicate ValidRules(rules: seq<Rule>) {
    && (forall i :: 0 <= i < |rules| ==> RuleOk(rules[i]))
    && (forall i, j :: 0 <= i < j < |rules| ==> rules[i].field != rules[j].field)
  }

  /** A rule list is refused, spelt out: a field or path is missing, a mode is unknown, an
      array rule has no key path, or a field has two rules. */
  lemma RefusedIff(rules: seq<Rule>)
    ensures !ValidRules(rules) <==>
              || (exists i :: 0 <= i < |rules| &&
                   (|| rules[i].field == "" || rules[i].path == ""
                    || rules[i].mode !in {"", "scalar", "array"}
                    || (rules[i].mode == "array" && rules[i].keyPath == "")))
              || (exists i, j :: 0 <= i < j < |rules| && rules[i].field == rules[j].field)
  {
    if i :| 0 <= i < |rules| && !RuleOk(rules[i]) {
      assert || rules[i].field == "" || rules[i].path == "" || rules[i].mode !in {"", "scalar", "array"}
             || (rules[i].mode == "array" && rules[i].keyPath == "");
    }
  }

  /** Scans once with a set of seen fields; an error names the first rule at
      which the list stops being valid. */
  method ValidateRules(rules: seq<Rule>) returns (err: Option<nat>)
    ensures err.None? <==> ValidRules(rules)
    ensures err.Some? ==> err.value < |rules| && ValidRules(rules[..err.value]) && !ValidRules(rules[..err.value + 1])
  {
    var seen: set<string> := {};
    for i := 0 to |rules|
      invariant ValidRules(rules[..i])
      invariant forall f :: f in seen <==> exists j :: 0 <= j < i && rules[j].field == f
    {
      var r := rules[i];
      assert rules[..i + 1][i] == r;
      if r.field == "" || r.path == "" {
        return Some(i);
      }
      if r.mode == "" || r.mode == "scalar" {
      } else if r.mode == "array" {
        if r.keyPath == "" {
          return Some(i);
        }
      } else {
        return Some(i);
      }
      if r.field in seen {
        var j :| 0 <= j < i && rules[j].field == r.field;
        assert rules[..i + 1][j].field == rules[..i + 1][i].field;
        return Some(i);
      }
      seen := seen + {r.field};
    }
    assert rules[..|rules|] == rules;
    err := None;
  }

  // ---------------------------------------------------------------- extraction

  /** The key an array element is indexed under, if it is indexed at all. */
  function ElemKey(r: Rule, elem: Json): Option<string> {
    if !elem.Obj? then None
    else
      var k := ValueAt(elem, Segments(r.keyPath));
      if k.Str? && k.s != "" then Some(k.s) else None
  }

  function ElemCell(r: Rule, elem: Json): Cell {
    if r.valuePath == "" then EMPTY_CELL else NumOrTxt(ValueAt(elem, Segments(r.valuePath)))
  }

  function ArrayEntries(r: Rule, elems: seq<Json>): seq<Entry> {
    if elems == [] then []
    else
      var n := |elems| - 1;
      var before := ArrayEntries(r, elems[..n]);
      match ElemKey(r, elems[n])
      case None => before
      case Some(k) => before + [Entry(r.field, k, ElemCell(r, elems[n]))]
  }

  function ScalarEntries(r: Rule, v: Json): seq<Entry> {
    if NumOrTxt(v) == EMPTY_CELL then [] else [Entry(r.field, "", NumOrTxt(v))]
  }

  function RuleEntries(r: Rule, doc: Json): seq<Entry> {
    var v := ValueAt(doc, Segments(r.path));
    if r.mode == "array" then (if v.Arr? then ArrayEntries(r, v.elems) else [])
    else ScalarEntries(r, v)
  }

  function DocEntries(rules: seq<Rule>, doc: Json): seq<Entry> {
    if rules == [] then []
    else DocEntries(rules[..|rules| - 1], doc) + RuleEntries(rules[|rules| - 1], doc)
  }

  /** What the rules extract from a payload, in the order it is extracted. */
  function Extracted(rules: seq<Rule>, payload: Json): seq<Entry> {
    match AsDoc(payload)
    case None => []
    case Some(m) => DocEntries(rules, Obj(m))
  }

  method ExtractEntries(rules: seq<Rule>, payload: Json) returns (entries: seq<Entry>)
    ensures entries == Extracted(rules, payload)
  {
    var decoded := AsDoc(payload);
    if decoded.None? {
      return [];
    }
    var doc := Obj(decoded.value);
    entries := [];
    for i := 0 to |rules|
      invariant entries == DocEntries(rules[..i], doc)
    {
      assert rules[..i + 1][..i] == rules[..i];
      var r := rules[i];
      var v := Walk(doc, r.path);
      if r.mode == "array" {
        if v.Arr? {
          ghost var before := entries;
          for e := 0 to |v.elems|
            invariant entries == before + ArrayEntries(r, v.elems[..e])
          {
            assert v.elems[..e + 1][..e] == v.elems[..e];
            var elem := v.elems[e];
            if !elem.Obj? {
              continue;
            }
            var k := Walk(elem, r.keyPath);
            if !k.Str? || k.s == "" {
              continue;
            }
            var cell := EMPTY_CELL;
            if r.valuePath != "" {
              var leaf := Walk(elem, r.valuePath);
              cell := NumOrTxt(leaf);
            }
            entries := entries + [Entry(r.field, k.s, cell)];
          }
          assert v.elems[..|v.elems|] == v.elems;
        }
      } else {
        if v == Null {
          continue;
        }
        var cell := NumOrTxt(v);
        if cell.num.None? && cell.txt.None? {
          continue;
        }
        entries := entries + [Entry(r.field, "", cell)];
      }
    }
    assert rules[..|rules|] == rules;
  }

  // ------------------------------------------------ what the index rows mean

  /** Rows of one record, keyed as the table's primary key is within a record. */
  type Rows = map<(string, string), Cell>

  /** Inserting the entries in order, a repeated key overwriting: last wins. */
  function LastWins(entries: seq<Entry>): Rows {
    if entries == [] then map[]
    else
      var e := entries[|entries| - 1];
      LastWins(entries[..|entries| - 1])[(e.field, e.k) := e.cell]
  }

  function RowsOf(rules: seq<Rule>, payload: Json): Rows {
    LastWins(Extracted(rules, payload))
  }

  /** Element `i` is the one that decides key `k`: no later element has that key. */
  ghost predicate Decides(r: Rule, elems: seq<Json>, i: nat, k: string) {
    && i < |elems|
    && ElemKey(r, elems[i]) == Some(k)
    && (forall j :: i < j < |elems| ==> ElemKey(r, elems[j]) != Some(k))
  }

  /** Read off the document, without entries or tables: rule `r` puts `cell`
      under key `k`. */
  ghost predicate RuleSays(r: Rule, doc: Json, k: string, cell: Cell) {
    var v := ValueAt(doc, Segments(r.path));
    if r.mode == "array" then
      v.Arr? && exists i: nat :: Decides(r, v.elems, i, k) && cell == ElemCell(r, v.elems[i])
    else
      k == "" && NumOrTxt(v) != EMPTY_CELL && cell == NumOrTxt(v)
  }

  lemma {:induction false} LastWinsAppend(a: seq<Entry>, b: seq<Entry>)
    ensures LastWins(a + b) == LastWins(a) + LastWins(b)
  {
    if b == [] {
      assert a + b == a;
    } else {
      var n := |b| - 1;
      assert (a + b)[..|a + b| - 1] == a + b[..n];
      LastWinsAppend(a, b[..n]);
    }
  }

  /** One more element: it decides its own key, the others are as before. */
  lemma DecidesAfter(r: Rule, elems: seq<Json>, k: string, cell: Cell)
    requires elems != []
    ensures var n := |elems| - 1;
            (exists i: nat :: Decides(r, elems, i, k) && cell == ElemCell(r, elems[i])) <==>
            if ElemKey(r, elems[n]) == Some(k) then cell == ElemCell(r, elems[n])
            else exists i: nat :: Decides(r, elems[..n], i, k) && cell == ElemCell(r, elems[..n][i])
  {
    var n := |elems| - 1;
    if ElemKey(r, elems[n]) == Some(k) {
      assert Decides(r, elems, n, k);
      assert forall i: nat :: Decides(r, elems, i, k) ==> i == n;
    } else {
      forall i: nat ensures Decides(r, elems, i, k) <==> Decides(r, elems[..n], i, k) {
        assert forall j :: 0 <= j < n ==> elems[..n][j] == elems[j];
      }
    }
  }

  lemma {:induction false} ArrayRowsMeanElements(r: Rule, elems: seq<Json>, f: string, k: string, cell: Cell)
    ensures Get(LastWins(ArrayEntries(r, elems)), (f, k)) == Some(cell)
       <==> f == r.field && exists i: nat :: Decides(r, elems, i, k) && cell == ElemCell(r, elems[i])
  {
    if elems != [] {
      var n := |elems| - 1;
      ArrayRowsMeanElements(r, elems[..n], f, k, cell);
      DecidesAfter(r, elems, k, cell);
      if ElemKey(r, elems[n]).Some? {
        var before, e := ArrayEntries(r, elems[..n]), Entry(r.field, ElemKey(r, elems[n]).value, ElemCell(r, elems[n]));
        assert (before + [e])[..|before|] == before;
      }
    }
  }

  lemma RuleRowsMeanDocument(r: Rule, doc: Json, f: string, k: string, cell: Cell)
    ensures Get(LastWins(RuleEntries(r, doc)), (f, k)) == Some(cell) <==> f == r.field && RuleSays(r, doc, k, cell)
  {
    var v := ValueAt(doc, Segments(r.path));
    if r.mode == "array" {
      if v.Arr? {
        ArrayRowsMeanElements(r, v.elems, f, k, cell);
      }
    } else if NumOrTxt(v) != EMPTY_CELL {
      var e := Entry(r.field, "", NumOrTxt(v));
      assert [e][..0] == [];
    }
  }

  lemma RuleRowsOwnField(r: Rule, doc: Json, f: string, k: string)
    requires (f, k) in LastWins(RuleEntries(r, doc))
    ensures f == r.field
  {
    RuleRowsMeanDocument(r, doc, f, k, LastWins(RuleEntries(r, doc))[(f, k)]);
  }

  lemma {:induction false} DocRowsOwnFields(rules: seq<Rule>, doc: Json, f: string, k: string)
    requires (f, k) in LastWins(DocEntries(rules, doc))
    ensures exists i :: 0 <= i < |rules| && rules[i].field == f
  {
    var n := |rules| - 1;
    LastWinsAppend(DocEntries(rules[..n], doc), RuleEntries(rules[n], doc));
    if (f, k) in LastWins(RuleEntries(rules[n], doc)) {
      RuleRowsOwnField(rules[n], doc, f, k);
    } else {
      DocRowsOwnFields(rules[..n], doc, f, k);
      var i :| 0 <= i < n && rules[..n][i].field == f;
      assert rules[i].field == f;
    }
  }

  lemma {:induction false} DocRowsMeanDocument(rules: seq<Rule>, doc: Json, f: string, k: string, cell: Cell)
    requires ValidRules(rules)
    ensures Get(LastWins(DocEntries(rules, doc)), (f, k)) == Some(cell)
       <==> exists r :: r in rules && r.field == f && RuleSays(r, doc, k, cell)
  {
    if rules != [] {
      var n := |rules| - 1;
      var init, last := rules[..n], rules[n];
      LastWinsAppend(DocEntries(init, doc), RuleEntries(last, doc));
      assert forall r :: r in rules <==> r in init || r == last by { assert rules == init + [last]; }
      if last.field == f {
        assert forall r :: r in init ==> r.field != f;
        if (f, k) in LastWins(DocEntries(init, doc)) {
          DocRowsOwnFields(init, doc, f, k);
        }
        RuleRowsMeanDocument(last, doc, f, k, cell);
      } else {
        if (f, k) in LastWins(RuleEntries(last, doc)) {
          RuleRowsOwnField(last, doc, f, k);
        }
        DocRowsMeanDocument(init, doc, f, k, cell);
      }
    }
  }

  /** Under validated rules, a record has the row (f, k) -> cell exactly when the
      rule for field f reads that cell off the payload. Rule order is immaterial. */
  lemma RowsMeanDocument(rules: seq<Rule>, payload: Json, f: string, k: string, cell: Cell)
    requires ValidRules(rules)
    ensures Get(RowsOf(rules, payload), (f, k)) == Some(cell)
       <==> AsDoc(payload).Some? && exists r ::
         r in rules && r.field == f && RuleSays(r, Obj(AsDoc(payload).value), k, cell)
  {
    if AsDoc(payload).Some? {
      DocRowsMeanDocument(rules, Obj(AsDoc(payload).value), f, k, cell);
    }
  }

  lemma OneRulePerField(rules: seq<Rule>, r: Rule, other: Rule)
    requires ValidRules(rules) && r in rules && other in rules && r.field == other.field
    ensures r == other
  {
    var i :| 0 <= i < |rules| && rules[i] == r;
    var j :| 0 <= j < |rules| && rules[j] == other;
  }

  /** The row of rule `r` at key `k`, whatever the other rules say. */
  lemma RowOfRule(rules: seq<Rule>, m: map<string, Json>, r: Rule, k: string, cell: Cell)
    requires ValidRules(rules) && r in rules
    ensures Get(RowsOf(rules, Obj(m)), (r.field, k)) == Some(cell) <==> RuleSays(r, Obj(m), k, cell)
  {
    RowsMeanDocument(rules, Obj(m), r.field, k, cell);
    hide RuleSays;
    forall other | other in rules && other.field == r.field ensures other == r { OneRulePerField(rules, r, other); }
  }

  lemma NoRowOfRule(rules: seq<Rule>, m: map<string, Json>, r: Rule, k: string)
    requires ValidRules(rules) && r in rules && forall cell :: !RuleSays(r, Obj(m), k, cell)
    ensures Get(RowsOf(rules, Obj(m)), (r.field, k)) == None
  {
    var rows := RowsOf(rules, Obj(m));
    hide RuleSays, RowsOf;
    if (r.field, k) in rows { RowOfRule(rules, m, r, k, rows[(r.field, k)]); }
  }

  /** The row of a scalar rule, by the value at its path: a number in the numeric
      column, a non-empty text or a boolean in the text column, nothing otherwise; and
      never under a key. */
  lemma ScalarRow(rules: seq<Rule>, m: map<string, Json>, r: Rule, k: string)
    requires ValidRules(rules) && r in rules && (r.mode == "" || r.mode == "scalar")
    ensures var v, row := ValueAt(Obj(m), Segments(r.path)), Get(RowsOf(rules, Obj(m)), (r.field, ""));
            && (v.Number? ==> row == Some(Cell(Some(Finite(v.r)), None)))
            && (v.Str? && v.s != "" ==> row == Some(Cell(None, Some(v.s))))
            && (v == Bool(true) ==> row == Some(Cell(None, Some("true"))))
            && (v == Bool(false) ==> row == Some(Cell(None, Some("false"))))
            && (v == Str("") || v.Null? || v.Arr? || v.Obj? ==> row == None)
    ensures k != "" ==> Get(RowsOf(rules, Obj(m)), (r.field, k)) == None
  {
    var v := ValueAt(Obj(m), Segments(r.path));
    if NumOrTxt(v) != EMPTY_CELL {
      RowOfRule(rules, m, r, "", NumOrTxt(v));
    } else {
      NoRowOfRule(rules, m, r, "");
    }
    if k != "" { NoRowOfRule(rules, m, r, k); }
  }

  /** The text `k` is read at the key path of an array element. */
  ghost predicate Keyed(r: Rule, elem: Json, k: string) {
    elem.Obj? && k != "" && ValueAt(elem, Segments(r.keyPath)) == Str(k)
  }

  lemma KeyedIs(r: Rule, elem: Json, k: string)
    ensures ElemKey(r, elem) == Some(k) <==> Keyed(r, elem, k)
  {}

  /** The row of an array rule at a key: that of the last element with this key, by
      the value at its value path, and empty when there is none to be had. */
  lemma ArrayRow(rules: seq<Rule>, m: map<string, Json>, r: Rule, k: string, i: nat)
    requires ValidRules(rules) && r in rules && r.mode == "array"
    requires var at := ValueAt(Obj(m), Segments(r.path));
             && at.Arr? && i < |at.elems| && Keyed(r, at.elems[i], k)
             && forall j :: i < j < |at.elems| ==> !Keyed(r, at.elems[j], k)
    ensures var elem := ValueAt(Obj(m), Segments(r.path)).elems[i];
            var v, row := ValueAt(elem, Segments(r.valuePath)), Get(RowsOf(rules, Obj(m)), (r.field, k));
            if r.valuePath == "" then row == Some(Cell(None, None))
            else
              && (v.Number? ==> row == Some(Cell(Some(Finite(v.r)), None)))
              && (v.Str? && v.s != "" ==> row == Some(Cell(None, Some(v.s))))
              && (v == Bool(true) ==> row == Some(Cell(None, Some("true"))))
              && (v == Bool(false) ==> row == Some(Cell(None, Some("false"))))
              && (v == Str("") || v.Null? || v.Arr? || v.Obj? ==> row == Some(Cell(None, None)))
  {
    var elems := ValueAt(Obj(m), Segments(r.path)).elems;
    forall j | 0 <= j < |elems| ensures ElemKey(r, elems[j]) == Some(k) <==> Keyed(r, elems[j], k) {
      KeyedIs(r, elems[j], k);
    }
    assert Decides(r, elems, i, k);
    RowOfRule(rules, m, r, k, ElemCell(r, elems[i]));
  }

  /** No element has the key, or there is no array: no row. */
  lemma NoArrayRow(rules: seq<Rule>, m: map<string, Json>, r: Rule, k: string)
    requires ValidRules(rules) && r in rules && r.mode == "array"
    requires var at := ValueAt(Obj(m), Segments(r.path));
             at.Arr? ==> forall j :: 0 <= j < |at.elems| ==> !Keyed(r, at.elems[j], k)
    ensures Get(RowsOf(rules, Obj(m)), (r.field, k)) == None
  {
    var at := ValueAt(Obj(m), Segments(r.path));
    if at.Arr? {
      forall j | 0 <= j < |at.elems| ensures ElemKey(r, at.elems[j]) != Some(k) { KeyedIs(r, at.elems[j], k); }
    }
    hide ElemKey, Keyed, ValueAt, ElemCell;
    forall cell ensures !RuleSays(r, Obj(m), k, cell) {
      if at.Arr? { assert forall i: nat :: !Decides(r, at.elems, i, k); }
    }
    NoRowOfRule(rules, m, r, k);
  }

  /** A field without a rule has no rows, and neither has a payload that is no object. */
  lemma NoRuleNoRow(rules: seq<Rule>, payload: Json, f: string, k: string)
    requires ValidRules(rules)
    requires payload.Obj? ==> forall r :: r in rules ==> r.field != f
    ensures Get(RowsOf(rules, payload), (f, k)) == None
  {
    if (f, k) in RowsOf(rules, payload) {
      RowsMeanDocument(rules, payload, f, k, RowsOf(rules, payload)[(f, k)]);
      if payload.Null? { EmptyDocument(rules, f, k, RowsOf(rules, payload)[(f, k)]); }
    }
  }

  lemma EmptyDocument(rules: seq<Rule>, f: string, k: string, cell: Cell)
    ensures forall r :: r in rules && r.field == f ==> !RuleSays(r, Obj(map[]), k, cell)
  {
    forall r: Rule ensures ValueAt(Obj(map[]), Segments(r.path)) == Null { NothingThere(Segments(r.path)); }
    hide ValueAt;
  }

  lemma NothingThere(segs: seq<string>)
    requires segs != []
    ensures ValueAt(Obj(map[]), segs) == Null
  {}

  /** Rewriting the rule list in another order leaves every record's rows as they were. */
  lemma RuleOrderIrrelevant(rules: seq<Rule>, other: seq<Rule>, payload: Json)
    requires ValidRules(rules) && ValidRules(other)
    requires forall r :: r in rules <==> r in other
    ensures RowsOf(rules, payload) == RowsOf(other, payload)
  {
    var a, b := RowsOf(rules, payload), RowsOf(other, payload);
    forall key: (string, string) ensures Get(a, key) == Get(b, key) {
      var (f, k) := key;
      if key in a {
        RowsMeanDocument(rules, payload, f, k, a[key]);
        RowsMeanDocument(other, payload, f, k, a[key]);
      }
      if key in b {
        RowsMeanDocument(rules, payload, f, k, b[key]);
        RowsMeanDocument(other, payload, f, k, b[key]);
      }
    }
    SameLookups(a, b);
  }
}
