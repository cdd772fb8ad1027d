/** The filter language `field[.key][op value]` of svc-data
    (services/svc-data/query.go, parseFilter). */
module Filter {
  import opened Prelude

  datatype FilterCond = FilterCond(field: string, key: string, op: string, value: string)

  datatype FilterError = BadFilter(spec: string)

  /** In the order they are tried. */
  const FILTER_OPS: seq<string> := [">=", "<=", "=", ">", "<"]

  predicate IsOp(op: string) { op == ">=" || op == "<=" || op == "=" || op == ">" || op == "<" }

  predicate OpChar(c: char) { c == '=' || c == '<' || c == '>' }

  ghost predicate OpFree(s: string) { forall i :: 0 <= i < |s| ==> !OpChar(s[i]) }

  predicate HasOpChar(s: string)
    ensures HasOpChar(s) <==> !OpFree(s)
  {
    exists i :: 0 <= i < |s| && OpChar(s[i])
  }

  /** `sub`, of one or two characters, stands at position `i`. */
  predicate OccursAt(s: string, sub: string, i: int)
    requires 1 <= |sub| <= 2
  {
    0 <= i && i + |sub| <= |s| && s[i] == sub[0] && (|sub| == 2 ==> s[i + 1] == sub[1])
  }

  /** First occurrence of `sub`, or -1. */
  function Index(s: string, sub: string): (i: int)
    requires 1 <= |sub| <= 2
    ensures i == -1 ==> forall j :: !OccursAt(s, sub, j)
    ensures i != -1 ==> OccursAt(s, sub, i) && forall j :: 0 <= j < i ==> !OccursAt(s, sub, j)
  {
    if |s| < |sub| then -1
    else if OccursAt(s, sub, 0) then 0
    else
      var i := Index(s[1..], sub);
      assert forall j :: OccursAt(s, sub, j) ==> OccursAt(s[1..], sub, j - 1);
      if i == -1 then -1 else i + 1
  }

  predicate Occurs(s: string, sub: string)
    requires 1 <= |sub| <= 2
  {
    Index(s, sub) != -1
  }

  function SplitField(rest: string): (string, string) {
    var dot := Index(rest, ".");
    if dot > 0 then (rest[..dot], rest[dot + 1..]) else (rest, "")
  }

  // ------------------------------------------------------------- by position

  /** Where the first operator character stands; the length if there is none. */
  function FirstOp(s: string): (p: nat)
    ensures p <= |s| && (forall i :: 0 <= i < p ==> !OpChar(s[i])) && (p < |s| ==> OpChar(s[p]))
  {
    if s == [] || OpChar(s[0]) then 0 else 1 + FirstOp(s[1..])
  }

  /** The longest operator that starts at position `p`. */
  function LongestOp(s: string, p: nat): (op: string)
    requires p < |s| && OpChar(s[p])
    ensures IsOp(op) && OccursAt(s, op, p)
  {
    if s[p] != '=' && p + 1 < |s| && s[p + 1] == '=' then [s[p], '='] else [s[p]]
  }

  /** Some operator tried before `op` occurs somewhere in `s`. */
  predicate Preempted(s: string, op: string) {
    || (op != ">=" && Occurs(s, ">="))
    || (op != ">=" && op != "<=" && Occurs(s, "<="))
    || ((op == ">" || op == "<") && Occurs(s, "="))
    || (op == "<" && Occurs(s, ">"))
  }

  /** What a reader expects: split at the leftmost operator character, with the
      longest operator there. */
  function LeftmostSplit(spec: string): Option<FilterCond> {
    var p := FirstOp(spec);
    if p == |spec| then
      if spec == "" then None
      else var fk := SplitField(spec); Some(FilterCond(fk.0, fk.1, "", ""))
    else if p == 0 then None
    else
      var op := LongestOp(spec, p);
      var value := spec[p + |op|..];
      var fk := SplitField(spec[..p]);
      if value == "" then None else Some(FilterCond(fk.0, fk.1, op, value))
  }

  /** What the code accepts: the leftmost split, unless an operator of higher
      priority occurs anywhere in the text. */
  function Parsed(spec: string): Result<FilterCond, FilterError> {
    match LeftmostSplit(spec)
    case None => Err(BadFilter(spec))
    case Some(f) => if f.op != "" && Preempted(spec, f.op) then Err(BadFilter(spec)) else Ok(f)
  }

  // ------------------------------------------------------------- by priority

  /** The operator the scan over priorities stops at, from the n-th on. */
  ghost function ScanFrom(spec: string, n: nat): (op: string)
    requires n <= 5
    ensures op == "" || IsOp(op)
    decreases 5 - n
  {
    if n == 5 then "" else if Index(spec, FILTER_OPS[n]) > 0 then FILTER_OPS[n] else ScanFrom(spec, n + 1)
  }

  /** Tries the operators by priority. Succeeds exactly with the leftmost split. */
  method ParseFilter(spec: string) returns (r: Result<FilterCond, FilterError>)
    ensures r == Parsed(spec)
  {
    hide Parsed, Preempted, LeftmostSplit, Index;
    var op, value, rest := "", "", spec;
    for n := 0 to |FILTER_OPS|
      invariant op == "" && rest == spec && value == ""
      invariant ScanFrom(spec, 0) == ScanFrom(spec, n)
    {
      var o := FILTER_OPS[n];
      var i := Index(spec, o);
      if i > 0 {
        op, value, rest := o, spec[i + |o|..], spec[..i];
        break;
      }
    }
    assert spec[..|spec|] == spec && spec[|spec|..] == "";
    PriorityIsPosition(spec);
    var (field, key) := SplitField(rest);
    if field == "" || (op != "" && value == "") || HasOpChar(field + key) {
      return Err(BadFilter(spec));
    }
    r := Ok(FilterCond(field, key, op, value));
  }

  /** What the scan over priorities makes of a spec. */
  ghost function ByPriority(spec: string): Result<FilterCond, FilterError> {
    var op := ScanFrom(spec, 0);
    var i := if op == "" then |spec| else Index(spec, op);
    if !(0 <= i <= |spec| - |op|) then Err(BadFilter(spec))
    else
      var fk, value := SplitField(spec[..i]), spec[i + |op|..];
      if fk.0 == "" || (op != "" && value == "") || HasOpChar(fk.0 + fk.1) then Err(BadFilter(spec))
      else Ok(FilterCond(fk.0, fk.1, op, value))
  }

  lemma PriorityIsPosition(spec: string)
    ensures ByPriority(spec) == Parsed(spec)
  {
    ScanIsLeftmost(spec);
    hide ScanFrom, Preempted, LongestOp, FirstOp, Index, SplitField;
    var op, p := ScanFrom(spec, 0), FirstOp(spec);
    if p == |spec| {
      assert spec[..p] == spec && spec[p..] == "";
      FieldKeepsOps(spec);
    } else if op == "" {
      assert spec[..|spec|] == spec && OpChar(spec[0]);
      FieldKeepsOps(spec);
    } else {
      FieldKeepsOps(spec[..Index(spec, op)]);
    }
  }

  /** Splitting at the dot neither hides nor adds operator characters. */
  lemma FieldKeepsOps(rest: string)
    ensures OpFree(SplitField(rest).0 + SplitField(rest).1) <==> OpFree(rest)
    ensures SplitField(rest).0 == "" <==> rest == ""
  {
    var dot := Index(rest, ".");
    if dot > 0 {
      var joined := rest[..dot] + rest[dot + 1..];
      assert OccursAt(rest, ".", dot) && rest[dot] == '.';
      assert forall i :: 0 <= i < dot ==> joined[i] == rest[i];
      assert forall i :: dot < i < |rest| ==> joined[i - 1] == rest[i];
    } else {
      assert rest + "" == rest;
    }
  }

  /** With something before the first operator character, every occurrence of an
      operator lies at or after it, and only the longest or its head lies at it. */
  lemma OccurrencesFollowFirst(spec: string, op: string)
    requires 0 < FirstOp(spec) < |spec| && IsOp(op) && Occurs(spec, op)
    ensures FirstOp(spec) <= Index(spec, op)
    ensures var longest := LongestOp(spec, FirstOp(spec));
            Index(spec, op) == FirstOp(spec) ==> op == longest || (|op| == 1 && |longest| == 2)
    ensures op == LongestOp(spec, FirstOp(spec)) ==> Index(spec, op) == FirstOp(spec)
  {
    var p, i := FirstOp(spec), Index(spec, op);
    assert OccursAt(spec, op, i) && spec[i] == op[0];
    if i == p && |op| == 2 {
      assert spec[i + 1] == op[1];
    }
  }

  lemma ScanUnrolled(spec: string)
    ensures ScanFrom(spec, 0) ==
            if Index(spec, ">=") > 0 then ">=" else if Index(spec, "<=") > 0 then "<="
            else if Index(spec, "=") > 0 then "=" else if Index(spec, ">") > 0 then ">"
            else if Index(spec, "<") > 0 then "<" else ""
  {
    assert ScanFrom(spec, 3) == if Index(spec, ">") > 0 then ">" else if Index(spec, "<") > 0 then "<" else "";
    assert ScanFrom(spec, 1) == if Index(spec, "<=") > 0 then "<=" else if Index(spec, "=") > 0 then "="
      else ScanFrom(spec, 3);
  }

  lemma NoOpOccurs(spec: string, op: string)
    requires FirstOp(spec) == |spec| && IsOp(op)
    ensures Index(spec, op) == -1
  {}

  lemma PreemptedScan(spec: string)
    requires 0 < FirstOp(spec) < |spec| && Preempted(spec, LongestOp(spec, FirstOp(spec)))
    ensures IsOp(ScanFrom(spec, 0)) && FirstOp(spec) < Index(spec, ScanFrom(spec, 0))
  {
    ScanUnrolled(spec);
    if Occurs(spec, ">=") { OccurrencesFollowFirst(spec, ">="); }
    if Occurs(spec, "<=") { OccurrencesFollowFirst(spec, "<="); }
    if Occurs(spec, "=") { OccurrencesFollowFirst(spec, "="); }
    if Occurs(spec, ">") { OccurrencesFollowFirst(spec, ">"); }
  }

  lemma UndisturbedScan(spec: string)
    requires 0 < FirstOp(spec) < |spec| && !Preempted(spec, LongestOp(spec, FirstOp(spec)))
    ensures ScanFrom(spec, 0) == LongestOp(spec, FirstOp(spec))
    ensures Index(spec, ScanFrom(spec, 0)) == FirstOp(spec)
  {
    ScanUnrolled(spec);
    OccurrencesFollowFirst(spec, LongestOp(spec, FirstOp(spec)));
  }

  lemma {:induction false} ScanFound(spec: string, n: nat)
    requires n <= 5
    ensures ScanFrom(spec, n) != "" ==> IsOp(ScanFrom(spec, n)) && Index(spec, ScanFrom(spec, n)) > 0
    decreases 5 - n
  {
    if n < 5 { ScanFound(spec, n + 1); }
  }

  lemma ScanWithoutOps(spec: string)
    requires FirstOp(spec) == |spec|
    ensures ScanFrom(spec, 0) == ""
  {
    ScanUnrolled(spec);
    hide ScanFrom, Index, FirstOp;
    NoOpOccurs(spec, ">=");
    NoOpOccurs(spec, "<=");
    NoOpOccurs(spec, "=");
    NoOpOccurs(spec, ">");
    NoOpOccurs(spec, "<");
  }

  lemma PrefixWithOp(spec: string, i: nat, p: nat)
    requires p < i <= |spec| && OpChar(spec[p])
    ensures !OpFree(spec[..i])
  {
    assert spec[..i][p] == spec[p];
  }

  /** The scan's left part is free of operator characters exactly when the scan
      agrees with the leftmost split. */
  lemma ScanIsLeftmost(spec: string)
    ensures var op, p := ScanFrom(spec, 0), FirstOp(spec);
            && (op != "" ==> IsOp(op) && Index(spec, op) > 0)
            && (p == |spec| ==> op == "")
            && (p == 0 < |spec| && op != "" ==> !OpFree(spec[..Index(spec, op)]))
            && (0 < p < |spec| ==>
                  && op != ""
                  && (Preempted(spec, LongestOp(spec, p)) ==> !OpFree(spec[..Index(spec, op)]))
                  && (!Preempted(spec, LongestOp(spec, p)) ==> op == LongestOp(spec, p) && Index(spec, op) == p))
  {
    hide ScanFrom, Preempted, LongestOp, OpFree, Occurs, FirstOp, Index;
    var op, p := ScanFrom(spec, 0), FirstOp(spec);
    ScanFound(spec, 0);
    if p == |spec| {
      ScanWithoutOps(spec);
    } else if p == 0 {
      if op != "" { PrefixWithOp(spec, Index(spec, op), 0); }
    } else if Preempted(spec, LongestOp(spec, p)) {
      PreemptedScan(spec);
      PrefixWithOp(spec, Index(spec, op), p);
    } else {
      UndisturbedScan(spec);
    }
  }

  // ------------------------------------------------------------- consequences

  /** A value holding an operator of higher priority is refused. */
  lemma PreemptedWitness()
    ensures LeftmostSplit("a=b>=c") == Some(FilterCond("a", "", "=", "b>=c"))
    ensures Parsed("a=b>=c") == Err(BadFilter("a=b>=c"))
  {
    var s := "a=b>=c";
    assert s[1..] == "=b>=c";
    assert FirstOp(s) == 1;
    assert s[..1] == "a" && s[2..] == "b>=c";
    SplitFieldPrinted("a", "");
    assert OccursAt(s, ">=", 3);
  }

  function Printed(f: FilterCond): string {
    PrintedPath(f.field, f.key) + f.op + f.value
  }

  function PrintedPath(field: string, key: string): string {
    if key == "" then field else field + "." + key
  }

  predicate Printable(f: FilterCond) {
    && f.field != "" && '.' !in f.field && !HasOpChar(f.field) && !HasOpChar(f.key)
    && (if f.op == "" then f.value == "" else IsOp(f.op) && f.value != "")
  }

  lemma SplitFieldPrinted(field: string, key: string)
    requires field != "" && '.' !in field
    ensures SplitField(PrintedPath(field, key)) == (field, key)
  {
    var rest := PrintedPath(field, key);
    var dot := Index(rest, ".");
    if dot != -1 {
      assert rest[dot] == '.';
    }
    if key != "" {
      assert OccursAt(rest, ".", |field|);
      assert forall i :: 0 <= i < |field| ==> rest[i] == field[i];
      assert rest[dot + 1..] == key && rest[..dot] == field;
    }
  }

  lemma PrintedPathOpFree(f: FilterCond)
    requires Printable(f)
    ensures OpFree(PrintedPath(f.field, f.key))
  {
    SplitFieldPrinted(f.field, f.key);
    FieldKeepsOps(PrintedPath(f.field, f.key));
  }

  lemma {:induction false} FirstOpAfter(a: string, b: string)
    requires OpFree(a)
    ensures FirstOp(a + b) == |a| + FirstOp(b)
  {
    if a == "" {
      assert a + b == b;
    } else {
      assert (a + b)[1..] == a[1..] + b;
      assert !OpChar((a + b)[0]);
      FirstOpAfter(a[1..], b);
    }
  }

  /** In the text of a printable condition the first operator character is the
      operator's own; a longer operator there pre-empts it. */
  lemma PrintedSplit(f: FilterCond)
    requires Printable(f) && f.op != ""
    ensures var s, p := Printed(f), |PrintedPath(f.field, f.key)|;
            && FirstOp(s) == p && p + |f.op| < |s|
            && s[..p] == PrintedPath(f.field, f.key)
            && s[p + |f.op|..] == f.value
            && (LongestOp(s, p) == f.op || Preempted(s, f.op))
  {
    var path := PrintedPath(f.field, f.key);
    var s, p := Printed(f), |path|;
    PrintedPathOpFree(f);
    assert s == path + (f.op + f.value);
    FirstOpAfter(path, f.op + f.value);
    assert OpChar((f.op + f.value)[0]);
    assert s[p] == f.op[0];
    if |f.op| == 2 { assert s[p + 1] == f.op[1]; }
    var longest := LongestOp(s, p);
    if longest != f.op {
      assert Occurs(s, longest);
    }
  }

  /** Printing then parsing is the identity exactly on the conditions whose text
      holds no operator of higher priority than their own. */
  lemma PrintThenParse(f: FilterCond)
    requires Printable(f)
    ensures Parsed(Printed(f)) == Ok(f) <==> f.op == "" || !Preempted(Printed(f), f.op)
  {
    SplitFieldPrinted(f.field, f.key);
    if f.op == "" {
      PrintedPathOpFree(f);
      assert Printed(f) == PrintedPath(f.field, f.key);
    } else {
      PrintedSplit(f);
    }
  }

  /** In particular when the value holds no operator character at all. */
  lemma PlainPrintThenParse(f: FilterCond)
    requires Printable(f) && !HasOpChar(f.value)
    ensures Parsed(Printed(f)) == Ok(f)
  {
    PrintThenParse(f);
    if f.op != "" && Preempted(Printed(f), f.op) {
      var s := Printed(f);
      if f.op != ">=" && Occurs(s, ">=") { PlainOccurrence(f, ">="); }
      else if f.op != "<=" && Occurs(s, "<=") { PlainOccurrence(f, "<="); }
      else if f.op != "=" && Occurs(s, "=") { PlainOccurrence(f, "="); }
      else { PlainOccurrence(f, ">"); }
    }
  }

  /** Spelt out: `field op value` and `field.key op value` are read as they stand. */
  lemma PlainSpec(field: string, key: string, op: string, value: string)
    requires field != "" && '.' !in field && !HasOpChar(field)
    requires key != "" && !HasOpChar(key) && value != "" && !HasOpChar(value)
    requires op == "=" || op == "<" || op == "<=" || op == ">" || op == ">="
    ensures Parsed(field + op + value) == Ok(FilterCond(field, "", op, value))
    ensures Parsed(field + "." + key + op + value) == Ok(FilterCond(field, key, op, value))
    ensures Parsed(field) == Ok(FilterCond(field, "", "", ""))
    ensures Parsed(field + "." + key) == Ok(FilterCond(field, key, "", ""))
  {
    PlainPrintThenParse(FilterCond(field, "", op, value));
    PlainPrintThenParse(FilterCond(field, key, op, value));
    PlainPrintThenParse(FilterCond(field, "", "", ""));
    PlainPrintThenParse(FilterCond(field, key, "", ""));
    assert field + "" + "" == field && field + "." + key + "" + "" == field + "." + key;
  }

  /** With a plain value, an operator occurs in the text only inside f's own. */
  lemma PlainOccurrence(f: FilterCond, o: string)
    requires Printable(f) && f.op != "" && !HasOpChar(f.value) && IsOp(o) && Occurs(Printed(f), o)
    ensures o == f.op || (|o| == 1 && |f.op| == 2)
  {
    PrintedPathOpFree(f);
    var path := PrintedPath(f.field, f.key);
    var s, p, i := Printed(f), |path|, Index(Printed(f), o);
    assert OccursAt(s, o, i) && OpChar(s[i]);
    PrintedChar(f, i);
    if |o| == 2 {
      assert OpChar(s[i + 1]);
      PrintedChar(f, i + 1);
    }
  }

  lemma PrintedChar(f: FilterCond, i: nat)
    requires Printable(f) && i < |Printed(f)|
    ensures var path, s := PrintedPath(f.field, f.key), Printed(f);
            s[i] == if i < |path| then path[i] else if i < |path| + |f.op| then f.op[i - |path|]
              else f.value[i - |path| - |f.op|]
  {}
}
