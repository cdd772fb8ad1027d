/** JSON documents as svc-data sees them after decoding, and reading a value
    at a dotted path (services/svc-data/rules.go). */
module JsonDoc {
  import opened Prelude

  datatype Json =
    | Null
    | Bool(b: bool)
    | Number(r: real)
    | Str(s: string)
    | Arr(elems: seq<Json>)
    | Obj(fields: map<string, Json>)

  /** Numbers as the index column holds them: a decoded document only has
      finite ones, a filter value may parse to any of these. */
  datatype Num = NegInf | Finite(r: real) | PosInf | NaN

  /** The order of SQL `numeric`: NaN equals itself and is the greatest. */
  predicate NumLess(a: Num, b: Num) {
    match (a, b)
    case (NegInf, _) => b != NegInf
    case (Finite(x), Finite(y)) => x < y
    case (Finite(_), _) => b == PosInf || b == NaN
    case (PosInf, _) => b == NaN
    case (NaN, _) => false
  }

  /** Minus infinity, the numbers in their order, infinity, not-a-number. */
  lemma NumericOrder(x: real, y: real)
    ensures NumLess(Finite(x), Finite(y)) <==> x < y
    ensures NumLess(NegInf, Finite(x)) && NumLess(Finite(x), PosInf) && NumLess(PosInf, NaN) && NumLess(NegInf, PosInf)
    ensures NumLess(NegInf, NaN) && NumLess(Finite(x), NaN)
    ensures !NumLess(Finite(x), NegInf) && !NumLess(PosInf, Finite(x)) && !NumLess(NaN, PosInf) && !NumLess(NaN, NaN)
  {}

  /** A payload decoded into an object: `null` decodes to the empty object,
      every other non-object fails. */
  function AsDoc(payload: Json): Option<map<string, Json>> {
    match payload
    case Obj(m) => Some(m)
    case Null => Some(map[])
    case _ => None
  }

  function Segments(path: string): (segs: seq<string>)
    ensures |segs| >= 1
  {
    Split(path, '.')
  }

  /** The value at the end of the path, `Null` when the path leaves the document. */
  function ValueAt(cur: Json, segs: seq<string>): Json
    decreases segs
  {
    if segs == [] then cur
    else if cur.Obj? && segs[0] in cur.fields then ValueAt(cur.fields[segs[0]], segs[1..])
    else Null
  }

  /** A path is read key by key, cut at the dots. */
  lemma PathSteps(doc: Json, key: string, rest: string)
    requires '.' !in key
    ensures ValueAt(doc, Segments(key)) == if doc.Obj? && key in doc.fields then doc.fields[key] else Null
    ensures ValueAt(doc, Segments(key + "." + rest)) ==
            if doc.Obj? && key in doc.fields then ValueAt(doc.fields[key], Segments(rest)) else Null
  {
    SplitWithoutSeparator(key, '.');
    SplitAtSeparator(key, '.', rest);
    assert key + "." + rest == key + ['.'] + rest;
    assert ([key] + Segments(rest))[1..] == Segments(rest);
  }

  method Walk(doc: Json, path: string) returns (v: Json)
    ensures v == ValueAt(doc, Segments(path))
  {
    var segs := Segments(path);
    v := doc;
    for i := 0 to |segs|
      invariant ValueAt(v, segs[i..]) == ValueAt(doc, segs)
    {
      assert segs[i..][1..] == segs[i + 1..];
      if !v.Obj? || segs[i] !in v.fields {
        return Null;
      }
      v := v.fields[segs[i]];
    }
  }
}
