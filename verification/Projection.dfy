/** Field projection of svc-data: the sub-document at a list of dotted paths
    (services/svc-data/query.go, projectFields and setPath). */
module Projection {
  import opened Prelude
  import opened JsonDoc

  type Path = seq<string>

  // ------------------------------------------------------------ the operations

  /** Unicode white space. */
  predicate Blank(c: char) {
    || '\U{0009}' <= c <= '\U{000D}' || c == ' ' || c == '\U{0085}' || c == '\U{00A0}' || c == '\U{1680}'
    || '\U{2000}' <= c <= '\U{200A}' || c == '\U{2028}' || c == '\U{2029}' || c == '\U{202F}' || c == '\U{205F}'
      || c == '\U{3000}'
  }

  function TrimLeft(s: string): string {
    if s != "" && Blank(s[0]) then TrimLeft(s[1..]) else s
  }

  function Trim(s: string): string {
    var t := TrimLeft(s);
    TrimRight(t)
  }

  function TrimRight(s: string): string {
    if s != "" && Blank(s[|s| - 1]) then TrimRight(s[..|s| - 1]) else s
  }

  /** Writes `v` at a path, making the objects on the way; a non-object on the
      way is replaced. */
  function SetPath(doc: map<string, Json>, segs: Path, v: Json): map<string, Json>
    requires segs != []
    decreases segs
  {
    var s := segs[0];
    if |segs| == 1 then doc[s := v]
    else
      var next := if s in doc && doc[s].Obj? then doc[s].fields else map[];
      doc[s := Obj(SetPath(next, segs[1..], v))]
  }

  /** The paths a list of specs asks for: trimmed, blank ones dropped. */
  function Requested(specs: seq<string>): set<Path> {
    set s | s in specs && Trim(s) != "" :: Segments(Trim(s))
  }

  /** Builds the projection one path at a time. A payload that is no document
      comes back as it is. */
  method ProjectFields(payload: Json, specs: seq<string>) returns (r: Json)
    ensures AsDoc(payload).None? ==> r == payload
    ensures AsDoc(payload).Some? ==> r == Restricted(Obj(AsDoc(payload).value), Requested(specs))
  {
    var decoded := AsDoc(payload);
    if decoded.None? {
      return payload;
    }
    var doc := Obj(decoded.value);
    var out: map<string, Json> := map[];
    NothingRequested(doc);
    for i := 0 to |specs|
      invariant Obj(out) == Restricted(doc, Requested(specs[..i]))
    {
      assert specs[..i + 1] == specs[..i] + [specs[i]];
      var p := Trim(specs[i]);
      if p == "" {
        assert Requested(specs[..i + 1]) == Requested(specs[..i]);
        continue;
      }
      assert Requested(specs[..i + 1]) == Requested(specs[..i]) + {Segments(p)};
      var v := Walk(doc, p);
      if v != Null {
        LivePathAdded(doc, Requested(specs[..i]), Segments(p));
        out := SetPath(out, Segments(p), v);
      } else {
        DeadPathIgnored(doc, Requested(specs[..i]), Segments(p));
      }
    }
    assert specs[..|specs|] == specs;
    r := Obj(out);
  }

  // --------------------------------------------------------- what it should be

  /** What the paths through key `k` ask of the value there. */
  function Tails(paths: set<Path>, k: string): set<Path> {
    set p | p in paths && p != [] && p[0] == k :: p[1..]
  }

  predicate Live(j: Json, p: Path) { ValueAt(j, p) != Null }

  /** Some requested path runs through key `k` to a value that is not null. */
  predicate Touched(j: Json, paths: set<Path>, k: string)
    requires j.Obj? && k in j.fields
  {
    exists t :: t in Tails(paths, k) && Live(j.fields[k], t)
  }

  /** The sub-document at a set of paths, by recursion on the document. */
  function Restricted(j: Json, paths: set<Path>): Json
    decreases j
  {
    if !j.Obj? then j
    else Obj(map k | k in j.fields && Touched(j, paths, k) ::
               if [] in Tails(paths, k) then j.fields[k] else Restricted(j.fields[k], Tails(paths, k)))
  }

  /** What the projection holds for a value of which the paths `ts` are asked. */
  function Asked(v: Json, ts: set<Path>): Option<Json> {
    if exists t :: t in ts && Live(v, t) then Some(if [] in ts then v else Restricted(v, ts)) else None
  }

  lemma RestrictedAt(j: Json, paths: set<Path>, k: string)
    requires j.Obj?
    ensures Get(Restricted(j, paths).fields, k) == if k in j.fields then Asked(j.fields[k], Tails(paths, k)) else None
  {}

  lemma NothingRequested(j: Json)
    requires j.Obj?
    ensures Restricted(j, {}) == Obj(map[])
  {
    forall k | k in j.fields ensures !Touched(j, {}, k) {
      assert Tails({}, k) == {};
    }
    assert Restricted(j, {}).fields == map[];
  }

  lemma UntouchedIsEmpty(j: Json, paths: set<Path>)
    requires j.Obj? && forall p :: p in paths ==> !Live(j, p)
    ensures Restricted(j, paths).fields == map[]
  {
    forall k | k in j.fields ensures !Touched(j, paths, k) {
      forall t | t in Tails(paths, k) ensures !Live(j.fields[k], t) {
        var p :| p in paths && p != [] && p[0] == k && p[1..] == t;
        assert !Live(j, p);
      }
    }
  }

  lemma TailsAdd(paths: set<Path>, p: Path, k: string)
    requires p != []
    ensures Tails(paths + {p}, k) == if p[0] == k then Tails(paths, k) + {p[1..]} else Tails(paths, k)
  {}

  lemma {:induction false} RewriteSame(m: map<string, Json>, p: Path)
    requires p != [] && Live(Obj(m), p)
    ensures SetPath(m, p, ValueAt(Obj(m), p)) == m
    decreases p
  {
    if |p| > 1 {
      RewriteSame(m[p[0]].fields, p[1..]);
    }
  }

  /** Adding a live path to the request is writing its value into the result. */
  lemma {:induction false} LivePathAdded(j: Json, paths: set<Path>, p: Path)
    requires j.Obj? && p != [] && Live(j, p)
    ensures SetPath(Restricted(j, paths).fields, p, ValueAt(j, p)) == Restricted(j, paths + {p}).fields
    decreases p, 1
  {
    var written := SetPath(Restricted(j, paths).fields, p, ValueAt(j, p));
    forall i ensures Get(written, i) == Get(Restricted(j, paths + {p}).fields, i) {
      RestrictedAt(j, paths, i);
      RestrictedAt(j, paths + {p}, i);
      TailsAdd(paths, p, i);
      if i == p[0] {
        LivePathAddedBelow(j, paths, p);
      }
    }
    SameLookups(written, Restricted(j, paths + {p}).fields);
  }

  /** The same at the key the path goes through. */
  lemma {:induction false} LivePathAddedBelow(j: Json, paths: set<Path>, p: Path)
    requires j.Obj? && p != [] && Live(j, p)
    ensures Get(SetPath(Restricted(j, paths).fields, p, ValueAt(j, p)), p[0]) ==
            Asked(j.fields[p[0]], Tails(paths, p[0]) + {p[1..]})
    decreases p, 0
  {
    var v, ts, t := j.fields[p[0]], Tails(paths, p[0]), p[1..];
    RestrictedAt(j, paths, p[0]);
    assert t in ts + {t} && Live(v, t);
    if t != [] {
      if [] in ts {
        assert Live(v, []);
        RewriteSame(v.fields, t);
      } else {
        if Asked(v, ts) == None {
          UntouchedIsEmpty(v, ts);
        }
        LivePathAdded(v, ts, t);
      }
    }
  }

  lemma {:induction false} DeadPathIgnored(j: Json, paths: set<Path>, p: Path)
    requires p != [] && !Live(j, p)
    ensures Restricted(j, paths + {p}) == Restricted(j, paths)
    decreases p
  {
    if j.Obj? {
      var a, b := Restricted(j, paths + {p}).fields, Restricted(j, paths).fields;
      forall i ensures Get(a, i) == Get(b, i) {
        RestrictedAt(j, paths, i);
        RestrictedAt(j, paths + {p}, i);
        TailsAdd(paths, p, i);
        if i == p[0] && i in j.fields {
          var v, t := j.fields[i], p[1..];
          assert !Live(v, t);
          if t != [] {
            DeadPathIgnored(v, Tails(paths, i), t);
          } else {
            assert forall u :: !Live(v, u);
          }
        }
      }
      SameLookups(a, b);
    }
  }

  // ----------------------------------------------------------------- its laws

  /** A requested path reads the same in the projection as in the document. */
  lemma {:induction false} RequestedReadsSame(j: Json, paths: set<Path>, p: Path)
    requires p in paths && p != [] && Live(j, p)
    ensures ValueAt(Restricted(j, paths), p) == ValueAt(j, p)
    decreases p
  {
    var k := p[0];
    assert p[1..] in Tails(paths, k);
    assert Touched(j, paths, k);
    if [] !in Tails(paths, k) {
      RequestedReadsSame(j.fields[k], Tails(paths, k), p[1..]);
    }
  }

  /** `a` is `b` with some keys of some nested objects left out. */
  predicate SubDocument(a: Json, b: Json)
    decreases b
  {
    a == b || (a.Obj? && b.Obj? && forall k :: k in a.fields ==> k in b.fields && SubDocument(a.fields[k], b.fields[k]))
  }

  lemma {:induction false} ProjectionIsSubDocument(j: Json, paths: set<Path>)
    ensures SubDocument(Restricted(j, paths), j)
    decreases j
  {
    if j.Obj? {
      forall k | k in Restricted(j, paths).fields ensures SubDocument(Restricted(j, paths).fields[k], j.fields[k]) {
        ProjectionIsSubDocument(j.fields[k], Tails(paths, k));
      }
    }
  }

  /** Whatever can be read in the projection lies at or below a requested path,
      and is then the document's own value, or on the way to one. */
  lemma {:induction false} NothingElseReads(j: Json, paths: set<Path>, q: Path)
    requires j.Obj? && [] !in paths && Live(Restricted(j, paths), q)
    ensures q == [] || exists p :: p in paths && Reaches(j, paths, p, q)
    decreases q
  {
    if q != [] {
      var k := q[0];
      var v, ts := j.fields[k], Tails(paths, k);
      assert Touched(j, paths, k);
      var t;
      if [] in ts {
        t := [];
      } else {
        var live :| live in ts && Live(v, live);
        t := live;
        if q[1..] != [] {
          NothingElseReads(v, ts, q[1..]);
          t :| t in ts && Reaches(v, ts, t, q[1..]);
        }
      }
      TailOrigin(paths, k, t);
      assert ValueAt(j, [k] + t) == ValueAt(v, t) by { assert ([k] + t)[1..] == t; }
      assert q == [k] + q[1..];
      assert t <= q[1..] ==> [k] + t <= q;
      assert Reaches(j, paths, [k] + t, q);
    }
  }

  /** The live path `p` ends at or above `q`, which then reads as in the document,
      or passes through `q`. */
  predicate Reaches(j: Json, paths: set<Path>, p: Path, q: Path) {
    Live(j, p) && ((p <= q && ValueAt(Restricted(j, paths), q) == ValueAt(j, q)) || q <= p)
  }

  lemma TailOrigin(paths: set<Path>, k: string, t: Path)
    requires t in Tails(paths, k)
    ensures [k] + t in paths
  {
    var p :| p in paths && p != [] && p[0] == k && p[1..] == t;
    assert p == [k] + t;
  }

  /** A null or missing requested path stays unread in the projection. */
  lemma {:induction false} ReadsInDocument(j: Json, paths: set<Path>, p: Path)
    requires Live(Restricted(j, paths), p)
    ensures Live(j, p)
    decreases p
  {
    if p != [] && [] !in Tails(paths, p[0]) {
      ReadsInDocument(j.fields[p[0]], Tails(paths, p[0]), p[1..]);
    }
  }

  /** Projecting again with the same paths changes nothing. */
  lemma {:induction false} ProjectionIdempotent(j: Json, paths: set<Path>)
    ensures Restricted(Restricted(j, paths), paths) == Restricted(j, paths)
    decreases j
  {
    StaysWhole(j);
    hide *;
    if j.Obj? {
      var once := Restricted(j, paths);
      forall k | k in once.fields
        ensures Touched(once, paths, k)
        ensures [] !in Tails(paths, k) ==> Restricted(once.fields[k], Tails(paths, k)) == once.fields[k]
      {
        StillTouched(j, paths, k);
        if [] !in Tails(paths, k) { ProjectionIdempotent(j.fields[k], Tails(paths, k)); }
      }
      KeptWhole(once, paths);
    }
  }

  lemma StaysWhole(j: Json)
    ensures forall paths :: if j.Obj? then Restricted(j, paths).Obj? else Restricted(j, paths) == j
  {}

  lemma KeptWhole(j: Json, paths: set<Path>)
    requires j.Obj? && forall k :: k in j.fields ==>
               Touched(j, paths, k)
               && ([] !in Tails(paths, k) ==> Restricted(j.fields[k], Tails(paths, k)) == j.fields[k])
    ensures Restricted(j, paths) == j
  {
    hide Touched, Tails;
    assert Restricted(j, paths).fields == j.fields;
  }

  lemma StillTouched(j: Json, paths: set<Path>, k: string)
    requires j.Obj? && k in Restricted(j, paths).fields
    ensures k in j.fields && Touched(Restricted(j, paths), paths, k)
    ensures Restricted(j, paths).fields[k] ==
            if [] in Tails(paths, k) then j.fields[k] else Restricted(j.fields[k], Tails(paths, k))
  {
    var t :| t in Tails(paths, k) && Live(j.fields[k], t);
    hide Tails;
    if [] !in Tails(paths, k) {
      assert t != [];
      RequestedReadsSame(j.fields[k], Tails(paths, k), t);
    }
    assert Live(Restricted(j, paths).fields[k], t);
  }

  /** The order and repetition of the requested paths do not matter. */
  lemma RequestOrderIrrelevant(a: seq<string>, b: seq<string>)
    requires forall s :: s in a <==> s in b
    ensures Requested(a) == Requested(b)
  {}

  /** The trimmed text lies between white space and neither starts nor ends with any. */
  lemma {:induction false} TrimCuts(a: string, t: string, b: string)
    requires forall i :: 0 <= i < |a| ==> Blank(a[i])
    requires forall i :: 0 <= i < |b| ==> Blank(b[i])
    requires t != "" ==> !Blank(t[0]) && !Blank(t[|t| - 1])
    ensures Trim(a + t + b) == t
  {
    TrimsLeft(a, t + b);
    assert a + t + b == a + (t + b);
    if t == "" {
      TrimsLeft(b, "");
      assert t + b == b + "";
    } else {
      TrimsRight(t, b);
      assert (t + b)[0] == t[0];
    }
  }

  lemma {:induction false} TrimsLeft(a: string, s: string)
    requires forall i :: 0 <= i < |a| ==> Blank(a[i])
    ensures TrimLeft(a + s) == TrimLeft(s)
  {
    if a == "" {
      assert a + s == s;
    } else {
      assert (a + s)[1..] == a[1..] + s;
      TrimsLeft(a[1..], s);
    }
  }

  lemma {:induction false} TrimsRight(t: string, b: string)
    requires forall i :: 0 <= i < |b| ==> Blank(b[i])
    requires t != "" && !Blank(t[|t| - 1])
    ensures TrimRight(t + b) == t
  {
    if b == "" {
      assert t + b == t;
    } else {
      assert (t + b)[..|t + b| - 1] == t + b[..|b| - 1];
      TrimsRight(t, b[..|b| - 1]);
    }
  }

  /** White space by code point: space, tab and what breaks lines in ASCII, and the spaces
      of Unicode. */
  lemma WhiteSpace(c: char)
    ensures var n := c as int;
            Blank(c) <==> || n in {9, 10, 11, 12, 13, 32, 133, 160, 5760, 8232, 8233, 8239, 8287, 12288}
                          || (8192 <= n && n < 8203)
  {}

  /** Spelt out: a path asked for, with white space around it, that leads to a value is
      in the projection with that value; white space alone asks for nothing. */
  lemma AskedIsReturned(j: Json, specs: seq<string>, a: string, t: string, b: string)
    requires a + t + b in specs
    requires forall i :: 0 <= i < |a| ==> Blank(a[i])
    requires forall i :: 0 <= i < |b| ==> Blank(b[i])
    requires t != "" && !Blank(t[0]) && !Blank(t[|t| - 1])
    requires ValueAt(j, Segments(t)) != Null
    ensures Segments(t) in Requested(specs)
    ensures ValueAt(Restricted(j, Requested(specs)), Segments(t)) == ValueAt(j, Segments(t))
  {
    TrimCuts(a, t, b);
    RequestedReadsSame(j, Requested(specs), Segments(t));
  }

  lemma BlanksAskNothing(specs: seq<string>)
    requires forall s, i :: s in specs && 0 <= i < |s| ==> Blank(s[i])
    ensures Requested(specs) == {}
  {
    forall s | s in specs ensures Trim(s) == "" {
      TrimCuts(s, "", "");
      assert s + "" + "" == s;
    }
  }

  /** Every requested path is a path below the root. */
  lemma RequestedPathsNonEmpty(specs: seq<string>)
    ensures [] !in Requested(specs)
  {}
}
