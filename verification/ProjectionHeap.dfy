/** The projection as the code runs it (services/svc-data/query.go): decoded objects
    are shared, mutable maps, and the result is built by writing in place. Values
    taken from the document are aliased into the result, so a later path can lead
    the writes back into the document; they turn out to change nothing there. */
module ProjectionHeap {
  import opened Prelude
  import opened JsonDoc
  import opened Projection

  class Node {
    var fields: map<string, Val>

    constructor ()
      ensures fields == map[]
    {
      fields := map[];
    }
  }

  /** Arrays are never entered, so they stay values. */
  datatype Val = Scalar(j: Json) | Ref(node: Node)

  /** What some nodes hold. */
  type Heap = map<Node, map<string, Val>>

  ghost predicate Holds(h: Heap)
    reads h.Keys
  {
    forall n :: n in h ==> n.fields == h[n]
  }

  /** `v` is the document `j`, laid out in `h`. */
  ghost predicate Rep(h: Heap, v: Val, j: Json)
    decreases j
  {
    match j
    case Obj(m) =>
      && v.Ref? && v.node in h && h[v.node].Keys == m.Keys
      && forall k :: k in m ==> Rep(h, h[v.node][k], m[k])
    case _ => v == Scalar(j)
  }

  ghost function At(h: Heap, v: Val, segs: Path): Option<Val>
    decreases segs
  {
    if segs == [] then Some(v)
    else if v.Ref? && v.node in h && segs[0] in h[v.node] then At(h, h[v.node][segs[0]], segs[1..])
    else None
  }

  // ---------------------------------------------------------- following a path

  lemma {:induction false} RepAt(h: Heap, v: Val, j: Json, segs: Path)
    requires Rep(h, v, j) && Live(j, segs)
    ensures At(h, v, segs).Some? && Rep(h, At(h, v, segs).value, ValueAt(j, segs))
    decreases segs
  {
    if segs != [] {
      RepAt(h, h[v.node][segs[0]], j.fields[segs[0]], segs[1..]);
    }
  }

  lemma {:induction false} AtSnoc(h: Heap, v: Val, q: Path, k: string)
    ensures At(h, v, q + [k]) ==
            match At(h, v, q)
            case None => None
            case Some(w) => if w.Ref? && w.node in h && k in h[w.node] then Some(h[w.node][k]) else None
    decreases q
  {
    if q == [] {
      assert [k][1..] == [] && q + [k] == [k];
      if v.Ref? && v.node in h && k in h[v.node] { assert At(h, h[v.node][k], []) == Some(h[v.node][k]); }
    } else if v.Ref? && v.node in h && q[0] in h[v.node] {
      assert (q + [k])[1..] == q[1..] + [k];
      AtSnoc(h, h[v.node][q[0]], q[1..], k);
    }
  }

  lemma {:induction false} ValueAtSnoc(j: Json, q: Path, k: string)
    ensures ValueAt(j, q + [k]) ==
            if ValueAt(j, q).Obj? && k in ValueAt(j, q).fields then ValueAt(j, q).fields[k] else Null
    decreases q
  {
    if q == [] {
      assert [k][1..] == [] && q + [k] == [k];
    } else if j.Obj? && q[0] in j.fields {
      assert (q + [k])[1..] == q[1..] + [k];
      ValueAtSnoc(j.fields[q[0]], q[1..], k);
    }
  }

  /** On the way to a value that is not null there are only objects. */
  lemma {:induction false} LiveThrough(j: Json, p: Path, q: Path)
    requires Live(j, p) && q < p
    ensures ValueAt(j, q).Obj? && p[|q|] in ValueAt(j, q).fields && Live(j, q + [p[|q|]])
    decreases q
  {
    if q == [] {
      assert [p[0]][1..] == [];
      assert ValueAt(j, [p[0]]) == ValueAt(j.fields[p[0]], []);
      if j.fields[p[0]] == Null { NullIsDead(p[1..]); }
    } else {
      assert (q + [p[|q|]])[1..] == q[1..] + [p[|q|]];
      LiveThrough(j.fields[p[0]], p[1..], q[1..]);
    }
  }

  lemma NullIsDead(p: Path)
    ensures ValueAt(Null, p) == Null
  {
  }

  /** The values on the way, as nodes. */
  lemma NodeThrough(h: Heap, v: Val, j: Json, p: Path, q: Path)
    requires Rep(h, v, j) && Live(j, p) && q < p
    ensures At(h, v, q).Some? && At(h, v, q).value.Ref? && At(h, v, q).value.node in h
    ensures p[|q|] in h[At(h, v, q).value.node]
    ensures At(h, v, q + [p[|q|]]) == Some(h[At(h, v, q).value.node][p[|q|]])
  {
    LiveThrough(j, p, q);
    RepAt(h, v, j, q);
    AtSnoc(h, v, q, p[|q|]);
  }

  /** Reads the value at a path; null when there is none. */
  method Walk(root: Val, segs: Path, ghost h: Heap, ghost j: Json) returns (v: Val)
    requires Holds(h) && Rep(h, root, j)
    ensures Live(j, segs) ==> At(h, root, segs) == Some(v)
    ensures !Live(j, segs) <==> v == Scalar(Null)
  {
    v := root;
    ghost var at := j;
    for i := 0 to |segs|
      invariant Rep(h, v, at) && ValueAt(at, segs[i..]) == ValueAt(j, segs) && At(h, v, segs[i..]) == At(h, root, segs)
    {
      assert segs[i..][1..] == segs[i + 1..] && segs[i..][0] == segs[i];
      if !v.Ref? || segs[i] !in v.node.fields {
        return Scalar(Null);
      }
      v, at := v.node.fields[segs[i]], at.fields[segs[i]];
    }
  }

  // --------------------------------------------------------- the shape of the result

  ghost predicate Covered(ps: set<Path>, q: Path) { exists p :: p in ps && p <= q }

  ghost predicate Passes(ps: set<Path>, q: Path) { exists p :: p in ps && q < p }

  /** What belongs at path `r` of the result: the document's own value if `r` was
      asked for, a new object if a longer path was, otherwise nothing. */
  ghost function Slot(h: Heap, root: Val, ps: set<Path>, made: map<Path, Node>, r: Path): Option<Val> {
    if r in ps then At(h, root, r)
    else if Passes(ps, r) && r in made then Some(Ref(made[r]))
    else None
  }

  ghost predicate NodeOk(h: Heap, root: Val, ps: set<Path>, made: map<Path, Node>, q: Path, fields: map<string, Val>) {
    forall k :: Get(fields, k) == Slot(h, root, ps, made, q + [k])
  }

  ghost predicate Separate(h: Heap, made: map<Path, Node>) {
    && [] in made
    && (forall q :: q in made ==> made[q] !in h)
    && (forall q, r :: q in made && r in made && made[q] == made[r] ==> q == r)
  }

  /** The paths to write: live paths below the root. */
  ghost predicate LivePaths(j: Json, ps: set<Path>) { forall p :: p in ps ==> p != [] && Live(j, p) }

  /** The new objects, one for each path passed through, hold what belongs there. */
  ghost predicate Shaped(h: Heap, root: Val, ps: set<Path>, made: map<Path, Node>)
    reads set q | q in made :: made[q]
  {
    && Separate(h, made)
    && (forall r :: Passes(ps, r) && !Covered(ps, r) ==> r in made)
    && (forall q :: q in made && !Covered(ps, q) ==> NodeOk(h, root, ps, made, q, made[q].fields))
  }

  /** While path `p` is being written and its first `i` objects are done. */
  ghost predicate Halfway(h: Heap, root: Val, ps: set<Path>, made: map<Path, Node>, p: Path, i: nat)
    reads set q | q in made :: made[q]
  {
    && Separate(h, made)
    && (forall r :: Passes(ps, r) && !Covered(ps, r) ==> r in made)
    && (forall q :: q in made && !Covered(ps, q) ==>
          NodeOk(h, root, if q < p && |q| < i then ps + {p} else ps, made, q, made[q].fields))
  }

  // ------------------------------------------------------------- writing one path

  lemma SlotElsewhere(h: Heap, root: Val, ps: set<Path>, made: map<Path, Node>, p: Path, r: Path)
    requires !(r <= p)
    ensures Slot(h, root, ps + {p}, made, r) == Slot(h, root, ps, made, r)
  {
    if Passes(ps + {p}, r) {
      var x :| x in ps + {p} && r < x;
      assert x in ps;
    }
    if Passes(ps, r) {
      var x :| x in ps && r < x;
      assert x in ps + {p};
    }
  }

  lemma PassesAbove(ps: set<Path>, q: Path, r: Path)
    requires q <= r && Passes(ps, r)
    ensures Passes(ps, q)
  {
    var x :| x in ps && r < x;
    assert q < x;
  }

  /** An object made at a path that nothing passed through changes no slot, and has none. */
  lemma SlotWithNew(h: Heap, root: Val, ps: set<Path>, made: map<Path, Node>, at: Path, n: Node, r: Path)
    requires r != at || !Passes(ps, at)
    ensures Slot(h, root, ps, made[at := n], r) == Slot(h, root, ps, made, r)
    ensures at < r && !Passes(ps, at) ==> Slot(h, root, ps, made, r) == None
  {
    if at < r && Passes(ps, r) { PassesAbove(ps, at, r); }
  }

  /** Which slot of the object at `q` lies on the path `p`. */
  lemma OnPath(p: Path, q: Path, k: string)
    ensures q + [k] <= p <==> q < p && k == p[|q|]
    ensures q < p && k == p[|q|] ==> q + [k] == p[..|q| + 1]
  {
    if q < p && k == p[|q|] { assert q == p[..|q|]; }
  }

  /** The object at `q` now has the slot on `p` filled; its other slots are as before. */
  lemma NodeDone(h: Heap, root: Val, ps: set<Path>, made: map<Path, Node>, p: Path, q: Path, before: map<string, Val>,
      after: map<string, Val>)
    requires q < p && NodeOk(h, root, ps, made, q, before)
    requires forall k :: k != p[|q|] ==> Get(after, k) == Get(before, k)
    requires Get(after, p[|q|]) == Slot(h, root, ps + {p}, made, p[..|q| + 1])
    ensures NodeOk(h, root, ps + {p}, made, q, after)
  {
    forall k ensures Get(after, k) == Slot(h, root, ps + {p}, made, q + [k]) {
      OnPath(p, q, k);
      if k != p[|q|] { SlotElsewhere(h, root, ps, made, p, q + [k]); }
    }
  }

  /** An object off the path is right for the longer request too. */
  lemma NodeAside(h: Heap, root: Val, ps: set<Path>, made: map<Path, Node>, p: Path, q: Path, fields: map<string, Val>)
    requires !(q < p) && NodeOk(h, root, ps, made, q, fields)
    ensures NodeOk(h, root, ps + {p}, made, q, fields)
  {
    forall k ensures Get(fields, k) == Slot(h, root, ps + {p}, made, q + [k]) {
      OnPath(p, q, k);
      SlotElsewhere(h, root, ps, made, p, q + [k]);
    }
  }

  lemma NodeWithNew(h: Heap, root: Val, ps: set<Path>, made: map<Path, Node>, at: Path, n: Node, q: Path,
      fields: map<string, Val>)
    requires !Passes(ps, at) || !(q < at && |at| == |q| + 1)
    requires NodeOk(h, root, ps, made, q, fields)
    ensures NodeOk(h, root, ps, made[at := n], q, fields)
  {
    forall k ensures Get(fields, k) == Slot(h, root, ps, made[at := n], q + [k]) {
      SlotWithNew(h, root, ps, made, at, n, q + [k]);
    }
  }

  ghost predicate Prefixed(ps: set<Path>, made: map<Path, Node>, p: Path, i: nat) {
    forall r :: r <= p && |r| <= i && !Covered(ps, r) ==> r in made
  }

  lemma CoveredSnoc(ps: set<Path>, q: Path, k: string)
    ensures Covered(ps, q + [k]) <==> Covered(ps, q) || q + [k] in ps
  {
    if Covered(ps, q + [k]) {
      var x :| x in ps && x <= q + [k];
      if x != q + [k] { assert x <= q; }
    }
    if Covered(ps, q) {
      var x :| x in ps && x <= q;
      assert x <= q + [k];
    }
  }

  /** What the slot of the `i`-th object on the path holds before the step. */
  lemma SlotOnPath(h: Heap, root: Val, j: Json, ps: set<Path>, made: map<Path, Node>, p: Path, i: nat)
    requires Rep(h, root, j) && Live(j, p) && i < |p| - 1 && !Covered(ps, p[..i])
    requires forall r :: Passes(ps, r) && !Covered(ps, r) ==> r in made
    ensures var r := p[..i + 1];
            && (r in ps ==> Slot(h, root, ps, made, r) == At(h, root, r) == Slot(h, root, ps + {p}, made, r)
                            && At(h, root, r).Some? && At(h, root, r).value.Ref? && At(h, root, r).value.node in h)
            && (r !in ps && Passes(ps, r) ==> r in made && Slot(h, root, ps, made, r) == Some(Ref(made[r])))
            && (r !in ps && !Passes(ps, r) ==> Slot(h, root, ps, made, r) == None)
            && (r !in ps && r in made ==> Slot(h, root, ps + {p}, made, r) == Some(Ref(made[r])))
            && (Covered(ps, r) <==> r in ps)
  {
    var r := p[..i + 1];
    assert r == p[..i] + [p[i]];
    CoveredSnoc(ps, p[..i], p[i]);
    NodeThrough(h, root, j, p, r);
    assert p in ps + {p} && r < p;
  }

  /** `Halfway`, leaving the object at `at` out of account. */
  ghost predicate HalfwayExcept(h: Heap, root: Val, ps: set<Path>, made: map<Path, Node>, p: Path, i: nat, at: Path)
    reads set q | q in made && q != at :: made[q]
  {
    && Separate(h, made)
    && (forall r :: Passes(ps, r) && !Covered(ps, r) ==> r in made)
    && (forall q :: q in made && q != at && !Covered(ps, q) ==>
          NodeOk(h, root, if q < p && |q| < i then ps + {p} else ps, made, q, made[q].fields))
  }

  /** A new object at a path that nothing passed through fits in. */
  lemma NewFits(h: Heap, root: Val, ps: set<Path>, made: map<Path, Node>, p: Path, i: nat, n: Node)
    requires i < |p| - 1 && HalfwayExcept(h, root, ps, made, p, i, p[..i]) && !Passes(ps, p[..i + 1])
    requires n !in h && n.fields == map[] && forall q :: q in made ==> made[q] != n
    ensures HalfwayExcept(h, root, ps, made[p[..i + 1] := n], p, i, p[..i])
  {
    hide Slot, Passes;
    var at := p[..i + 1];
    var made' := made[at := n];
    forall q | q in made' && q != p[..i] && !Covered(ps, q)
      ensures NodeOk(h, root, if q < p && |q| < i then ps + {p} else ps, made', q, made'[q].fields)
    {
      if q == at {
        forall k ensures Slot(h, root, ps, made', q + [k]) == None {
          SlotWithNew(h, root, ps, made, at, n, q + [k]);
        }
      } else {
        NodeWithNew(h, root, if q < p && |q| < i then ps + {p} else ps, made, at, n, q, made[q].fields);
      }
    }
  }

  /** The `i`-th object on the path gets its slot. */
  lemma Advance(h: Heap, root: Val, ps: set<Path>, made: map<Path, Node>, p: Path, i: nat, before: map<string, Val>)
    requires i < |p| && p[..i] in made && HalfwayExcept(h, root, ps, made, p, i, p[..i])
    requires NodeOk(h, root, ps, made, p[..i], before)
    requires forall k :: k != p[i] ==> Get(made[p[..i]].fields, k) == Get(before, k)
    requires Get(made[p[..i]].fields, p[i]) == Slot(h, root, ps + {p}, made, p[..i + 1])
    ensures Halfway(h, root, ps, made, p, i + 1)
  {
    NodeDone(h, root, ps, made, p, p[..i], before, made[p[..i]].fields);
    forall q | q in made && !Covered(ps, q)
      ensures NodeOk(h, root, if q < p && |q| < i + 1 then ps + {p} else ps, made, q, made[q].fields)
    {
      assert q < p && |q| == i ==> q == p[..i];
    }
  }

  /** Below an object of the document no new object matters. */
  lemma ReachedDocument(h: Heap, root: Val, ps: set<Path>, made: map<Path, Node>, p: Path, i: nat)
    requires i <= |p| && Halfway(h, root, ps, made, p, i) && Covered(ps, p[..i])
    ensures Halfway(h, root, ps, made, p, |p|)
  {
    forall q | q in made && !Covered(ps, q)
      ensures NodeOk(h, root, if q < p && |q| < |p| then ps + {p} else ps, made, q, made[q].fields)
    {
      if q < p && |q| >= i {
        assert p[..i] <= q;
        CoveredBelow(ps, p[..i], q);
      }
    }
  }

  lemma CoveredBelow(ps: set<Path>, q: Path, r: Path)
    requires q <= r && Covered(ps, q)
    ensures Covered(ps, r)
  {
    var x :| x in ps && x <= q;
    assert x <= r;
  }

  lemma CoveredMore(ps: set<Path>, p: Path, q: Path)
    ensures Covered(ps, q) ==> Covered(ps + {p}, q)
  {
    if Covered(ps, q) {
      var x :| x in ps && x <= q;
      assert x in ps + {p};
    }
  }

  /** Once all objects on the path are done, the longer request has its shape. */
  lemma AllDone(h: Heap, root: Val, ps: set<Path>, made: map<Path, Node>, p: Path)
    requires p != [] && Halfway(h, root, ps, made, p, |p|) && Prefixed(ps, made, p, |p| - 1)
    ensures Shaped(h, root, ps + {p}, made)
  {
    forall q | q in made && !Covered(ps + {p}, q) ensures NodeOk(h, root, ps + {p}, made, q, made[q].fields) {
      CoveredMore(ps, p, q);
      if !(q < p) { NodeAside(h, root, ps, made, p, q, made[q].fields); }
    }
    forall r | Passes(ps + {p}, r) && !Covered(ps + {p}, r) ensures r in made {
      var x :| x in ps + {p} && r < x;
      CoveredMore(ps, p, r);
      if x in ps { assert Passes(ps, r); }
    }
  }

  /** One step of the loop: the object under key `s`, made if there is none. */
  method Enter(cur: Node, s: string) returns (next: Node)
    modifies cur
    ensures s in old(cur.fields) && old(cur.fields)[s].Ref? ==>
      next == old(cur.fields)[s].node && cur.fields == old(cur.fields)
    ensures !(s in old(cur.fields) && old(cur.fields)[s].Ref?) ==>
              fresh(next) && next.fields == map[] && cur.fields == old(cur.fields)[s := Ref(next)]
  {
    if s in cur.fields && cur.fields[s].Ref? {
      next := cur.fields[s].node;
    } else {
      next := new Node();
      cur.fields := cur.fields[s := Ref(next)];
    }
  }

  /** The new objects after such a step from the one at p[..i]. */
  ghost function MadeAfter(ps: set<Path>, made: map<Path, Node>, r: Path, next: Node): map<Path, Node> {
    if r in ps || Passes(ps, r) then made else made[r := next]
  }

  lemma EnterResult(h: Heap, root: Val, j: Json, ps: set<Path>, made: map<Path, Node>, p: Path, i: nat,
      before: map<string, Val>, next: Node)
    requires Rep(h, root, j) && Live(j, p) && i < |p| - 1 && !Covered(ps, p[..i]) && p[..i] in made
    requires HalfwayExcept(h, root, ps, made, p, i, p[..i]) && NodeOk(h, root, ps, made, p[..i], before)
    requires if p[i] in before && before[p[i]].Ref? then next == before[p[i]].node && made[p[..i]].fields == before
             else made[p[..i]].fields == before[p[i] := Ref(next)] && next.fields == map[] && next !in h && forall q ::
               q in made ==> made[q] != next
    ensures var r, made' := p[..i + 1], MadeAfter(ps, made, p[..i + 1], next);
            && Halfway(h, root, ps, made', p, i + 1)
            && (r !in ps && !Passes(ps, r) ==> p[i] !in before)
            && (if r in ps then Covered(ps, r) && At(h, root, r) == Some(Ref(next)) && next in h
                else !Covered(ps, r) && r in made' && made'[r] == next)
  {
    hide At, Rep, Live, Slot, HalfwayExcept, Halfway;
    var q, r := p[..i], p[..i + 1];
    assert r == q + [p[i]];
    ExceptParts(h, root, ps, made, p, i, q);
    SlotOnPath(h, root, j, ps, made, p, i);
    assert Get(before, p[i]) == Slot(h, root, ps, made, q + [p[i]]);
    hide NodeOk;
    if r !in ps && !Passes(ps, r) {
      NewFits(h, root, ps, made, p, i, next);
      NodeWithNew(h, root, ps, made, r, next, q, before);
      ExceptParts(h, root, ps, made[r := next], p, i, q);
      SlotOnPath(h, root, j, ps, made[r := next], p, i);
      Advance(h, root, ps, made[r := next], p, i, before);
    } else {
      Advance(h, root, ps, made, p, i, before);
    }
  }

  lemma ExceptParts(h: Heap, root: Val, ps: set<Path>, made: map<Path, Node>, p: Path, i: nat, at: Path)
    requires HalfwayExcept(h, root, ps, made, p, i, at)
    ensures Separate(h, made) && forall r :: Passes(ps, r) && !Covered(ps, r) ==> r in made
  {
  }

  /** Setting the object at `at` aside. */
  lemma SetAside(h: Heap, root: Val, ps: set<Path>, made: map<Path, Node>, p: Path, i: nat, at: Path)
    requires Halfway(h, root, ps, made, p, i)
    ensures Separate(h, made) && HalfwayExcept(h, root, ps, made, p, i, at)
    ensures at in made && !Covered(ps, at) && !(at < p && |at| < i) ==> NodeOk(h, root, ps, made, at, made[at].fields)
  {
  }

  /** `cur` is the object at p[..i]: of the document if `covered`, else a new one. */
  ghost predicate OnTheWay(h: Heap, root: Val, ps: set<Path>, made: map<Path, Node>, p: Path, i: nat, cur: Node,
      covered: bool)
    reads set q | q in made :: made[q]
  {
    && i <= |p| && [] in made
    && Halfway(h, root, ps, made, p, if covered then |p| else i)
    && Prefixed(ps, made, p, i)
    && (if covered then Covered(ps, p[..i]) && At(h, root, p[..i]) == Some(Ref(cur)) && cur in h
        else !Covered(ps, p[..i]) && p[..i] in made && cur == made[p[..i]])
  }

  /** The loop body: one step down the path. */
  method Down(cur: Node, p: Path, i: nat, ghost covered: bool, ghost h: Heap, ghost root: Val, ghost j: Json,
      ghost ps: set<Path>, ghost made: map<Path, Node>)
      returns (next: Node, ghost covered': bool, ghost made': map<Path, Node>)
    requires Holds(h) && Rep(h, root, j) && Live(j, p) && i < |p| - 1
    requires OnTheWay(h, root, ps, made, p, i, cur, covered)
    modifies cur
    ensures Holds(h)
    ensures OnTheWay(h, root, ps, made', p, i + 1, next, covered') && made'[[]] == made[[]]
    ensures made' == made || (fresh(next) && made' == made[p[..i + 1] := next])
  {
    hide Slot, At, Rep, NodeOk, Halfway, HalfwayExcept, Covered, Passes, Prefixed, Live, ValueAt;
    ghost var q, r := p[..i], p[..i + 1];
    assert r == q + [p[i]];
    NodeThrough(h, root, j, p, q);
    NodeThrough(h, root, j, p, r);
    ghost var before := cur.fields;
    SetAside(h, root, ps, made, p, if covered then |p| else i, q);
    next := Enter(cur, p[i]);
    made', covered' := made, true;
    if covered {
      CoveredBelow(ps, q, r);
    } else {
      EnterResult(h, root, j, ps, made, p, i, before, next);
      made', covered' := MadeAfter(ps, made, r, next), r in ps;
      if covered' { ReachedDocument(h, root, ps, made', p, i + 1); }
    }
    PrefixedNext(ps, made, made', p, i);
  }

  /** Writes one path. In the new objects it makes what is missing; once the way
      leads into the document itself, every write stores what is there already. */
  method SetPath(out: Node, p: Path, v: Val, ghost h: Heap, ghost root: Val, ghost j: Json, ghost ps: set<Path>,
      ghost made: map<Path, Node>)
      returns (ghost made': map<Path, Node>)
    requires Holds(h) && Rep(h, root, j)
    requires p != [] && Live(j, p) && At(h, root, p) == Some(v)
    requires Shaped(h, root, ps, made) && made[[]] == out && !Covered(ps, [])
    modifies h.Keys, set q | q in made :: made[q]
    ensures Holds(h)
    ensures Shaped(h, root, ps + {p}, made') && [] in made' && made'[[]] == out
    ensures forall q :: q in made' ==> (q in made && made'[q] == made[q]) || fresh(made'[q])
  {
    made' := made;
    var cur := out;
    ghost var covered := false;
    assert p[..0] == [];
    hide Slot, At, Rep, NodeOk, Halfway, HalfwayExcept, Shaped, Covered, Passes, Prefixed, Live, ValueAt;
    StartPath(h, root, ps, made, p);
    for i := 0 to |p| - 1
      invariant Holds(h)
      invariant OnTheWay(h, root, ps, made', p, i, cur, covered) && made'[[]] == out
      invariant forall q :: q in made' ==> (q in made && made'[q] == made[q]) || fresh(made'[q])
    {
      cur, covered, made' := Down(cur, p, i, covered, h, root, j, ps, made');
    }
    FillLast(cur, p, v, covered, h, root, j, ps, made');
  }

  /** The last write. */
  method FillLast(cur: Node, p: Path, v: Val, ghost covered: bool, ghost h: Heap, ghost root: Val, ghost j: Json,
      ghost ps: set<Path>, ghost made: map<Path, Node>)
    requires Holds(h) && Rep(h, root, j)
    requires p != [] && Live(j, p) && At(h, root, p) == Some(v)
    requires OnTheWay(h, root, ps, made, p, |p| - 1, cur, covered)
    modifies cur
    ensures Holds(h) && Shaped(h, root, ps + {p}, made)
  {
    hide Slot, At, Rep, NodeOk, Halfway, HalfwayExcept, Shaped, Covered, Passes, Prefixed, Live, ValueAt;
    LastWrite(h, root, j, ps, made, p, v, cur, covered);
    SetAside(h, root, ps, made, p, if covered then |p| else |p| - 1, p[..|p| - 1]);
    ghost var before := cur.fields;
    cur.fields := cur.fields[p[|p| - 1] := v];
    assert p[..|p| - 1 + 1] == p;
    if !covered { Advance(h, root, ps, made, p, |p| - 1, before); }
    AllDone(h, root, ps, made, p);
  }

  lemma StartPath(h: Heap, root: Val, ps: set<Path>, made: map<Path, Node>, p: Path)
    requires Shaped(h, root, ps, made)
    requires !Covered(ps, [])
    ensures OnTheWay(h, root, ps, made, p, 0, made[[]], false)
  {
    assert p[..0] == [];
  }

  lemma PrefixedNext(ps: set<Path>, made: map<Path, Node>, made': map<Path, Node>, p: Path, i: nat)
    requires i < |p| && Prefixed(ps, made, p, i) && made.Keys <= made'.Keys
    requires Covered(ps, p[..i + 1]) || p[..i + 1] in made'
    ensures Prefixed(ps, made', p, i + 1)
  {
    forall x | x <= p && |x| <= i + 1 && !Covered(ps, x) ensures x in made' {
      assert |x| == i + 1 ==> x == p[..i + 1];
    }
  }

  /** The last write: into the document it stores what is there; into a new object
      it fills the slot. */
  lemma LastWrite(h: Heap, root: Val, j: Json, ps: set<Path>, made: map<Path, Node>, p: Path, v: Val, cur: Node,
      covered: bool)
    requires Rep(h, root, j) && p != [] && Live(j, p) && At(h, root, p) == Some(v)
    requires covered ==> At(h, root, p[..|p| - 1]) == Some(Ref(cur))
    ensures covered ==> cur in h && h[cur][p[|p| - 1] := v] == h[cur]
    ensures Slot(h, root, ps + {p}, made, p) == Some(v)
  {
    var q := p[..|p| - 1];
    assert p == q + [p[|p| - 1]];
    NodeThrough(h, root, j, p, q);
  }

  // ------------------------------------------------------------------ the result

  /** What the requested paths ask below `q`. */
  function Below(ps: set<Path>, q: Path): set<Path> { set p | p in ps && q <= p :: p[|q|..] }

  lemma TailsBelow(ps: set<Path>, q: Path, k: string)
    ensures Tails(Below(ps, q), k) == Below(ps, q + [k])
    ensures [] in Below(ps, q + [k]) <==> q + [k] in ps
  {
    var r := q + [k];
    forall t | t in Tails(Below(ps, q), k) ensures t in Below(ps, r) {
      var x :| x in Below(ps, q) && x != [] && x[0] == k && x[1..] == t;
      var p :| p in ps && q <= p && p[|q|..] == x;
      assert r <= p && p[|r|..] == t;
    }
    forall t | t in Below(ps, r) ensures t in Tails(Below(ps, q), k) {
      var p :| p in ps && r <= p && p[|r|..] == t;
      var x := p[|q|..];
      assert q <= p && x in Below(ps, q) && x[0] == k && x[1..] == t;
    }
    if [] in Below(ps, r) {
      var p :| p in ps && r <= p && p[|r|..] == [];
      assert p == r;
    }
    if r in ps { assert r[|r|..] == []; }
  }

  /** `full` is the document and the new objects together. */
  ghost predicate Joined(h: Heap, made: map<Path, Node>, full: Heap)
    reads set q | q in made :: made[q]
  {
    && (forall n :: n in h ==> n in full && full[n] == h[n])
    && (forall q :: q in made ==> made[q] in full && full[made[q]] == made[q].fields)
  }

  lemma {:induction false} RepInLarger(h: Heap, full: Heap, v: Val, j: Json)
    requires Rep(h, v, j) && forall n :: n in h ==> n in full && full[n] == h[n]
    ensures Rep(full, v, j)
    decreases j
  {
    if j.Obj? {
      forall k | k in j.fields ensures Rep(full, full[v.node][k], j.fields[k]) {
        RepInLarger(h, full, h[v.node][k], j.fields[k]);
      }
    }
  }

  lemma {:induction false} ValueAtConcat(j: Json, q: Path, t: Path)
    ensures ValueAt(j, q + t) == ValueAt(ValueAt(j, q), t)
    decreases q
  {
    if q == [] {
      assert q + t == t;
    } else if j.Obj? && q[0] in j.fields {
      assert (q + t)[1..] == q[1..] + t;
      ValueAtConcat(j.fields[q[0]], q[1..], t);
    } else {
      NullIsDead(t);
    }
  }

  /** A key of the restricted document, by the kind of slot it has. */
  lemma RestrictedSlot(j: Json, ps: set<Path>, q: Path, k: string)
    requires LivePaths(j, ps) && ValueAt(j, q).Obj?
    ensures var d, r := ValueAt(j, q), q + [k];
            Get(Restricted(d, Below(ps, q)).fields, k) ==
              if r in ps then Some(ValueAt(j, r))
              else if Passes(ps, r) then Some(Restricted(ValueAt(j, r), Below(ps, r)))
              else None
    ensures Passes(ps, q + [k]) ==> ValueAt(j, q + [k]).Obj?
    ensures q + [k] in ps || Passes(ps, q + [k]) ==> k in ValueAt(j, q).fields
  {
    var d, r := ValueAt(j, q), q + [k];
    RestrictedAt(d, Below(ps, q), k);
    TailsBelow(ps, q, k);
    ValueAtSnoc(j, q, k);
    hide Restricted, Tails, Below, ValueAt;
    if Passes(ps, r) { PassesBelow(j, ps, r); }
    if k in d.fields {
      NothingBelow(ps, r);
      if r in ps { assert Live(d.fields[k], []); }
    }
  }

  lemma PassesBelow(j: Json, ps: set<Path>, r: Path)
    requires LivePaths(j, ps) && Passes(ps, r)
    ensures ValueAt(j, r).Obj? && exists t :: t in Below(ps, r) && Live(ValueAt(j, r), t)
  {
    var p :| p in ps && r < p;
    LiveThrough(j, p, r);
    var t := p[|r|..];
    assert t in Below(ps, r);
    assert p == r + t;
    ValueAtConcat(j, r, t);
  }

  lemma NothingBelow(ps: set<Path>, r: Path)
    ensures Below(ps, r) != {} ==> r in ps || Passes(ps, r)
    ensures r !in ps && !Passes(ps, r) ==> Below(ps, r) == {}
  {
    forall t | t in Below(ps, r) ensures r in ps || Passes(ps, r) {
      var p :| p in ps && r <= p && p[|r|..] == t;
      assert r == p || r < p;
    }
  }

  /** Object by object, the new objects are the restricted document. */
  lemma {:induction false} ShapedIsRestricted(h: Heap, root: Val, j: Json, ps: set<Path>, made: map<Path, Node>,
      full: Heap, q: Path)
    requires Rep(h, root, j) && LivePaths(j, ps) && Shaped(h, root, ps, made) && Joined(h, made, full)
    requires q in made && !Covered(ps, q) && ValueAt(j, q).Obj?
    ensures Rep(full, Ref(made[q]), Restricted(ValueAt(j, q), Below(ps, q)))
    decreases ValueAt(j, q)
  {
    var m := Restricted(ValueAt(j, q), Below(ps, q)).fields;
    var fields := made[q].fields;
    forall k ensures k in fields <==> k in m
      ensures k in fields ==> Rep(full, fields[k], m[k])
    {
      var r := q + [k];
      assert Get(fields, k) == Slot(h, root, ps, made, r);
      RestrictedSlot(j, ps, q, k);
      CoveredSnoc(ps, q, k);
      ValueAtSnoc(j, q, k);
      if r in ps {
        RepAt(h, root, j, r);
        RepInLarger(h, full, At(h, root, r).value, ValueAt(j, r));
      } else if Passes(ps, r) {
        ShapedIsRestricted(h, root, j, ps, made, full, r);
      }
    }
  }

  function LiveOnes(j: Json, ps: set<Path>): set<Path> { set p | p in ps && Live(j, p) }

  /** Paths to nothing do not matter. */
  lemma {:induction false} OnlyLiveMatter(j: Json, ps: set<Path>)
    ensures Restricted(j, LiveOnes(j, ps)) == Restricted(j, ps)
    decreases j
  {
    if j.Obj? {
      var live := LiveOnes(j, ps);
      var a, b := Restricted(j, live).fields, Restricted(j, ps).fields;
      forall k ensures Get(a, k) == Get(b, k) {
        RestrictedAt(j, live, k);
        RestrictedAt(j, ps, k);
        if k in j.fields {
          var v, ts := j.fields[k], Tails(ps, k);
          LiveTails(j, ps, k);
          OnlyLiveMatter(v, ts);
        }
      }
      SameLookups(a, b);
    }
  }

  lemma LiveTails(j: Json, ps: set<Path>, k: string)
    requires j.Obj? && k in j.fields
    ensures Tails(LiveOnes(j, ps), k) == LiveOnes(j.fields[k], Tails(ps, k))
  {
    forall t | t in Tails(ps, k) && Live(j.fields[k], t) ensures t in Tails(LiveOnes(j, ps), k) {
      TailOrigin(ps, k, t);
      assert ([k] + t)[1..] == t && Live(j, [k] + t);
    }
  }

  lemma EmptyShape(h: Heap, root: Val, out: Node)
    requires out !in h && out.fields == map[]
    ensures Shaped(h, root, {}, map[[] := out])
  {
  }

  lemma NothingLive(j: Json)
    ensures LiveOnes(j, Requested([])) == {}
  {
  }

  lemma RequestedSnoc(specs: seq<string>, i: nat)
    requires i < |specs|
    ensures Requested(specs[..i + 1]) == Requested(specs[..i]) + (if Trim(specs[i]) == "" then {}
      else {Segments(Trim(specs[i]))})
  {
    assert specs[..i + 1] == specs[..i] + [specs[i]];
  }

  lemma LiveSnoc(j: Json, ps: set<Path>, p: Path)
    ensures LiveOnes(j, ps + {p}) == LiveOnes(j, ps) + (if Live(j, p) then {p} else {})
  {
  }

  lemma RootUncovered(j: Json, specs: seq<string>)
    ensures !Covered(LiveOnes(j, Requested(specs)), []) && LivePaths(j, LiveOnes(j, Requested(specs)))
  {
    RequestedPathsNonEmpty(specs);
  }

  lemma Finish(h: Heap, root: Val, j: Json, specs: seq<string>, made: map<Path, Node>, full: Heap)
    requires Rep(h, root, j) && j.Obj? && Shaped(h, root, LiveOnes(j, Requested(specs)), made) && Joined(h, made, full)
    ensures Rep(full, Ref(made[[]]), Restricted(j, Requested(specs)))
  {
    var ps := LiveOnes(j, Requested(specs));
    RootUncovered(j, specs);
    ShapedIsRestricted(h, root, j, ps, made, full, []);
    assert Below(ps, []) == ps by {
      forall p: Path ensures p[0..] == p {}
    }
    OnlyLiveMatter(j, Requested(specs));
  }

  /** The projection in place: the result is the sub-document at the requested
      paths, and the document, though written to, is what it was. */
  method ProjectFields(doc: Node, specs: seq<string>, ghost h: Heap, ghost j: Json)
      returns (out: Node, ghost full: Heap)
    requires Holds(h) && Rep(h, Ref(doc), j) && j.Obj?
    modifies h.Keys
    ensures Holds(h) && Holds(full)
    ensures Rep(full, Ref(out), Restricted(j, Requested(specs)))
    ensures fresh(out)
  {
    hide Trim, Requested, Segments, Rep, At, Restricted, Slot, Live, Passes, Covered, NodeOk, Separate;
    ghost var root := Ref(doc);
    out := new Node();
    ghost var made: map<Path, Node> := map[[] := out];
    ghost var ps: set<Path> := {};
    EmptyShape(h, root, out);
    assert specs[..0] == [];
    NothingLive(j);
    hide Shaped, LivePaths, LiveOnes;
    for i := 0 to |specs|
      invariant Holds(h) && Shaped(h, root, ps, made) && [] in made && made[[]] == out
      invariant forall q :: q in made ==> fresh(made[q])
      invariant ps == LiveOnes(j, Requested(specs[..i]))
    {
      RequestedSnoc(specs, i);
      var p := Trim(specs[i]);
      if p == "" {
        continue;
      }
      var v := Walk(Ref(doc), Segments(p), h, j);
      LiveSnoc(j, Requested(specs[..i]), Segments(p));
      if v != Scalar(Null) {
        RootUncovered(j, specs[..i]);
        made := SetPath(out, Segments(p), v, h, root, j, ps, made);
        ps := ps + {Segments(p)};
      }
    }
    assert specs[..|specs|] == specs;
    full := h + map n | n in made.Values :: n.fields;
    Finish(h, root, j, specs, made, full);
  }
}
