/** Storage cleanup of svc-vision: retention, then oldest-first eviction against a
    byte limit (services/svc-vision/internal/storage/service.go). The WebDAV and the
    MinIO pass are the same algorithm. */
module Cleanup {
  import opened Prelude

  /** A remote file; an unknown modification time counts as oldest. */
  datatype File = File(path: string, size: nat, modTime: Option<int>)

  const PROTECT_WINDOW: int := 600_000_000_000

  predicate Protected(f: File, now: int) { f.modTime.Some? && now - f.modTime.value <= PROTECT_WINDOW }

  predicate PastRetention(f: File, cutoff: int) { f.modTime.Some? && f.modTime.value < cutoff }

  predicate Older(a: File, b: File) {
    match (a.modTime, b.modTime)
    case (_, None) => false
    case (None, Some(_)) => true
    case (Some(x), Some(y)) => x < y
  }

  function TotalSize(files: seq<File>): nat {
    if files == [] then 0 else TotalSize(files[..|files| - 1]) + files[|files| - 1].size
  }

  ghost predicate UniquePaths(files: seq<File>) {
    forall i, j :: 0 <= i < j < |files| ==> files[i].path != files[j].path
  }

  ghost function Paths(files: seq<File>): set<string> { set f | f in files :: f.path }

  lemma PathsSnoc(files: seq<File>, f: File)
    ensures Paths(files + [f]) == Paths(files) + {f.path}
  {
    forall p | p in Paths(files) + {f.path} ensures p in Paths(files + [f]) {
      if p == f.path {
        assert f in files + [f];
      } else {
        var g :| g in files && g.path == p;
        assert g in files + [f];
      }
    }
  }

  // ------------------------------------------------------------- oldest first

  ghost predicate OldestFirst(files: seq<File>) {
    forall i, j :: 0 <= i < j < |files| ==> !Older(files[j], files[i])
  }

  function Insert(sorted: seq<File>, f: File): seq<File> {
    if sorted == [] then [f]
    else if Older(f, sorted[|sorted| - 1]) then Insert(sorted[..|sorted| - 1], f) + [sorted[|sorted| - 1]]
    else sorted + [f]
  }

  /** The stable sort by modification time. */
  function Sorted(files: seq<File>): seq<File> {
    if files == [] then [] else Insert(Sorted(files[..|files| - 1]), files[|files| - 1])
  }

  lemma {:induction false} InsertAdds(sorted: seq<File>, f: File)
    ensures |Insert(sorted, f)| == |sorted| + 1
    ensures forall g :: g in Insert(sorted, f) <==> g in sorted || g == f
  {
    if sorted != [] {
      var n := |sorted| - 1;
      InsertAdds(sorted[..n], f);
      assert sorted == sorted[..n] + [sorted[n]];
    }
  }

  lemma {:induction false} InsertKeepsOrder(sorted: seq<File>, f: File)
    requires OldestFirst(sorted)
    ensures OldestFirst(Insert(sorted, f))
  {
    if sorted != [] {
      var n := |sorted| - 1;
      if Older(f, sorted[n]) {
        InsertKeepsOrder(sorted[..n], f);
        InsertAdds(sorted[..n], f);
        var r := Insert(sorted[..n], f);
        forall g | g in r ensures !Older(sorted[n], g) {
          if g != f { var k :| 0 <= k < n && sorted[k] == g; }
        }
        assert forall i :: 0 <= i < |r| ==> r[i] in r;
      } else {
        forall i | 0 <= i < |sorted| ensures !Older(f, sorted[i]) {
          assert i < n ==> !Older(sorted[n], sorted[i]);
        }
      }
    }
  }

  lemma {:induction false} InsertKeepsUnique(sorted: seq<File>, f: File)
    requires UniquePaths(sorted) && forall g :: g in sorted ==> g.path != f.path
    ensures UniquePaths(Insert(sorted, f))
  {
    if sorted != [] {
      var n := |sorted| - 1;
      assert sorted[n] in sorted;
      if Older(f, sorted[n]) {
        InsertKeepsUnique(sorted[..n], f);
        InsertAdds(sorted[..n], f);
        var r := Insert(sorted[..n], f);
        forall g | g in r ensures g.path != sorted[n].path {
          if g != f { var k :| 0 <= k < n && sorted[k] == g; }
        }
        assert forall i :: 0 <= i < |r| ==> r[i] in r;
      }
    }
  }

  /** Sorting orders the files and neither loses, adds nor repeats one. */
  lemma {:induction false} SortedIsSort(files: seq<File>)
    requires UniquePaths(files)
    ensures OldestFirst(Sorted(files)) && UniquePaths(Sorted(files)) && |Sorted(files)| == |files|
    ensures forall f :: f in Sorted(files) <==> f in files
  {
    if files != [] {
      var n := |files| - 1;
      SortedIsSort(files[..n]);
      assert files == files[..n] + [files[n]];
      forall g | g in files[..n] ensures g.path != files[n].path {
        var i :| 0 <= i < n && files[i] == g;
      }
      InsertAdds(Sorted(files[..n]), files[n]);
      InsertKeepsOrder(Sorted(files[..n]), files[n]);
      InsertKeepsUnique(Sorted(files[..n]), files[n]);
    }
  }

  ghost predicate Precedes(s: seq<File>, f: File, g: File) {
    exists i, j :: 0 <= i < j < |s| && s[i] == f && s[j] == g
  }

  lemma {:induction false} InsertKeepsPrecedence(sorted: seq<File>, x: File, f: File, g: File)
    requires Precedes(sorted, f, g)
    ensures Precedes(Insert(sorted, x), f, g)
  {
    var n := |sorted| - 1;
    var i, j :| 0 <= i < j <= n && sorted[i] == f && sorted[j] == g;
    var r := Insert(sorted, x);
    if Older(x, sorted[n]) {
      if j < n {
        assert sorted[..n][i] == f && sorted[..n][j] == g;
        InsertKeepsPrecedence(sorted[..n], x, f, g);
        var a, b :| 0 <= a < b < |r| - 1 && Insert(sorted[..n], x)[a] == f && Insert(sorted[..n], x)[b] == g;
        assert r[a] == f && r[b] == g;
      } else {
        InsertAdds(sorted[..n], x);
        assert f in sorted[..n] by { assert sorted[..n][i] == f; }
        var a :| 0 <= a < |r| - 1 && Insert(sorted[..n], x)[a] == f;
        assert r[a] == f && r[|r| - 1] == g;
      }
    } else {
      assert r[i] == f && r[j] == g;
    }
  }

  lemma {:induction false} InsertGoesAfter(sorted: seq<File>, x: File, f: File)
    requires f in sorted && !Older(x, f)
    ensures Precedes(Insert(sorted, x), f, x)
  {
    var n := |sorted| - 1;
    var i :| 0 <= i <= n && sorted[i] == f;
    var r := Insert(sorted, x);
    if Older(x, sorted[n]) {
      assert f in sorted[..n] by { assert sorted[..n][i] == f; }
      InsertGoesAfter(sorted[..n], x, f);
      InsertAdds(sorted[..n], x);
      var a, b :| 0 <= a < b < |r| - 1 && Insert(sorted[..n], x)[a] == f && Insert(sorted[..n], x)[b] == x;
      assert r[a] == f && r[b] == x;
    } else {
      assert r[i] == f && r[n + 1] == x;
    }
  }

  /** The sort is stable: a file stays before a later one that is not older. */
  lemma {:induction false} SortedIsStable(files: seq<File>, f: File, g: File)
    requires UniquePaths(files) && Precedes(files, f, g) && !Older(g, f)
    ensures Precedes(Sorted(files), f, g)
  {
    hide *;
    var n := |files| - 1;
    LastOrBefore(files, f, g);
    SortedSnoc(files);
    if Precedes(files[..n], f, g) {
      SortedIsStable(files[..n], f, g);
      InsertKeepsPrecedence(Sorted(files[..n]), files[n], f, g);
    } else {
      SortedIsSort(files[..n]);
      InsertGoesAfter(Sorted(files[..n]), g, f);
    }
  }

  lemma LastOrBefore(files: seq<File>, f: File, g: File)
    requires UniquePaths(files) && Precedes(files, f, g)
    ensures files != []
    ensures var n := |files| - 1;
            && UniquePaths(files[..n])
            && (Precedes(files[..n], f, g) || (g == files[n] && f in files[..n]))
  {
    var n := |files| - 1;
    var i, j :| 0 <= i < j <= n && files[i] == f && files[j] == g;
    assert files[..n][i] == f;
    if j < n { assert files[..n][j] == g; }
  }

  lemma SortedSnoc(files: seq<File>)
    requires files != []
    ensures Sorted(files) == Insert(Sorted(files[..|files| - 1]), files[|files| - 1])
  {}

  lemma SamePathSameFile(files: seq<File>, f: File, g: File)
    requires UniquePaths(files) && f in files && g in files && f.path == g.path
    ensures f == g
  {
    var i :| 0 <= i < |files| && files[i] == f;
    var j :| 0 <= j < |files| && files[j] == g;
    assert i == j;
  }

  lemma {:induction false} TotalSizeConcat(a: seq<File>, b: seq<File>)
    ensures TotalSize(a + b) == TotalSize(a) + TotalSize(b)
  {
    if b == [] {
      assert a + b == a;
    } else {
      assert (a + b)[..|a + b| - 1] == a + b[..|b| - 1];
      TotalSizeConcat(a, b[..|b| - 1]);
    }
  }

  /** Distinct files among others are no larger than those together. */
  lemma {:induction false} PartIsSmaller(part: seq<File>, files: seq<File>)
    requires UniquePaths(part) && forall f :: f in part ==> f in files
    ensures TotalSize(part) <= TotalSize(files)
  {
    if part != [] {
      var n := |part| - 1;
      assert part[n] in part;
      var k :| 0 <= k < |files| && files[k] == part[n];
      var rest := files[..k] + files[k + 1..];
      assert files == files[..k] + [files[k]] + files[k + 1..];
      TotalSizeConcat(files[..k] + [files[k]], files[k + 1..]);
      TotalSizeConcat(files[..k], files[k + 1..]);
      assert (files[..k] + [files[k]])[..k] == files[..k];
      forall f | f in part[..n] ensures f in rest {
        var i :| 0 <= i < n && part[i] == f;
        assert f in files && f != files[k];
      }
      PartIsSmaller(part[..n], rest);
    }
  }

  // ------------------------------------------------------------------ the pass

  /** What a pass did: files removed by age, files removed for space (in order),
      and the bytes it counts as freed. */
  datatype Report = Report(expired: seq<File>, evicted: seq<File>, released: nat)

  /** The files that retention removes. */
  function Expiring(files: seq<File>, now: int, cutoff: int, canDelete: string -> bool): seq<File> {
    if files == [] then []
    else
      var n := |files| - 1;
      var f, before := files[n], Expiring(files[..n], now, cutoff, canDelete);
      if PastRetention(f, cutoff) && !Protected(f, now) && canDelete(f.path) then before + [f] else before
  }

  lemma {:induction false} ExpiringAmong(files: seq<File>, now: int, cutoff: int, canDelete: string -> bool)
    requires UniquePaths(files)
    ensures UniquePaths(Expiring(files, now, cutoff, canDelete))
    ensures forall f :: f in Expiring(files, now, cutoff, canDelete) ==> f in files
  {
    if files != [] {
      var n := |files| - 1;
      ExpiringAmong(files[..n], now, cutoff, canDelete);
      assert files == files[..n] + [files[n]];
      forall g | g in files[..n] ensures g.path != files[n].path {
        var i :| 0 <= i < n && files[i] == g;
      }
    }
  }

  ghost predicate MayGo(f: File, expired: seq<File>, now: int, canEvict: string -> bool) {
    f !in expired && !Protected(f, now) && canEvict(f.path)
  }

  /** What eviction guarantees, started with `expired` already removed. */
  ghost predicate EvictsOldestFirst(files: seq<File>, expired: seq<File>, evicted: seq<File>, now: int, limit: nat,
      canEvict: string -> bool) {
    // only unprotected files that are still there, oldest first, each while over the limit
    && (forall f :: f in evicted ==> f in files && MayGo(f, expired, now, canEvict))
    && OldestFirst(evicted) && UniquePaths(evicted)
    && (forall i :: 0 <= i < |evicted| ==> TotalSize(files) - TotalSize(expired) - TotalSize(evicted[..i]) > limit)
    // an older file that may go goes first
    && (forall f, g :: f in evicted && g in files && Older(g, f) && MayGo(g, expired, now, canEvict) ==> g in evicted)
    // in the end within the limit, or nothing else may go
    && (|| TotalSize(files) - TotalSize(expired) - TotalSize(evicted) <= limit
        || forall f :: f in files && MayGo(f, expired, now, canEvict) ==> f in evicted)
  }

  /** What has been evicted when the loop stands before position `i` of the sorted files. */
  ghost predicate EvictedUpTo(sorted: seq<File>, i: nat, expired: seq<File>, evicted: seq<File>, now: int, limit: nat,
      budget: int, canEvict: string -> bool)
    requires i <= |sorted|
  {
    && (forall f :: f in evicted ==> f in sorted[..i] && MayGo(f, expired, now, canEvict))
    && OldestFirst(evicted) && UniquePaths(evicted)
    && (forall k :: 0 <= k < |evicted| ==> budget - TotalSize(evicted[..k]) > limit)
    && (forall k :: 0 <= k < i && MayGo(sorted[k], expired, now, canEvict) ==> sorted[k] in evicted)
  }

  /** The eviction loop over the sorted files. */
  method Evict(files: seq<File>, ghost expired: seq<File>, gone: set<string>, remaining0: int, now: int, limit: nat,
      canEvict: string -> bool)
      returns (evicted: seq<File>, freed: nat)
    requires UniquePaths(files) && (forall f :: f in expired ==> f in files) && gone == Paths(expired)
    requires remaining0 == TotalSize(files) - TotalSize(expired)
    ensures EvictsOldestFirst(files, expired, evicted, now, limit, canEvict)
    ensures freed == TotalSize(evicted)
  {
    hide Sorted, OldestFirst, UniquePaths, Paths, TotalSize, Protected, EvictsOldestFirst, EvictedUpTo;
    var sorted := Sorted(files);
    SortedIsSort(files);
    evicted, freed := [], 0;
    NothingEvicted(sorted, expired, now, limit, remaining0, canEvict);
    var remaining := remaining0;
    var i := 0;
    while i < |sorted| && remaining > limit
      invariant 0 <= i <= |sorted|
      invariant freed == TotalSize(evicted) && remaining == remaining0 - freed
      invariant EvictedUpTo(sorted, i, expired, evicted, now, limit, remaining0, canEvict)
    {
      var f := sorted[i];
      GoneIffExpired(files, expired, f);
      if f.path !in gone && !Protected(f, now) && canEvict(f.path) {
        EvictNext(sorted, i, expired, evicted, now, limit, remaining0, canEvict);
        remaining, freed := remaining - f.size, freed + f.size;
        evicted := evicted + [f];
      } else {
        SkipNext(sorted, i, expired, evicted, now, limit, remaining0, canEvict);
      }
      i := i + 1;
    }
    EvictionDone(files, sorted, i, expired, evicted, now, limit, canEvict);
  }

  lemma NothingEvicted(sorted: seq<File>, expired: seq<File>, now: int, limit: nat, budget: int,
      canEvict: string -> bool)
    ensures EvictedUpTo(sorted, 0, expired, [], now, limit, budget, canEvict) && TotalSize([]) == 0
  {}

  lemma EvictNext(sorted: seq<File>, i: nat, expired: seq<File>, evicted: seq<File>, now: int, limit: nat, budget: int,
      canEvict: string -> bool)
    requires i < |sorted| && OldestFirst(sorted) && UniquePaths(sorted)
    requires EvictedUpTo(sorted, i, expired, evicted, now, limit, budget, canEvict)
    requires MayGo(sorted[i], expired, now, canEvict) && budget - TotalSize(evicted) > limit
    ensures EvictedUpTo(sorted, i + 1, expired, evicted + [sorted[i]], now, limit, budget, canEvict)
    ensures TotalSize(evicted + [sorted[i]]) == TotalSize(evicted) + sorted[i].size
  {
    hide MayGo, Older, OldestFirst, UniquePaths, TotalSize;
    ExtendEvicted(sorted, i, evicted, budget, limit);
    OneMoreScanned(sorted, i, expired, evicted, now, canEvict);
  }

  lemma OneMoreScanned(sorted: seq<File>, i: nat, expired: seq<File>, evicted: seq<File>, now: int,
      canEvict: string -> bool)
    requires i < |sorted| && MayGo(sorted[i], expired, now, canEvict)
    requires forall f :: f in evicted ==> f in sorted[..i] && MayGo(f, expired, now, canEvict)
    requires forall k :: 0 <= k < i && MayGo(sorted[k], expired, now, canEvict) ==> sorted[k] in evicted
    ensures var evicted' := evicted + [sorted[i]];
            && (forall f :: f in evicted' ==> f in sorted[..i + 1] && MayGo(f, expired, now, canEvict))
            && (forall k :: 0 <= k < i + 1 && MayGo(sorted[k], expired, now, canEvict) ==> sorted[k] in evicted')
  {
    hide MayGo;
    assert sorted[..i + 1] == sorted[..i] + [sorted[i]];
  }

  lemma SkipNext(sorted: seq<File>, i: nat, expired: seq<File>, evicted: seq<File>, now: int, limit: nat, budget: int,
      canEvict: string -> bool)
    requires i < |sorted| && EvictedUpTo(sorted, i, expired, evicted, now, limit, budget, canEvict)
    requires !MayGo(sorted[i], expired, now, canEvict)
    ensures EvictedUpTo(sorted, i + 1, expired, evicted, now, limit, budget, canEvict)
  {
    hide MayGo, OldestFirst, UniquePaths, TotalSize;
    assert sorted[..i + 1] == sorted[..i] + [sorted[i]];
  }

  /** A path is gone exactly when its file is. */
  lemma GoneIffExpired(files: seq<File>, expired: seq<File>, f: File)
    requires UniquePaths(files) && f in files && forall g :: g in expired ==> g in files
    ensures f.path in Paths(expired) <==> f in expired
  {
    if f.path in Paths(expired) {
      var g :| g in expired && g.path == f.path;
      SamePathSameFile(files, f, g);
    }
  }

  /** What holds when the eviction loop stops before position `i` of the sorted files. */
  lemma EvictionDone(files: seq<File>, sorted: seq<File>, i: nat, expired: seq<File>, evicted: seq<File>, now: int,
      limit: nat, canEvict: string -> bool)
    requires OldestFirst(sorted) && i <= |sorted| && forall f :: f in sorted <==> f in files
    requires EvictedUpTo(sorted, i, expired, evicted, now, limit, TotalSize(files) - TotalSize(expired), canEvict)
    requires i == |sorted| || TotalSize(files) - TotalSize(expired) - TotalSize(evicted) <= limit
    ensures EvictsOldestFirst(files, expired, evicted, now, limit, canEvict)
  {
    forall f, g | f in evicted && g in files && Older(g, f) && MayGo(g, expired, now, canEvict) ensures g in evicted {
      var a :| 0 <= a < i && sorted[a] == f;
      var b :| 0 <= b < |sorted| && sorted[b] == g;
      assert b < a;
    }
    assert forall f :: f in evicted ==> f in sorted;
    if i == |sorted| {
      forall f | f in files && MayGo(f, expired, now, canEvict) ensures f in evicted {
        var k :| 0 <= k < |sorted| && sorted[k] == f;
      }
    }
  }

  lemma ExtendEvicted(sorted: seq<File>, i: nat, evicted: seq<File>, budget: int, limit: nat)
    requires i < |sorted| && OldestFirst(sorted) && UniquePaths(sorted)
    requires OldestFirst(evicted) && UniquePaths(evicted) && forall f :: f in evicted ==> f in sorted[..i]
    requires budget - TotalSize(evicted) > limit
    requires forall k :: 0 <= k < |evicted| ==> budget - TotalSize(evicted[..k]) > limit
    ensures OldestFirst(evicted + [sorted[i]]) && UniquePaths(evicted + [sorted[i]])
    ensures TotalSize(evicted + [sorted[i]]) == TotalSize(evicted) + sorted[i].size
    ensures forall k :: 0 <= k < |evicted| + 1 ==> budget - TotalSize((evicted + [sorted[i]])[..k]) > limit
  {
    hide TotalSize, Older;
    OneFile(sorted[i]);
    TotalSizeConcat(evicted, [sorted[i]]);
    LaterInOrder(sorted, i, evicted);
    AppendKeeps(evicted, sorted[i]);
    forall k | 0 <= k < |evicted| + 1 ensures budget - TotalSize((evicted + [sorted[i]])[..k]) > limit {
      assert (evicted + [sorted[i]])[..k] == evicted[..k];
      assert evicted[..|evicted|] == evicted;
    }
  }

  lemma OneFile(f: File)
    ensures TotalSize([f]) == f.size
  {
    assert [f][..0] == [];
  }

  lemma LaterInOrder(sorted: seq<File>, i: nat, part: seq<File>)
    requires i < |sorted| && OldestFirst(sorted) && UniquePaths(sorted) && forall f :: f in part ==> f in sorted[..i]
    ensures forall f :: f in part ==> !Older(sorted[i], f) && f.path != sorted[i].path
  {
    forall f | f in part ensures !Older(sorted[i], f) && f.path != sorted[i].path {
      var k :| 0 <= k < i && sorted[k] == f;
    }
  }

  lemma AppendKeeps(part: seq<File>, f: File)
    requires OldestFirst(part) && UniquePaths(part) && forall e :: e in part ==> !Older(f, e) && e.path != f.path
    ensures OldestFirst(part + [f]) && UniquePaths(part + [f])
  {
  }

  /** `cutoff` and `limit` are absent when the respective setting is off; the two
      oracles say which deletions succeed in either phase. */
  method CleanUp(files: seq<File>, now: int, cutoff: Option<int>, limit: Option<nat>, canExpire: string -> bool,
      canEvict: string -> bool)
      returns (r: Report)
    requires UniquePaths(files)
    ensures r.expired == if cutoff.Some? then Expiring(files, now, cutoff.value, canExpire) else []
    ensures limit.None? ==> r.evicted == []
    ensures limit.Some? ==> EvictsOldestFirst(files, r.expired, r.evicted, now, limit.value, canEvict)
    ensures r.released == TotalSize(r.expired) + TotalSize(r.evicted) <= TotalSize(files)
  {
    var expired: seq<File>, released: nat, gone: set<string> := [], 0, {};
    if cutoff.Some? {
      expired, released, gone := ExpireOld(files, now, cutoff.value, canExpire);
    }
    var evicted: seq<File> := [];
    if limit.Some? {
      var total := SumSizes(files);
      if total - released > limit.value {
        var freed;
        evicted, freed := Evict(files, expired, gone, total - released, now, limit.value, canEvict);
        released := released + freed;
      }
    }
    assert forall f :: f in evicted ==> f in files && f !in expired;
    FreedIsPart(files, expired, evicted);
    r := Report(expired, evicted, released);
  }

  /** The retention loop. */
  method ExpireOld(files: seq<File>, now: int, cutoff: int, canDelete: string -> bool)
      returns (expired: seq<File>, released: nat, gone: set<string>)
    requires UniquePaths(files)
    ensures expired == Expiring(files, now, cutoff, canDelete) && released == TotalSize(expired)
    ensures gone == Paths(expired)
    ensures UniquePaths(expired) && forall f :: f in expired ==> f in files
  {
    expired, released, gone := [], 0, {};
    for i := 0 to |files|
      invariant expired == Expiring(files[..i], now, cutoff, canDelete)
      invariant released == TotalSize(expired)
      invariant gone == Paths(expired)
    {
      assert files[..i + 1][..i] == files[..i];
      var f := files[i];
      if PastRetention(f, cutoff) && !Protected(f, now) {
        if canDelete(f.path) {
          TotalSizeConcat(expired, [f]);
          PathsSnoc(expired, f);
          released, gone := released + f.size, gone + {f.path};
          expired := expired + [f];
        }
      }
    }
    assert files[..|files|] == files;
    ExpiringAmong(files, now, cutoff, canDelete);
  }

  lemma FreedIsPart(files: seq<File>, expired: seq<File>, evicted: seq<File>)
    requires UniquePaths(files) && UniquePaths(expired) && UniquePaths(evicted)
    requires forall f :: f in expired ==> f in files
    requires forall f :: f in evicted ==> f in files && f !in expired
    ensures TotalSize(expired) + TotalSize(evicted) <= TotalSize(files)
  {
    TotalSizeConcat(expired, evicted);
    forall f, g | f in expired && g in evicted ensures f.path != g.path {
      if f.path == g.path { SamePathSameFile(files, f, g); }
    }
    assert forall i :: 0 <= i < |expired| ==> expired[i] in expired;
    assert forall i :: 0 <= i < |evicted| ==> evicted[i] in evicted;
    PartIsSmaller(expired + evicted, files);
  }

  method SumSizes(files: seq<File>) returns (total: nat)
    ensures total == TotalSize(files)
  {
    total := 0;
    for i := 0 to |files|
      invariant total == TotalSize(files[..i])
    {
      assert files[..i + 1][..i] == files[..i];
      total := total + files[i].size;
    }
    assert files[..|files|] == files;
  }

  /** Nothing in the protect window is ever deleted. */
  lemma {:induction false} ExpiringSparesProtected(files: seq<File>, now: int, cutoff: int, canDelete: string -> bool)
    ensures forall f :: f in Expiring(files, now, cutoff, canDelete) ==>
      !Protected(f, now) && PastRetention(f, cutoff) && canDelete(f.path)
    ensures forall f :: f in files && PastRetention(f, cutoff) && !Protected(f, now) && canDelete(f.path) ==>
      f in Expiring(files, now, cutoff, canDelete)
  {
    if files != [] {
      var n := |files| - 1;
      ExpiringSparesProtected(files[..n], now, cutoff, canDelete);
      assert files == files[..n] + [files[n]];
    }
  }

  /** Spelt out: retention removes exactly the deletable files of known time before the
      cutoff and more than ten minutes old. */
  lemma ExpiresExactly(files: seq<File>, now: int, cutoff: int, canDelete: string -> bool, f: File)
    ensures f in Expiring(files, now, cutoff, canDelete) <==>
              && f in files && canDelete(f.path)
              && f.modTime.Some? && f.modTime.value < cutoff && now - f.modTime.value > 600_000_000_000
  {
    ExpiringSparesProtected(files, now, cutoff, canDelete);
  }

  /** Spelt out: eviction takes only files not yet gone that are of unknown time or more
      than ten minutes old; one of those changed before an evicted file, or of unknown
      time while the evicted one's is known, is evicted too; and it stops at the limit. */
  lemma EvictedMeans(files: seq<File>, expired: seq<File>, evicted: seq<File>, now: int, limit: nat,
      canEvict: string -> bool, f: File, g: File)
    requires EvictsOldestFirst(files, expired, evicted, now, limit, canEvict) && f in evicted
    ensures f in files && f !in expired && canEvict(f.path)
    ensures f.modTime.Some? ==> now - f.modTime.value > 600_000_000_000
    ensures g in files && g !in expired && canEvict(g.path)
            && (g.modTime.Some? ==> now - g.modTime.value > 600_000_000_000)
            && (if g.modTime.Some? then f.modTime.Some? && g.modTime.value < f.modTime.value else f.modTime.Some?) ==>
              g in evicted
    ensures f != g && g in evicted ==> exists i, j ::
              && 0 <= i < |evicted| && 0 <= j < |evicted| && evicted[i] == f && evicted[j] == g
              && (f.modTime.Some? && g.modTime.Some? && f.modTime.value < g.modTime.value ==> i < j)
    ensures exists i :: 0 <= i < |evicted| && evicted[i] == f
              && TotalSize(files) - TotalSize(expired) - TotalSize(evicted[..i]) > limit
  {
    var i :| 0 <= i < |evicted| && evicted[i] == f;
    if f != g && g in evicted {
      var j :| 0 <= j < |evicted| && evicted[j] == g;
      if j < i { assert !Older(evicted[i], evicted[j]); }
    }
  }

  // ---------------------------------------------------------------- local storage

  /** A recording: what removing its file frees (0 when that fails), and whether
      its row can be deleted. */
  datatype Recording = Recording(freed: nat, rowDeletable: bool)

  function Freed(recs: seq<Recording>): nat {
    if recs == [] then 0 else Freed(recs[..|recs| - 1]) + recs[|recs| - 1].freed
  }

  function RowsDeleted(recs: seq<Recording>): nat {
    if recs == [] then 0 else RowsDeleted(recs[..|recs| - 1]) + if recs[|recs| - 1].rowDeletable then 1 else 0
  }

  /** The rows deleted are those that can be, each once. */
  lemma {:induction false} RowsDeletedAre(recs: seq<Recording>)
    ensures RowsDeleted(recs) == |set i | 0 <= i < |recs| && recs[i].rowDeletable|
  {
    var rows := set i | 0 <= i < |recs| && recs[i].rowDeletable;
    if recs != [] {
      var n := |recs| - 1;
      RowsDeletedAre(recs[..n]);
      var before := set i | 0 <= i < n && recs[..n][i].rowDeletable;
      assert rows == before + if recs[n].rowDeletable then {n} else {};
    }
  }

  /** The bytes freed add up. */
  lemma {:induction false} FreedAddsUp(a: seq<Recording>, b: seq<Recording>, r: Recording)
    ensures Freed(a + b) == Freed(a) + Freed(b) && Freed([r]) == r.freed
  {
    assert [r][..0] == [];
    if b == [] {
      assert a + b == a;
    } else {
      assert (a + b)[..|a + b| - 1] == a + b[..|b| - 1];
      FreedAddsUp(a, b[..|b| - 1], r);
    }
  }

  /** Goes through the recordings, oldest first, only while over the limit: the
      shortest prefix that brings the use within it, or all; orphaned segments are
      looked at only when that was not enough. */
  method EnforceMaxStorage(used: int, limit: int, recs: seq<Recording>, orphanBytes: nat, orphanCount: nat)
      returns (processed: nat, released: nat, count: nat)
    ensures limit <= 0 || used <= limit ==> processed == released == count == 0
    ensures 0 < limit < used ==>
              && processed <= |recs|
              && (forall i :: 0 <= i < processed ==> used - Freed(recs[..i]) > limit)
              && (processed == |recs| || used - Freed(recs[..processed]) <= limit)
              && var orphans := used - Freed(recs[..processed]) > limit && orphanCount > 0;
                 && released == Freed(recs[..processed]) + (if orphans then orphanBytes else 0)
                 && count == |set i | 0 <= i < processed && recs[i].rowDeletable| + (if orphans then orphanCount else 0)
  {
    processed, released, count := 0, 0, 0;
    if limit <= 0 || used <= limit {
      return;
    }
    while processed < |recs| && used - released > limit
      invariant processed <= |recs|
      invariant released == Freed(recs[..processed]) && count == RowsDeleted(recs[..processed])
      invariant forall i :: 0 <= i < processed ==> used - Freed(recs[..i]) > limit
    {
      assert recs[..processed + 1][..processed] == recs[..processed];
      var rec := recs[processed];
      if rec.freed > 0 {
        released := released + rec.freed;
      }
      if rec.rowDeletable {
        count := count + 1;
      }
      processed := processed + 1;
    }
    RowsDeletedAre(recs[..processed]);
    assert (set i | 0 <= i < processed && recs[i].rowDeletable) ==
      set i | 0 <= i < |recs[..processed]| && recs[..processed][i].rowDeletable;
    if used - released > limit && orphanCount > 0 {
      released, count := released + orphanBytes, count + orphanCount;
    }
  }
}
