/** Registrations per address in a sliding window (platform/auth/ratelimit.go). */
module RateLimiter {
  import opened Prelude

  /** Times are in nanoseconds. */
  const WINDOW: int := 3_600_000_000_000
  const MAX: nat := 10

  /** The times after `cut`, in order. */
  function NewerThan(times: seq<int>, cut: int): (r: seq<int>)
    ensures |r| <= |times|
  {
    if times == [] then []
    else
      var n := |times| - 1;
      if times[n] > cut then NewerThan(times[..n], cut) + [times[n]] else NewerThan(times[..n], cut)
  }

  /** What the limiter keeps for an address, given what it kept before. */
  function KeptAfter(kept: seq<int>, now: int): seq<int> {
    var recent := NewerThan(kept, now - WINDOW);
    if |recent| >= MAX then recent else recent + [now]
  }

  predicate Allows(kept: seq<int>, now: int) { |NewerThan(kept, now - WINDOW)| < MAX }

  // ------------------------------------------------------- all runs of requests

  /** One address: what the limiter keeps, every request it ever accepted, and
      the time of the last request. */
  datatype Log = Log(kept: seq<int>, accepted: seq<int>, last: int)

  function Request(log: Log, now: int): Log {
    Log(KeptAfter(log.kept, now), if Allows(log.kept, now) then log.accepted + [now] else log.accepted, now)
  }

  /** The log after requests at these times, nothing being kept at `start`. */
  function LogOf(start: int, times: seq<int>): Log {
    if times == [] then Log([], [], start) else Request(LogOf(start, times[..|times| - 1]), times[|times| - 1])
  }

  /** The clock does not run backwards. */
  predicate NonDecreasing(start: int, times: seq<int>) {
    times == [] ||
    (var n := |times| - 1; NonDecreasing(start, times[..n]) && LogOf(start, times[..n]).last <= times[n])
  }

  /** The times in the half-open hour that starts at `w`. */
  function InWindow(times: seq<int>, w: int): seq<int> {
    if times == [] then []
    else
      var n := |times| - 1;
      if w <= times[n] < w + WINDOW then InWindow(times[..n], w) + [times[n]] else InWindow(times[..n], w)
  }

  lemma NewerThanAppend(a: seq<int>, t: int, cut: int)
    ensures NewerThan(a + [t], cut) == if t > cut then NewerThan(a, cut) + [t] else NewerThan(a, cut)
  {
    assert (a + [t])[..|a|] == a;
  }

  lemma InWindowAppend(a: seq<int>, t: int, w: int)
    ensures InWindow(a + [t], w) == if w <= t < w + WINDOW then InWindow(a, w) + [t] else InWindow(a, w)
  {
    assert (a + [t])[..|a|] == a;
  }

  lemma {:induction false} NewerThanTwice(times: seq<int>, early: int, late: int)
    requires early <= late
    ensures NewerThan(NewerThan(times, early), late) == NewerThan(times, late)
  {
    if times != [] {
      var n := |times| - 1;
      NewerThanTwice(times[..n], early, late);
      if times[n] > early { NewerThanAppend(NewerThan(times[..n], early), times[n], late); }
    }
  }

  lemma {:induction false} WindowWithinRecent(times: seq<int>, w: int, cut: int)
    requires cut < w
    ensures |InWindow(times, w)| <= |NewerThan(times, cut)|
  {
    if times != [] { WindowWithinRecent(times[..|times| - 1], w, cut); }
  }

  /** Of the recent past, what is kept is what was accepted; at most the maximum
      is kept; no half-open hour holds more accepted requests than the maximum. */
  ghost predicate Good(log: Log) {
    && |log.kept| <= MAX
    && (forall cut :: log.last - WINDOW <= cut ==> NewerThan(log.kept, cut) == NewerThan(log.accepted, cut))
    && (forall w :: |InWindow(log.accepted, w)| <= MAX)
  }

  lemma RequestKeepsGood(log: Log, now: int)
    requires Good(log) && log.last <= now
    ensures Good(Request(log, now))
  {
    hide NewerThan, InWindow;
    var next, recent := Request(log, now), NewerThan(log.kept, now - WINDOW);
    forall cut | now - WINDOW <= cut ensures NewerThan(next.kept, cut) == NewerThan(next.accepted, cut) {
      NewerThanTwice(log.kept, now - WINDOW, cut);
      NewerThanAppend(recent, now, cut);
      NewerThanAppend(log.accepted, now, cut);
    }
    if Allows(log.kept, now) {
      forall w ensures |InWindow(next.accepted, w)| <= MAX {
        InWindowAppend(log.accepted, now, w);
        if now < w + WINDOW { WindowWithinRecent(log.accepted, w, now - WINDOW); }
      }
    }
  }

  lemma {:induction false} LogsAreGood(start: int, times: seq<int>)
    requires NonDecreasing(start, times)
    ensures Good(LogOf(start, times))
  {
    if times != [] {
      LogsAreGood(start, times[..|times| - 1]);
      RequestKeepsGood(LogOf(start, times[..|times| - 1]), times[|times| - 1]);
    }
  }

  /** In every run no half-open hour holds more than the maximum of accepted
      requests, and a request is refused exactly when that many were accepted in
      the hour before it: forgetting old hits changes no decision. */
  lemma SlidingWindow(start: int, times: seq<int>, w: int, now: int)
    requires NonDecreasing(start, times) && LogOf(start, times).last <= now
    ensures |InWindow(LogOf(start, times).accepted, w)| <= MAX
    ensures !Allows(LogOf(start, times).kept, now) <==> |NewerThan(LogOf(start, times).accepted, now - WINDOW)| == MAX
  {
    LogsAreGood(start, times);
  }

  ghost predicate Ascending(times: seq<int>) { forall i, j :: 0 <= i < j < |times| ==> times[i] <= times[j] }

  lemma {:induction false} AcceptedAscend(start: int, times: seq<int>)
    requires NonDecreasing(start, times)
    ensures var log := LogOf(start, times);
            Ascending(log.accepted) && forall i :: 0 <= i < |log.accepted| ==> log.accepted[i] <= log.last
  {
    if times != [] { AcceptedAscend(start, times[..|times| - 1]); }
  }

  /** In order, `k` of the times are after `cut` exactly when the k-th last is. */
  lemma {:induction false} NewerThanCounts(times: seq<int>, cut: int, k: nat)
    requires Ascending(times)
    ensures |NewerThan(times, cut)| >= k <==> k == 0 || (k <= |times| && times[|times| - k] > cut)
  {
    if times != [] && k > 0 {
      var n := |times| - 1;
      NewerThanCounts(times[..n], cut, if times[n] > cut then k - 1 else k);
    }
  }

  lemma {:induction false} InWindowCounts(times: seq<int>, w: int, i: nat, j: nat)
    requires i <= j <= |times| && forall k :: i <= k < j ==> w <= times[k] < w + WINDOW
    ensures |InWindow(times, w)| >= j - i
  {
    if times != [] {
      var n := |times| - 1;
      InWindowCounts(times[..n], w, if i <= n then i else n, if j <= n then j else n);
    }
  }

  /** In numbers: of the accepted requests any eleven in a row span at least an hour, and
      a request is refused exactly when the tenth last accepted one is less than an hour
      ago. */
  lemma TenAnHour(start: int, times: seq<int>, now: int, i: nat)
    requires NonDecreasing(start, times) && LogOf(start, times).last <= now
    ensures var accepted := LogOf(start, times).accepted;
            && (i + 10 < |accepted| ==> accepted[i + 10] - accepted[i] >= 3_600_000_000_000)
            && (!Allows(LogOf(start, times).kept, now) <==>
                |accepted| >= 10 && now - accepted[|accepted| - 10] < 3_600_000_000_000)
  {
    hide *;
    AcceptedAscend(start, times);
    LogsAreGood(start, times);
    if i + 10 < |LogOf(start, times).accepted| { ElevenSpan(LogOf(start, times), i); }
    RefusedAfterTen(LogOf(start, times), now);
  }

  lemma ElevenSpan(log: Log, i: nat)
    requires Good(log) && Ascending(log.accepted) && i + 10 < |log.accepted|
    ensures log.accepted[i + 10] - log.accepted[i] >= 3_600_000_000_000
  {
    hide NewerThan, InWindow;
    var w := log.accepted[i];
    assert |InWindow(log.accepted, w)| <= MAX;
    if log.accepted[i + 10] - w < WINDOW {
      forall k | i <= k < i + 11 ensures w <= log.accepted[k] < w + WINDOW {
        assert k < i + 10 ==> log.accepted[k] <= log.accepted[i + 10];
        assert i < k ==> log.accepted[i] <= log.accepted[k];
      }
      InWindowCounts(log.accepted, w, i, i + 11);
    }
  }

  lemma RefusedAfterTen(log: Log, now: int)
    requires Good(log) && Ascending(log.accepted) && log.last <= now
    ensures !Allows(log.kept, now) <==>
              |log.accepted| >= 10 && now - log.accepted[|log.accepted| - 10] < 3_600_000_000_000
  {
    hide NewerThan, InWindow;
    assert NewerThan(log.kept, now - WINDOW) == NewerThan(log.accepted, now - WINDOW);
    NewerThanCounts(log.accepted, now - WINDOW, 10);
  }

  // ------------------------------------------------------------- in place

  /** A slice over a backing array. */
  datatype Slice = Slice(buf: array<int>, len: nat)

  class Limiter {
    var hits: map<string, Slice>

    ghost function Buffers(): set<object>
      reads this
    {
      set ip | ip in hits :: hits[ip].buf as object
    }

    ghost predicate Valid()
      reads this
    {
      Separate(hits)
    }

    ghost function Contents(ip: string): seq<int>
      reads this, Buffers()
      requires Valid()
    {
      if ip in hits then hits[ip].buf[..hits[ip].len] else []
    }

    constructor ()
      ensures Valid() && hits == map[]
    {
      hits := map[];
    }

    /** Compacts the address's slice over its own backing array, then appends. */
    method Allow(ip: string, now: int) returns (ok: bool)
      requires Valid()
      modifies this, Buffers()
      ensures Valid() && fresh(Buffers() - old(Buffers()))
      ensures ok <==> Allows(old(Contents(ip)), now)
      ensures Contents(ip) == KeptAfter(old(Contents(ip)), now)
      ensures forall other :: other != ip ==> Contents(other) == old(Contents(other))
    {
      var s;
      if ip in hits {
        s := hits[ip];
      } else {
        var empty := new int[0];
        s := Slice(empty, 0);
      }
      OwnBuffer(hits, ip, s);
      var kept;
      ok, kept := Hit(s, now);
      Replaced(hits, ip, s, kept);
      hits := hits[ip := kept];
    }
  }

  /** Slices stay within their arrays and no two addresses share one. */
  ghost predicate Separate(hits: map<string, Slice>) {
    && (forall ip :: ip in hits ==> hits[ip].len <= hits[ip].buf.Length)
    && (forall a, b :: a in hits && b in hits && a != b ==> hits[a].buf != hits[b].buf)
  }

  /** The address's own slice, or one over a new array, is no other address's. */
  lemma OwnBuffer(hits: map<string, Slice>, ip: string, s: Slice)
    requires Separate(hits) && (if ip in hits then s == hits[ip] else forall b :: b in hits ==> hits[b].buf != s.buf)
    ensures forall other :: other in hits && other != ip ==> hits[other].buf != s.buf
  {}

  lemma Replaced(hits: map<string, Slice>, ip: string, s: Slice, r: Slice)
    requires Separate(hits) && r.len <= r.buf.Length
    requires forall other :: other in hits && other != ip ==> hits[other].buf != r.buf
    ensures Separate(hits[ip := r])
  {}

  /** One request on one slice: compact, decide, append. */
  method Hit(s: Slice, now: int) returns (ok: bool, r: Slice)
    requires s.len <= s.buf.Length
    modifies s.buf
    ensures ok <==> Allows(old(s.buf[..s.len]), now)
    ensures r.len <= r.buf.Length && r.buf[..r.len] == KeptAfter(old(s.buf[..s.len]), now)
    ensures r.buf == s.buf || fresh(r.buf)
  {
    hide NewerThan;
    r := CompactNewer(s, now - WINDOW);
    ok := r.len < MAX;
    if ok {
      r := Append(r, now);
    }
  }

  lemma NewerThanNext(times: seq<int>, i: nat, cut: int)
    requires i < |times|
    ensures NewerThan(times[..i + 1], cut) == if times[i] > cut then NewerThan(times[..i], cut) + [times[i]]
      else NewerThan(times[..i], cut)
  {
    assert times[..i + 1] == times[..i] + [times[i]];
    NewerThanAppend(times[..i], times[i], cut);
  }

  /** Keeps the elements after `cut`, writing over the same backing array. */
  method CompactNewer(s: Slice, cut: int) returns (r: Slice)
    requires s.len <= s.buf.Length
    modifies s.buf
    ensures r.buf == s.buf && r.len <= s.len
    ensures r.buf[..r.len] == NewerThan(old(s.buf[..s.len]), cut)
  {
    ghost var before := s.buf[..s.len];
    var kept := 0;
    assert NewerThan(before[..0], cut) == [];
    hide NewerThan;
    for i := 0 to s.len
      invariant kept <= i
      invariant s.buf[..kept] == NewerThan(before[..i], cut)
      invariant forall k :: i <= k < s.len ==> s.buf[k] == before[k]
    {
      var t := s.buf[i];
      NewerThanNext(before, i, cut);
      if t > cut {
        ghost var done := s.buf[..kept];
        s.buf[kept] := t;
        assert s.buf[..kept + 1] == done + [t];
        kept := kept + 1;
      }
    }
    assert before[..s.len] == before;
    r := Slice(s.buf, kept);
  }

  /** Go's append: in place while there is room, otherwise into a larger array. */
  method Append(s: Slice, t: int) returns (r: Slice)
    requires s.len <= s.buf.Length
    modifies s.buf
    ensures r.len == s.len + 1 <= r.buf.Length
    ensures r.buf[..r.len] == old(s.buf[..s.len]) + [t]
    ensures r.buf == s.buf || fresh(r.buf)
  {
    if s.len < s.buf.Length {
      s.buf[s.len] := t;
      return Slice(s.buf, s.len + 1);
    }
    var grown := new int[2 * s.len + 1];
    for i := 0 to s.len
      invariant grown[..i] == s.buf[..i]
      invariant s.buf[..s.len] == old(s.buf[..s.len])
    {
      grown[i] := s.buf[i];
    }
    grown[s.len] := t;
    r := Slice(grown, s.len + 1);
  }
}
