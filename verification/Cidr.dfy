/** The CIDR sweeps of svc-vision's camera discovery
    (services/svc-vision/pkg/onvif/client.go): byte-wise increment with carry,
    masks and broadcast addresses, and the two enumeration loops. Addresses are
    big-endian byte strings of any length, 4 for IPv4; prefixes are those of
    section 3.1 of RFC 4632. */
module Cidr {
  import opened Prelude

  type Addr = seq<Byte>

  /** How many addresses have `n` bytes. */
  function Space(n: nat): nat { Pow2(8 * n) }

  /** The number that an address denotes, most significant byte first. */
  function Val(a: Addr): nat {
    if a == [] then 0 else 256 * Val(a[..|a| - 1]) + a[|a| - 1]
  }

  lemma Pow2Step8(k: nat)
    ensures Pow2(k + 8) == 256 * Pow2(k)
  {
    assert Pow2(k + 8) == 2 * Pow2(k + 7) == 4 * Pow2(k + 6) == 8 * Pow2(k + 5);
    assert Pow2(k + 5) == 2 * Pow2(k + 4) == 4 * Pow2(k + 3) == 8 * Pow2(k + 2);
    assert Pow2(k + 2) == 2 * Pow2(k + 1) == 4 * Pow2(k);
  }

  lemma {:induction false} Pow2Grows(j: nat, k: nat)
    requires j < k
    ensures Pow2(j) < Pow2(k)
  {
    if j < k - 1 { Pow2Grows(j, k - 1); }
  }

  lemma {:induction false} ValRange(a: Addr)
    ensures Val(a) < Space(|a|)
  {
    if a != [] {
      ValRange(a[..|a| - 1]);
      Pow2Step8(8 * (|a| - 1));
    }
  }

  lemma ValSnoc(p: Addr, b: Byte)
    ensures Val(p + [b]) == 256 * Val(p) + b
  {
    assert (p + [b])[..|p|] == p;
  }

  lemma SameByte(p: nat, q: nat, a: Byte, b: Byte)
    requires 256 * p + a == 256 * q + b
    ensures p == q && a == b
  {
  }

  /** An address is determined by its number. */
  lemma {:induction false} ValInjective(a: Addr, b: Addr)
    requires |a| == |b| && Val(a) == Val(b)
    ensures a == b
  {
    if a != [] {
      var n := |a| - 1;
      SameByte(Val(a[..n]), Val(b[..n]), a[n], b[n]);
      ValInjective(a[..n], b[..n]);
      assert a == a[..n] + [a[n]] && b == b[..n] + [b[n]];
    }
  }

  // ----------------------------------------------------------------- increment

  /** A byte wraps around. */
  function NextByte(b: Byte): Byte { if b == 255 then 0 else b + 1 }

  function Inc(a: Addr): (r: Addr)
    ensures |r| == |a|
  {
    if a == [] then []
    else
      var n := |a| - 1;
      if NextByte(a[n]) != 0 then a[..n] + [NextByte(a[n])] else Inc(a[..n]) + [0]
  }

  /** The carry loop adds one modulo the size of the address space. */
  lemma {:induction false} IncAddsOne(a: Addr)
    ensures Val(Inc(a)) == if Val(a) + 1 == Space(|a|) then 0 else Val(a) + 1
  {
    if a != [] {
      var n := |a| - 1;
      ValRange(a[..n]);
      Pow2Step8(8 * n);
      if a[n] < 255 {
        assert Inc(a) == a[..n] + [a[n] + 1];
        ValSnoc(a[..n], a[n] + 1);
      } else {
        IncAddsOne(a[..n]);
        assert Inc(a) == Inc(a[..n]) + [0];
        ValSnoc(Inc(a[..n]), 0);
      }
    }
  }

  /** Byte by byte: the trailing full bytes become zero and the byte before them,
      `at` counted from the left, goes up by one; -1 if there is none. */
  lemma {:induction false} IncBytes(a: Addr, at: int, k: nat)
    requires -1 <= at < |a| && k < |a|
    requires forall i :: at < i < |a| ==> a[i] == 255
    requires at >= 0 ==> a[at] < 255
    ensures Inc(a)[k] == if k < at then a[k] else if k == at then a[k] + 1 else 0
  {
    var n := |a| - 1;
    if at == n {
      assert Inc(a) == a[..n] + [a[n] + 1];
    } else {
      assert Inc(a) == Inc(a[..n]) + [0];
      if k < n { IncBytes(a[..n], at, k); }
    }
  }

  lemma IncIs(a: Addr, at: int, r: Addr)
    requires -1 <= at < |a| == |r|
    requires forall i :: at < i < |a| ==> a[i] == 255 && r[i] == 0
    requires at >= 0 ==> a[at] < 255 && r[at] == a[at] + 1
    requires forall i :: 0 <= i < at ==> r[i] == a[i]
    ensures r == Inc(a)
  {
    hide Inc;
    forall k | 0 <= k < |a| ensures r[k] == Inc(a)[k] {
      IncBytes(a, at, k);
    }
  }

  method IncIp(ip: array<Byte>)
    modifies ip
    ensures ip[..] == Inc(old(ip[..]))
  {
    hide Inc;
    ghost var was := ip[..];
    var i := ip.Length - 1;
    while i >= 0
      invariant -1 <= i < ip.Length
      invariant forall k :: 0 <= k <= i ==> ip[k] == was[k]
      invariant forall k :: i < k < ip.Length ==> was[k] == 255 && ip[k] == 0
    {
      ip[i] := NextByte(ip[i]);
      if ip[i] != 0 {
        IncIs(was, i, ip[..]);
        return;
      }
      i := i - 1;
    }
    IncIs(was, -1, ip[..]);
  }

  function IncTimes(a: Addr, k: nat): (r: Addr)
    ensures |r| == |a|
  {
    if k == 0 then a else Inc(IncTimes(a, k - 1))
  }

  lemma {:induction false} IncTimesAdds(a: Addr, k: nat)
    requires k <= Space(|a|)
    ensures Val(IncTimes(a, k)) == if Val(a) + k < Space(|a|) then Val(a) + k else Val(a) + k - Space(|a|)
  {
    ValRange(a);
    if k > 0 {
      IncTimesAdds(a, k - 1);
      IncAddsOne(IncTimes(a, k - 1));
    }
  }

  // --------------------------------------------------------------------- masks

  /** Bitwise and, or and not. */
  function And(a: nat, b: nat): nat {
    if a == 0 || b == 0 then 0
    else 2 * And(a / 2, b / 2) + if a % 2 == 1 && b % 2 == 1 then 1 else 0
  }

  function Or(a: nat, b: nat): nat {
    if a == 0 then b
    else if b == 0 then a
    else 2 * Or(a / 2, b / 2) + if a % 2 == 1 || b % 2 == 1 then 1 else 0
  }

  function Not(b: Byte): Byte { 255 - b }

  /** Each bit of the two is in their conjunction and in their disjunction as often as in
      both together. */
  lemma {:induction false} AndOrSum(a: nat, b: nat)
    ensures And(a, b) + Or(a, b) == a + b
  {
    if a != 0 && b != 0 {
      AndOrSum(a / 2, b / 2);
      hide And, Or;
      assert a == 2 * (a / 2) + a % 2 && b == 2 * (b / 2) + b % 2;
    }
  }

  lemma {:induction false} AndIsByte(a: Byte, b: nat)
    ensures And(a, b) <= a
  {
    if a != 0 && b != 0 { AndIsByte(a / 2, b / 2); }
  }

  lemma {:induction false} OrIsByte(a: nat, b: nat, k: nat)
    requires a < Pow2(k) && b < Pow2(k)
    ensures Or(a, b) < Pow2(k)
  {
    if a != 0 && b != 0 { OrIsByte(a / 2, b / 2, k - 1); }
  }

  function AndByte(a: Byte, b: Byte): Byte {
    AndIsByte(a, b);
    And(a, b)
  }

  function OrByte(a: Byte, b: Byte): Byte {
    SmallPowers();
    OrIsByte(a, b, 8);
    Or(a, b)
  }

  /** The mask byte with the given number of leading ones (clipped to 0..8). */
  function MaskByte(ones: int): (m: Byte)
    ensures ones >= 8 ==> m == 255
    ensures ones <= 0 ==> m == 0
    ensures 0 <= ones <= 8 ==> m == 256 - Pow2(8 - ones)
  {
    SmallPowers();
    if ones <= 0 then 0
    else if ones >= 8 then 255
    else Pow2Grows(8 - ones, 8); 256 - Pow2(8 - ones)
  }

  lemma SmallPowers()
    ensures Pow2(0) == 1 && Pow2(1) == 2 && Pow2(2) == 4 && Pow2(3) == 8 && Pow2(4) == 16
    ensures Pow2(5) == 32 && Pow2(6) == 64 && Pow2(7) == 128 && Pow2(8) == 256
  {
    assert Pow2(3) == 2 * Pow2(2) == 8 && Pow2(6) == 8 * Pow2(3);
  }

  /** The address with all but the first `ones` bits cleared. */
  function Network(ip: Addr, ones: nat): (r: Addr)
    ensures |r| == |ip|
  {
    if ip == [] then []
    else
      var n := |ip| - 1;
      Network(ip[..n], ones) + [AndByte(ip[n], MaskByte(ones - 8 * n))]
  }

  /** The address with all but the first `ones` bits set. */
  function Broadcast(net: Addr, ones: nat): (r: Addr)
    ensures |r| == |net|
  {
    if net == [] then []
    else
      var n := |net| - 1;
      Broadcast(net[..n], ones) + [OrByte(net[n], Not(MaskByte(ones - 8 * n)))]
  }

  /** Do the two agree on the first `ones` bits? */
  predicate Contains(net: Addr, ones: nat, x: Addr)
    requires |x| == |net|
  {
    net == [] ||
    var n := |net| - 1;
    && Contains(net[..n], ones, x[..n])
    && AndByte(net[n], MaskByte(ones - 8 * n)) == AndByte(x[n], MaskByte(ones - 8 * n))
  }

  // ------------------------------------------------------------------ one byte

  /** `v` with its last `k` bits cleared. */
  function Floor(v: nat, k: nat): (f: nat)
    ensures f <= v
  {
    if k == 0 then v else 2 * Floor(v / 2, k - 1)
  }

  lemma AndHalves(v: nat, m: nat)
    ensures And(v, 2 * m) == 2 * And(v / 2, m)
    ensures And(v, 2 * m + 1) == 2 * And(v / 2, m) + v % 2
  {
    AndEven(v, m);
    AndOdd(v, m);
  }

  lemma AndEven(v: nat, m: nat)
    ensures And(v, 2 * m) == 2 * And(v / 2, m)
  {
    assert (2 * m) / 2 == m && (2 * m) % 2 == 0;
    if v == 0 || m == 0 {
      assert And(v / 2, m) == 0;
    } else {
      assert And(v, 2 * m) == 2 * And(v / 2, (2 * m) / 2) + if v % 2 == 1 && (2 * m) % 2 == 1 then 1 else 0;
    }
  }

  lemma AndOdd(v: nat, m: nat)
    ensures And(v, 2 * m + 1) == 2 * And(v / 2, m) + v % 2
  {
    var b := 2 * m + 1;
    assert b / 2 == m && b % 2 == 1;
    if v == 0 {
      assert And(v / 2, m) == 0;
    } else {
      assert And(v, b) == 2 * And(v / 2, b / 2) + if v % 2 == 1 && b % 2 == 1 then 1 else 0;
    }
  }

  lemma {:induction false} AndMask(v: nat, k: nat, w: nat)
    requires k <= w && v < Pow2(w)
    ensures Pow2(k) <= Pow2(w) && And(v, Pow2(w) - Pow2(k)) == Floor(v, k)
  {
    if w > 0 {
      var j := if k > 0 then k - 1 else 0;
      AndMask(v / 2, j, w - 1);
      AndHalves(v, Pow2(w - 1) - Pow2(j));
    }
  }

  lemma OrDoubles(f: nat, m: nat)
    ensures Or(2 * f, 2 * m + 1) == 2 * Or(f, m) + 1
  {
    assert (2 * f) / 2 == f && (2 * m + 1) / 2 == m && (2 * f) % 2 == 0 && (2 * m + 1) % 2 == 1;
  }

  lemma {:induction false} OrMask(v: nat, k: nat)
    ensures Or(Floor(v, k), Pow2(k) - 1) == Floor(v, k) + Pow2(k) - 1
  {
    if k > 0 {
      OrMask(v / 2, k - 1);
      var f, m := Floor(v / 2, k - 1), Pow2(k - 1) - 1;
      assert Floor(v, k) == 2 * f && Pow2(k) - 1 == 2 * m + 1;
      OrDoubles(f, m);
    }
  }

  lemma {:induction false} FloorInterval(v: nat, x: nat, k: nat)
    ensures Floor(x, k) == Floor(v, k) <==> Floor(v, k) <= x < Floor(v, k) + Pow2(k)
    ensures Floor(Floor(v, k), k) == Floor(v, k)
  {
    if k > 0 {
      FloorInterval(v / 2, x / 2, k - 1);
      FloorStep(v, k);
      FloorStep(x, k);
      FloorStep(2 * Floor(v / 2, k - 1), k);
      hide Floor, Pow2;
      DoubledInterval(Floor(v / 2, k - 1), Pow2(k - 1), x);
    }
  }

  lemma FloorStep(v: nat, k: nat)
    requires k > 0
    ensures Floor(v, k) == 2 * Floor(v / 2, k - 1) && Pow2(k) == 2 * Pow2(k - 1)
  {}

  lemma DoubledInterval(f: nat, p: nat, x: nat)
    ensures f <= x / 2 < f + p <==> 2 * f <= x < 2 * f + 2 * p
    ensures 2 * f / 2 == f
  {}

  lemma FloorHalves(v: nat, k: nat)
    ensures Floor(v, k + 3) == 8 * Floor(v / 8, k)
  {
    FloorQuarters(v, k + 1);
    assert Floor(v / 4, k + 1) == 2 * Floor(v / 4 / 2, k);
  }

  lemma FloorQuarters(v: nat, k: nat)
    ensures Floor(v, k + 2) == 4 * Floor(v / 4, k)
  {
    assert Floor(v, k + 2) == 2 * Floor(v / 2, k + 1);
    assert Floor(v / 2, k + 1) == 2 * Floor(v / 2 / 2, k);
    assert v / 2 / 2 == v / 4;
  }

  lemma FloorByte(v: nat, k: nat)
    ensures Floor(v, k + 8) == 256 * Floor(v / 256, k)
  {
    hide Floor;
    FloorHalves(v, k + 5);
    FloorHalves(v / 8, k + 2);
    FloorQuarters(v / 64, k);
    assert v / 8 / 8 == v / 64 && v / 64 / 4 == v / 256;
  }

  lemma FloorDropsByte(p: nat, b: Byte, k: nat)
    ensures Floor(256 * p + b, k + 8) == 256 * Floor(p, k)
  {
    hide Floor;
    FloorByte(256 * p + b, k);
    assert (256 * p + b) / 256 == p;
  }

  lemma FloorOfMultiple(p: nat)
    ensures Floor(256 * p, 8) == 256 * p
  {
    FloorByte(256 * p, 0);
  }

  /** The bits above the last `k` do not matter. */
  lemma {:induction false} FloorAbove(c: nat, b: nat, k: nat, j: nat)
    requires k <= j && Floor(c, j) == c
    ensures Floor(c + b, k) == c + Floor(b, k)
  {
    if k > 0 {
      assert Floor(c / 2, j - 1) == c / 2 && c % 2 == 0;
      FloorAbove(c / 2, b / 2, k - 1, j - 1);
    }
  }

  /** Clearing `k` bits gives the multiple of 2^k at or just below. */
  lemma {:induction false} FloorIsMultiple(v: nat, k: nat) returns (q: nat)
    ensures Floor(v, k) == q * Pow2(k) && Floor(v, k) <= v < Floor(v, k) + Pow2(k)
  {
    if k == 0 {
      q := v;
    } else {
      q := FloorIsMultiple(v / 2, k - 1);
      DoubleFactor(q, Pow2(k - 1));
    }
  }

  lemma DoubleFactor(a: nat, b: nat)
    ensures 2 * (a * b) == a * (2 * b)
  {
  }

  /** One byte under the mask `m` with `k` trailing zeros: the network byte, the block
      of bytes from it, and the mask test as an interval. */
  lemma ByteBlock(b: Byte, x: Byte, k: nat)
    requires k <= 8
    ensures var m, net := MaskByte(8 - k), AndByte(b, MaskByte(8 - k));
            && net == Floor(b, k)
            && OrByte(net, Not(m)) == net + Pow2(k) - 1
            && (AndByte(net, m) == AndByte(x, m) <==> net <= x < net + Pow2(k))
  {
    hide And, Or, Floor, Pow2;
    SmallPowers();
    AndMask(b, k, 8);
    FloorInterval(b, x, k);
    AndMask(x, k, 8);
    AndMask(Floor(b, k), k, 8);
    OrMask(b, k);
  }

  // ---------------------------------------------------- the network as an interval

  /** A prefix of `ones` bits on `n` bytes leaves a block of this many addresses. */
  function BlockSize(ones: nat, n: nat): (size: nat)
    requires ones <= 8 * n
    ensures size >= 1
  {
    Pow2(8 * n - ones)
  }

  lemma FullByte(b: Byte)
    ensures AndByte(b, 255) == b && OrByte(b, Not(255)) == b
  {
    SmallPowers();
    AndMask(b, 0, 8);
  }

  lemma ZeroByte(b: Byte)
    ensures AndByte(b, 0) == 0 && OrByte(0, Not(0)) == 255
  {
  }

  lemma SameLast(a: Addr, b: Addr)
    requires |a| == |b| > 0 && a[..|a| - 1] == b[..|b| - 1] && a[|a| - 1] == b[|b| - 1]
    ensures a == b
  {
    assert a == a[..|a| - 1] + [a[|a| - 1]] && b == b[..|b| - 1] + [b[|b| - 1]];
  }

  /** When the prefix covers whole bytes, network and broadcast are the address. */
  lemma {:induction false} FullPrefix(ip: Addr, x: Addr, ones: nat)
    requires |ip| == |x| && 8 * |ip| <= ones
    ensures Network(ip, ones) == ip && Broadcast(ip, ones) == ip
    ensures Contains(ip, ones, x) <==> x == ip
  {
    if ip != [] {
      hide *;
      var n := |ip| - 1;
      FullPrefix(ip[..n], x[..n], ones);
      NetworkLast(ip, ones);
      BroadcastLast(ip, ones);
      ContainsLast(ip, x, ones);
      FullByte(ip[n]);
      FullByte(x[n]);
      SameLast(Network(ip, ones), ip);
      SameLast(Broadcast(ip, ones), ip);
      if x[..n] == ip[..n] && x[n] == ip[n] { SameLast(x, ip); }
    }
  }

  ghost predicate IsBlock(ip: Addr, x: Addr, ones: nat)
    requires |ip| == |x| && ones <= 8 * |ip|
  {
    var net, size := Network(ip, ones), BlockSize(ones, |ip|);
    && Val(net) == Floor(Val(ip), 8 * |ip| - ones)
    && Val(Broadcast(net, ones)) == Val(net) + size - 1
    && (Contains(net, ones, x) <==> Val(net) <= Val(x) < Val(net) + size)
  }

  /** The masked address starts the aligned block around `ip`, the broadcast address
      ends it, and the mask test is membership in that interval. */
  lemma {:induction false} NetworkIsBlock(ip: Addr, x: Addr, ones: nat)
    requires |ip| == |x| && ones <= 8 * |ip|
    ensures IsBlock(ip, x, ones)
  {
    if ip != [] {
      hide *;
      var n := |ip| - 1;
      if ones <= 8 * n {
        NetworkIsBlock(ip[..n], x[..n], ones);
        ExtendBlock(ip, x, ones);
      } else {
        SplitBlock(ip, x, ones);
      }
    }
  }

  lemma ValLast(a: Addr)
    requires a != []
    ensures Val(a) == 256 * Val(a[..|a| - 1]) + a[|a| - 1]
  {
  }

  lemma NetworkLast(ip: Addr, ones: nat)
    requires ip != []
    ensures var n := |ip| - 1;
            && Network(ip, ones)[..n] == Network(ip[..n], ones)
            && Network(ip, ones)[n] == AndByte(ip[n], MaskByte(ones - 8 * n))
  {
    hide AndByte, MaskByte;
  }

  lemma BroadcastLast(net: Addr, ones: nat)
    requires net != []
    ensures var n := |net| - 1;
            && Broadcast(net, ones)[..n] == Broadcast(net[..n], ones)
            && Broadcast(net, ones)[n] == OrByte(net[n], Not(MaskByte(ones - 8 * n)))
  {
    hide OrByte, Not, MaskByte;
  }

  lemma ContainsLast(net: Addr, x: Addr, ones: nat)
    requires |net| == |x| > 0
    ensures var n := |net| - 1; var m := MaskByte(ones - 8 * n);
            Contains(net, ones, x) <==> Contains(net[..n], ones, x[..n]) && AndByte(net[n], m) == AndByte(x[n], m)
  {
    hide AndByte, MaskByte;
  }

  /** Network and broadcast, split into the last byte and those before. */
  lemma LastNetwork(ip: Addr, ones: nat)
    requires ip != []
    ensures var n := |ip| - 1;
            Val(Network(ip, ones)) == 256 * Val(Network(ip[..n], ones)) + AndByte(ip[n], MaskByte(ones - 8 * n))
  {
    hide *;
    NetworkLast(ip, ones);
    ValLast(Network(ip, ones));
  }

  lemma LastBroadcast(net: Addr, ones: nat)
    requires net != []
    ensures var n := |net| - 1;
            Val(Broadcast(net, ones)) ==
            256 * Val(Broadcast(net[..n], ones)) + OrByte(net[n], Not(MaskByte(ones - 8 * n)))
  {
    hide *;
    BroadcastLast(net, ones);
    ValLast(Broadcast(net, ones));
  }

  lemma LastParts(ip: Addr, x: Addr, ones: nat)
    requires |ip| == |x| > 0
    ensures Val(ip) == 256 * Val(ip[..|ip| - 1]) + ip[|ip| - 1] && Val(x) == 256 * Val(x[..|ip| - 1]) + x[|ip| - 1]
    ensures var n := |ip| - 1;
            Val(Network(ip, ones)) == 256 * Val(Network(ip[..n], ones)) + AndByte(ip[n], MaskByte(ones - 8 * n))
    ensures var m := MaskByte(ones - 8 * (|ip| - 1));
            Val(Broadcast(Network(ip, ones), ones)) ==
            256 * Val(Broadcast(Network(ip[..|ip| - 1], ones), ones)) + OrByte(AndByte(ip[|ip| - 1], m), Not(m))
    ensures var m := MaskByte(ones - 8 * (|ip| - 1));
            Contains(Network(ip, ones), ones, x) <==>
              Contains(Network(ip[..|ip| - 1], ones), ones, x[..|ip| - 1])
                && AndByte(AndByte(ip[|ip| - 1], m), m) == AndByte(x[|ip| - 1], m)
  {
    hide *;
    ValLast(ip);
    ValLast(x);
    NetworkLast(ip, ones);
    LastNetwork(ip, ones);
    LastBroadcast(Network(ip, ones), ones);
    ContainsLast(Network(ip, ones), x, ones);
  }

  lemma ExtendBlock(ip: Addr, x: Addr, ones: nat)
    requires |ip| == |x| > 0 && ones <= 8 * (|ip| - 1) && IsBlock(ip[..|ip| - 1], x[..|ip| - 1], ones)
    ensures IsBlock(ip, x, ones)
  {
    hide AndByte, OrByte, MaskByte, Not, Network, Broadcast, Contains, Val, Pow2, Floor;
    var n := |ip| - 1;
    LastParts(ip, x, ones);
    ZeroByte(ip[n]);
    ZeroByte(x[n]);
    ZeroByte(0);
    Pow2Step8(8 * n - ones);
    FloorDropsByte(Val(ip[..n]), ip[n], 8 * n - ones);
  }

  lemma SplitBlock(ip: Addr, x: Addr, ones: nat)
    requires |ip| == |x| > 0 && 8 * (|ip| - 1) < ones <= 8 * |ip|
    ensures IsBlock(ip, x, ones)
  {
    hide AndByte, OrByte, MaskByte, Not, Network, Broadcast, Contains, Val, Pow2, Floor;
    var n, k := |ip| - 1, 8 * |ip| - ones;
    LastParts(ip, x, ones);
    FullPrefix(ip[..n], x[..n], ones);
    ByteBlock(ip[n], x[n], k);
    if Val(x[..n]) == Val(ip[..n]) { ValInjective(x[..n], ip[..n]); }
    FloorOfMultiple(Val(ip[..n]));
    FloorAbove(256 * Val(ip[..n]), ip[n], k, 8);
    SameHighByte(Val(ip[..n]), AndByte(ip[n], MaskByte(8 - k)), Val(x[..n]), x[n], Pow2(k));
  }

  lemma SameHighByte(p: nat, net: nat, q: nat, c: nat, size: nat)
    requires net + size <= 256 && c <= 255
    ensures p == q && net <= c < net + size <==> 256 * p + net <= 256 * q + c < 256 * p + net + size
  {
  }

  // --------------------------------------------------------------- enumeration

  /** The addresses strictly between network and broadcast, in ascending order. */
  ghost predicate HostsInOrder(ip: Addr, ones: nat, visited: seq<Addr>)
    requires ones <= 8 * |ip|
  {
    var first, size := Val(Network(ip, ones)), BlockSize(ones, |ip|);
    && |visited| == (if size > 2 then size - 2 else 0)
    && forall i :: 0 <= i < |visited| ==> |visited[i]| == |ip| && Val(visited[i]) == first + 1 + i
  }

  /** For example the hosts of an IPv4 /24: the last byte from 1 to 254. */
  lemma Slash24(a: Byte, b: Byte, c: Byte, d: Byte, visited: seq<Addr>)
    requires HostsInOrder([a, b, c, d], 24, visited)
    ensures |visited| == 254 && forall i :: 0 <= i < 254 ==> visited[i] == [a, b, c, i + 1]
  {
    var ip := [a, b, c, d];
    Network24(a, b, c, d);
    SmallPowers();
    hide Network, Val;
    forall i | 0 <= i < 254 ensures visited[i] == [a, b, c, i + 1] {
      Val4(a, b, c, i + 1);
      Val4(a, b, c, 0);
      ValInjective(visited[i], [a, b, c, i + 1]);
    }
  }

  lemma Val4(a: Byte, b: Byte, c: Byte, d: Byte)
    ensures Val([a, b, c, d]) == 16777216 * a + 65536 * b + 256 * c + d
  {
    assert [a, b, c, d][..3] == [a, b, c] && [a, b, c][..2] == [a, b] && [a, b][..1] == [a] && [a][..0] == [];
    ValLast([a, b, c, d]);
    ValLast([a, b, c]);
    ValLast([a, b]);
    ValLast([a]);
  }

  lemma Network24(a: Byte, b: Byte, c: Byte, d: Byte)
    ensures Network([a, b, c, d], 24) == [a, b, c, 0] && Broadcast([a, b, c, 0], 24) == [a, b, c, 255]
  {
    FullPrefix([a, b, c], [a, b, c], 24);
    assert [a, b, c, d][..3] == [a, b, c] && [a, b, c, 0][..3] == [a, b, c];
    ZeroByte(d);
    hide AndByte, OrByte;
  }

  lemma ValAfterIncrements(ip: Addr, ones: nat, k: nat)
    requires 0 < ones <= 8 * |ip| && k <= BlockSize(ones, |ip|)
    ensures var net := Network(ip, ones);
            && (Contains(net, ones, IncTimes(net, k)) <==> k < BlockSize(ones, |ip|))
            && (k < BlockSize(ones, |ip|) ==> Val(IncTimes(net, k)) == Val(net) + k)
            && (k == BlockSize(ones, |ip|) ==> Val(IncTimes(net, k)) != Val(Broadcast(net, ones)))
            && Val(Broadcast(net, ones)) == Val(net) + BlockSize(ones, |ip|) - 1
            && (k == BlockSize(ones, |ip|) ==> Val(IncTimes(net, k)) != Val(net))
  {
    hide Contains, Network, Broadcast, Val, Floor, Pow2, Inc, IncTimes;
    var net := Network(ip, ones);
    NetworkIsBlock(ip, IncTimes(net, k), ones);
    Pow2Grows(8 * |ip| - ones, 8 * |ip|);
    IncTimesAdds(net, k);
    ValRange(Broadcast(net, ones));
  }

  /** Where the loops are after `k` increments from the network address. */
  lemma AfterIncrements(ip: Addr, ones: nat, k: nat)
    requires 0 < ones <= 8 * |ip| && k <= BlockSize(ones, |ip|)
    ensures var net := Network(ip, ones); var x := IncTimes(net, k);
            && (Contains(net, ones, x) <==> k < BlockSize(ones, |ip|))
            && (k < BlockSize(ones, |ip|) ==> Val(x) == Val(net) + k)
            && (x == net <==> k == 0)
            && (x == Broadcast(net, ones) <==> k == BlockSize(ones, |ip|) - 1)
  {
    assert IncTimes(Network(ip, ones), 0) == Network(ip, ones);
    hide *;
    var net := Network(ip, ones);
    var x, bc := IncTimes(net, k), Broadcast(net, ones);
    ValAfterIncrements(ip, ones, k);
    if Val(x) == Val(bc) { ValInjective(x, bc); }
    if x != net && Val(x) == Val(net) { ValInjective(x, net); }
  }

  /** The addresses that the loops have kept after `k` steps over a block. */
  ghost predicate Kept(net: Addr, k: nat, size: nat, visited: seq<Addr>) {
    && |visited| == (if k == 0 then 0 else if k < size then k - 1 else if size >= 2 then size - 2 else 0)
    && forall i :: 0 <= i < |visited| ==> |visited[i]| == |net| && Val(visited[i]) == Val(net) + 1 + i
  }

  method Allocate(a: Addr) returns (r: array<Byte>)
    ensures fresh(r) && r[..] == a
  {
    r := new Byte[|a|](i requires 0 <= i < |a| => a[i]);
  }

  /** The discovery loop, which increments one address in place. */
  method Discover(ip: Addr, ones: nat) returns (visited: seq<Addr>)
    requires 0 < ones <= 8 * |ip|
    ensures HostsInOrder(ip, ones, visited)
  {
    hide Contains, Network, Broadcast, Val, BlockSize, Inc;
    var net := Network(ip, ones);
    var cur := Allocate(net);
    visited := [];
    ghost var k, size := 0, BlockSize(ones, |ip|);
    AfterIncrements(ip, ones, 0);
    while Contains(net, ones, cur[..])
      invariant k <= size && cur.Length == |ip| && cur[..] == IncTimes(net, k)
      invariant Contains(net, ones, cur[..]) <==> k < size
      invariant Kept(net, k, size, visited)
      decreases size - k
    {
      AfterIncrements(ip, ones, k);
      if cur[..] != net && cur[..] != Broadcast(net, ones) {
        visited := visited + [cur[..]];
      }
      IncIp(cur);
      k := k + 1;
      AfterIncrements(ip, ones, k);
    }
  }

  /** The sweep, which increments a copy and stops before it leaves the network. */
  method SweepCidr(ip: Addr, ones: nat) returns (visited: seq<Addr>)
    requires 0 < ones <= 8 * |ip|
    ensures HostsInOrder(ip, ones, visited)
  {
    hide Contains, Network, Broadcast, Val, BlockSize, Inc;
    var net := Network(ip, ones);
    var cur := Allocate(net);
    visited := [];
    ghost var k, size := 0, BlockSize(ones, |ip|);
    AfterIncrements(ip, ones, 0);
    while Contains(net, ones, cur[..])
      invariant k < size && cur.Length == |ip| && cur[..] == IncTimes(net, k)
      invariant Kept(net, k, size, visited)
      decreases size - k
    {
      AfterIncrements(ip, ones, k);
      if cur[..] != net && cur[..] != Broadcast(net, ones) {
        visited := visited + [cur[..]];
      }
      var next := Allocate(cur[..]);
      IncIp(next);
      AfterIncrements(ip, ones, k + 1);
      k := k + 1;
      if !Contains(net, ones, next[..]) {
        return;
      }
      cur := next;
    }
    AfterIncrements(ip, ones, k);
  }

  /** The loops end exactly when the prefix is not empty: under a /0 every address
      is contained. */
  lemma LoopEndsIff(ip: Addr, ones: nat)
    requires ones <= 8 * |ip| && ip != []
    ensures (exists k: nat :: !Contains(Network(ip, ones), ones, IncTimes(Network(ip, ones), k))) <==> ones > 0
  {
    hide Contains, Network, Broadcast, Val, Floor, Pow2, Inc, IncTimes;
    var net := Network(ip, ones);
    if ones > 0 {
      AfterIncrements(ip, ones, BlockSize(ones, |ip|));
    } else {
      forall k: nat ensures Contains(net, ones, IncTimes(net, k)) {
        NetworkIsBlock(ip, IncTimes(net, k), 0);
        ValRange(ip);
        ValRange(IncTimes(net, k));
        FloorAll(Val(ip), 8 * |ip|);
      }
    }
  }

  lemma {:induction false} FloorAll(v: nat, k: nat)
    requires v < Pow2(k)
    ensures Floor(v, k) == 0
  {
    if k > 0 { FloorAll(v / 2, k - 1); }
  }
}
