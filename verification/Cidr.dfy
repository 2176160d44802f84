/**
 The trust-list rules of `scripts/refresh_cloudfront_origin_ranges.py`: which address blocks may
 be written, in what order, and what the endpoint overlap test means for single addresses.
 */
module Cidr {
  import opened Powers
  import opened Sorting

  datatype Version = V4 | V6

  /** An `ip_network`: the first address of the block and its prefix length. */
  datatype Net = Net(version: Version, addr: nat, len: nat)

  function Width(v: Version): nat {
    if v.V4? then 32 else 128
  }

  /** Host bits of a block; meaningless prefix lengths have none. */
  function Host(n: Net): nat {
    if n.len <= Width(n.version) then Width(n.version) - n.len else 0
  }

  function Size(n: Net): (r: nat)
    ensures r > 0
  {
    Pow2(Host(n))
  }

  /** What `strict=True` leaves: a prefix length within the width, and no host bit set. */
  predicate Valid(n: Net) {
    && n.len <= Width(n.version)
    && n.addr < Pow2(Width(n.version))
    && n.addr % Size(n) == 0
  }

  function Broadcast(n: Net): nat {
    n.addr + Size(n) - 1
  }

  /** Clearing the host bits of the address gives the block's own address. */
  predicate Contains(n: Net, x: nat) {
    x - x % Size(n) == n.addr
  }

  predicate Overlaps(a: Net, b: Net) {
    && a.version == b.version
    && (|| Contains(a, b.addr) || Contains(a, Broadcast(b))
        || Contains(b, a.addr) || Contains(b, Broadcast(a)))
  }

  // ----- blocks and addresses -----

  lemma Multiple(a: nat, size: nat) returns (i: nat)
    requires size > 0 && a % size == 0
    ensures a == i * size
  {
    i := a / size;
  }

  lemma Quotient(x: nat, size: nat) returns (q: nat)
    requires size > 0
    ensures q * size <= x < q * size + size && x - x % size == q * size
  {
    q := x / size;
  }

  lemma Step(p: nat, d: nat, size: nat)
    ensures (p + d) * size == p * size + d * size
    ensures d > 0 ==> d * size >= size
  {
  }

  lemma Gap(p: nat, q: nat, size: nat)
    requires p < q
    ensures p * size + size <= q * size
  {
    Step(p, q - p, size);
  }

  lemma ClearedBits(x: nat, addr: nat, size: nat)
    requires size > 0 && addr % size == 0
    ensures x - x % size == addr <==> addr <= x < addr + size
  {
    var i := Multiple(addr, size);
    var q := Quotient(x, size);
    if q < i { Gap(q, i, size); }
    if q > i { Gap(i, q, size); }
  }

  lemma ContainsRange(n: Net, x: nat)
    requires Valid(n)
    ensures Contains(n, x) <==> n.addr <= x <= Broadcast(n)
  {
    hide Size;
    ClearedBits(x, n.addr, Size(n));
  }

  /** The four endpoint questions together ask whether the two blocks share an address. */
  lemma OverlapIffShared(a: Net, b: Net)
    requires Valid(a) && Valid(b) && a.version == b.version
    ensures Overlaps(a, b) <==> exists x :: Contains(a, x) && Contains(b, x)
  {
    hide Contains, Size;
    forall x: nat ensures Contains(a, x) <==> a.addr <= x <= Broadcast(a) { ContainsRange(a, x); }
    forall x: nat ensures Contains(b, x) <==> b.addr <= x <= Broadcast(b) { ContainsRange(b, x); }
    assert Contains(a, a.addr) && Contains(a, Broadcast(a));
    assert Contains(b, b.addr) && Contains(b, Broadcast(b));
    if x :| Contains(a, x) && Contains(b, x) {
      if a.addr <= b.addr { assert Contains(a, b.addr); } else { assert Contains(b, a.addr); }
    }
  }

  /** An aligned small block meets an aligned large one only from the inside. */
  lemma Inside(i: nat, small: nat, j: nat, k: nat, x: nat)
    requires small > 0 && k > 0
    requires i * small <= x < i * small + small && (k * j) * small <= x < (k * j) * small + k * small
    ensures (k * j) * small <= i * small && i * small + small <= (k * j) * small + k * small
  {
    var lo := k * j;
    Step(lo, k, small);
    if i < lo { Gap(i, lo, small); }
    if i >= lo { Step(lo, i - lo, small); }
    if i >= lo + k { Step(lo + k, i - lo - k, small); }
    if i < lo + k { Gap(i, lo + k, small); }
  }

  lemma Aligned(a: nat, small: nat, b: nat, k: nat, x: nat)
    requires small > 0 && k > 0 && a % small == 0 && b % (k * small) == 0
    requires a <= x < a + small && b <= x < b + k * small
    ensures b <= a && a + small <= b + k * small
  {
    var i := Multiple(a, small);
    var j := Multiple(b, k * small);
    Regroup(small, k, j);
    Inside(i, small, j, k, x);
  }

  lemma Regroup(s: nat, k: nat, j: nat)
    ensures j * (k * s) == (k * j) * s
  {
  }

  /** Section 3.1 of RFC 4632: blocks that share an address are nested, the longer prefix inside. */
  lemma NestedOrDisjoint(a: Net, b: Net, x: nat, y: nat)
    requires Valid(a) && Valid(b) && a.version == b.version && b.len <= a.len
    requires Contains(a, x) && Contains(b, x) && Contains(a, y)
    ensures Contains(b, y)
  {
    hide Contains, Pow2;
    ContainsRange(a, x);
    ContainsRange(b, x);
    ContainsRange(a, y);
    ContainsRange(b, y);
    Pow2Adds(Host(a), a.len - b.len);
    Aligned(a.addr, Size(a), b.addr, Pow2(a.len - b.len), x);
  }

  // ----- the rules -----

  const MIN_PREFIXES := 10

  function MinPrefixLen(v: Version): nat {
    if v.V4? then 12 else 32
  }

  /** The special-purpose blocks of RFC 6890 that must never be trusted. */
  function NonPublic(): seq<Net> {
    [ Net(V4, 0, 8),                    // 0.0.0.0
      Net(V4, 0x0A00_0000, 8),          // 10.0.0.0
      Net(V4, 0x6440_0000, 10),         // 100.64.0.0
      Net(V4, 0x7F00_0000, 8),          // 127.0.0.0
      Net(V4, 0xA9FE_0000, 16),         // 169.254.0.0
      Net(V4, 0xAC10_0000, 12),         // 172.16.0.0
      Net(V4, 0xC000_0000, 24),         // 192.0.0.0
      Net(V4, 0xC0A8_0000, 16),         // 192.168.0.0
      Net(V4, 0xC612_0000, 15),         // 198.18.0.0
      Net(V4, 0xE000_0000, 3),          // 224.0.0.0
      Net(V6, 0, 8),                                                      // ::
      Net(V6, 0xFC00_0000_0000_0000_0000_0000_0000_0000, 7),              // fc00::
      Net(V6, 0xFE80_0000_0000_0000_0000_0000_0000_0000, 10),             // fe80::
      Net(V6, 0xFF00_0000_0000_0000_0000_0000_0000_0000, 8) ]             // ff00::
  }

  lemma NonPublicValid(i: nat)
    requires i < |NonPublic()|
    ensures Valid(NonPublic()[i])
  {
    hide Pow2;
    Pow2Short();
    Pow2Long();
  }

  /** The special-purpose blocks of IPv6, by the first group of their address. */
  lemma NonPublicSix()
    ensures NonPublic()[10] == Net(V6, 0, 8)
    ensures NonPublic()[11] == Net(V6, 0xfc00 * Pow2(112), 7) && NonPublic()[12] == Net(V6, 0xfe80 * Pow2(112), 10)
    ensures NonPublic()[13] == Net(V6, 0xff00 * Pow2(112), 8)
  {
    hide Pow2;
    Pow2Long();
    Pow2Adds(112, 8);
    Pow2Short();
  }

  predicate Public(n: Net, isGlobal: Net -> bool) {
    && isGlobal(n)
    && forall i :: 0 <= i < |NonPublic()| ==> !Overlaps(n, NonPublic()[i])
  }

  /** `_order`: version, then address, then prefix length. */
  predicate Before(a: Net, b: Net) {
    if a.version != b.version then a.version.V4?
    else if a.addr != b.addr then a.addr < b.addr
    else a.len < b.len
  }

  predicate Ascending(s: seq<Net>) {
    forall i, j :: 0 <= i < j < |s| ==> Before(s[i], s[j])
  }

  /**
   No address of a network that passes lies in a listed special-purpose block, and a network is
   refused by the overlap test only when one of its addresses does.
   */
  lemma PublicAvoidsSpecial(n: Net, isGlobal: Net -> bool)
    requires Valid(n)
    ensures Public(n, isGlobal) <==>
      isGlobal(n) && forall i, x ::
        0 <= i < |NonPublic()| && NonPublic()[i].version == n.version && Contains(n, x) ==> !Contains(NonPublic()[i], x)
  {
    hide Valid, Contains, Overlaps, NonPublic;
    forall i | 0 <= i < |NonPublic()|
      ensures Overlaps(n, NonPublic()[i]) <==>
        NonPublic()[i].version == n.version && exists x :: Contains(n, x) && Contains(NonPublic()[i], x)
    {
      NonPublicValid(i);
      if NonPublic()[i].version == n.version {
        OverlapIffShared(n, NonPublic()[i]);
      } else {
        OverlapNeedsVersion(n, NonPublic()[i]);
      }
    }
  }

  lemma OverlapNeedsVersion(a: Net, b: Net)
    requires a.version != b.version
    ensures !Overlaps(a, b)
  {
  }

  /** Judging a block by its two endpoints is not enough: 192.160.0.0/12 spans 192.168.0.0/16. */
  lemma EndpointsAreNotEnough()
    ensures var n := Net(V4, 0xC0A0_0000, 12);
      && Valid(n)
      && (forall i :: 0 <= i < |NonPublic()| && NonPublic()[i].version == V4 ==>
           !Contains(NonPublic()[i], n.addr) && !Contains(NonPublic()[i], Broadcast(n)))
      && forall isGlobal :: !Public(n, isGlobal)
  {
    hide Pow2;
    Pow2Short();
    var n := Net(V4, 0xC0A0_0000, 12);
    assert Overlaps(n, NonPublic()[7]);
  }

  // ----- the order written to the file -----

  lemma BeforeIsTotal(a: Net, b: Net)
    ensures Before(a, b) || a == b || Before(b, a)
    ensures !(Before(a, b) && Before(b, a)) && !Before(a, a)
  {
  }

  lemma BeforeIsTransitive(a: Net, b: Net, c: Net)
    requires Before(a, b) && Before(b, c)
    ensures Before(a, c)
  {
  }

  lemma HeadIsLeast(s: seq<Net>, x: Net)
    requires Ascending(s) && x in s
    ensures x == s[0] || Before(s[0], x)
  {
  }

  /** A list in this order is determined by what it holds. */
  lemma {:induction false} AscendingUnique(s: seq<Net>, t: seq<Net>)
    requires Ascending(s) && Ascending(t) && forall x :: x in s <==> x in t
    ensures s == t
  {
    assert t != [] ==> t[0] in t;
    if s != [] {
      assert s[0] in t;
      assert t[0] in s;
      HeadIsLeast(s, t[0]);
      HeadIsLeast(t, s[0]);
      BeforeIsTotal(s[0], t[0]);
      forall x ensures x in s[1..] <==> x in t[1..] { RestOf(s, x); RestOf(t, x); }
      AscendingUnique(s[1..], t[1..]);
      assert s == [s[0]] + s[1..] && t == [t[0]] + t[1..];
    }
  }

  lemma RestOf(s: seq<Net>, x: Net)
    requires Ascending(s) && s != []
    ensures Ascending(s[1..])
    ensures x in s[1..] <==> x in s && x != s[0]
  {
    forall i | 1 <= i < |s| ensures s[i] != s[0] { BeforeIsTotal(s[0], s[i]); }
    if x in s && x != s[0] {
      var i :| 0 <= i < |s| && s[i] == x;
      assert s[1..][i - 1] == x;
    }
  }

  function ByOrder(): (Net, Net) -> bool {
    (a: Net, b: Net) => a == b || Before(a, b)
  }

  lemma ByOrderIsOrder()
    ensures Order(ByOrder())
  {
    hide Before;
    forall a, b ensures ByOrder()(a, b) || ByOrder()(b, a) { BeforeIsTotal(a, b); }
    forall a, b, c | ByOrder()(a, b) && ByOrder()(b, c) ensures ByOrder()(a, c) {
      if a != b && b != c { BeforeIsTransitive(a, b, c); }
    }
  }

  /** `sorted(networks, key=_order)`; by `AscendingUnique` there is one such list. */
  method Sorted(networks: set<Net>) returns (r: seq<Net>)
    ensures Ascending(r) && forall x :: x in r <==> x in networks
    ensures |r| == |networks|
    ensures forall i, j :: 0 <= i < j < |r| && r[i].version.V6? ==> r[j].version.V6?
    ensures forall i, j :: 0 <= i < j < |r| && r[i].version == r[j].version ==>
              r[i].addr < r[j].addr || (r[i].addr == r[j].addr && r[i].len < r[j].len)
  {
    ByOrderIsOrder();
    hide Order, Before;
    r := SortSet(networks, ByOrder());
    OrderIs(r);
  }

  /** In file order IPv4 comes first, then the lower address, then the broader block. */
  lemma OrderIs(s: seq<Net>)
    requires Ascending(s)
    ensures forall i, j :: 0 <= i < j < |s| && s[i].version.V6? ==> s[j].version.V6?
    ensures forall i, j :: 0 <= i < j < |s| && s[i].version == s[j].version ==>
              s[i].addr < s[j].addr || (s[i].addr == s[j].addr && s[i].len < s[j].len)
  {
    forall i, j | 0 <= i < j < |s| ensures Before(s[i], s[j]) {
    }
  }
}
