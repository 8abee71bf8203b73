/** ketama.c: the consistent-hash ring. */
module Ketama {
  import opened Bytes
  import opened Md5
  import opened Quotas
  import opened EqualShares

  const ADDR_SIZE := 255
  const INIT_MAX_SERVERS := 1

  /** A point on the circle and the server it belongs to. */
  datatype Mcs = Mcs(point: nat, ordinal: nat)

  datatype ServerInfo = ServerInfo(addr: seq<Byte>, memory: nat)

  // ----- The ring as a mathematical object -----

  /** Four bytes of a digest as a 32-bit number, low-order byte first. */
  function PointAt(digest: seq<Byte>, h: nat): nat
    requires 4 * h + 4 <= |digest|
  {
    digest[4 * h] as nat + 0x100 * (digest[4 * h + 1] as nat)
    + 0x1_0000 * (digest[4 * h + 2] as nat) + 0x100_0000 * (digest[4 * h + 3] as nat)
  }

  /** Ketama_hashi */
  function Hashi(f: Compression, key: seq<Byte>): nat {
    PointAt(Digest(f, key), 0)
  }

  /** snprintf into a field of the given size: text that does not fit is cut off. */
  function Cut(text: seq<Byte>, size: nat): (r: seq<Byte>)
    requires size > 0
    ensures |r| < size && r <= text
    ensures |text| < size ==> r == text
  {
    if |text| < size then text else text[..size - 1]
  }

  /** The text whose digest gives the k-th group of four points of a server. */
  function PointText(addr: seq<Byte>, k: nat): (text: seq<Byte>)
    ensures |text| < ADDR_SIZE + 11
  {
    Cut(addr + [MINUS] + Decimal(k), ADDR_SIZE + 11)
  }

  function PointGroup(f: Compression, addr: seq<Byte>, k: nat, ordinal: nat): (ps: seq<Mcs>)
    ensures |ps| == 4
  {
    var digest := Digest(f, PointText(addr, k));
    [Mcs(PointAt(digest, 0), ordinal), Mcs(PointAt(digest, 1), ordinal),
     Mcs(PointAt(digest, 2), ordinal), Mcs(PointAt(digest, 3), ordinal)]
  }

  function PointGroups(f: Compression, addr: seq<Byte>, ks: nat, ordinal: nat): (ps: seq<Mcs>)
    ensures |ps| == 4 * ks
    ensures forall p | p in ps :: p.ordinal == ordinal
  {
    if ks == 0 then [] else PointGroups(f, addr, ks - 1, ordinal) + PointGroup(f, addr, ks - 1, ordinal)
  }

  function TotalMemory(servers: seq<ServerInfo>): nat {
    if servers == [] then 0 else TotalMemory(servers[..|servers| - 1]) + servers[|servers| - 1].memory
  }

  /** The points of the first i servers, in the order in which they are written. */
  function RingPoints(f: Compression, servers: seq<ServerInfo>, total: nat, numservers: nat): seq<Mcs>
    requires total > 0
  {
    if servers == [] then []
    else
      var i := |servers| - 1;
      RingPoints(f, servers[..i], total, numservers)
      + PointGroups(f, servers[i].addr, Quota(servers[i].memory, total, numservers), i)
  }

  predicate Sorted(ps: seq<Mcs>) {
    forall i, j :: 0 <= i < j < |ps| ==> ps[i].point <= ps[j].point
  }

  // ----- How many points there are -----

  /** The groups of four points of all servers. */
  function Groups(servers: seq<ServerInfo>, total: nat, numservers: nat): nat
    requires total > 0
  {
    if servers == [] then 0
    else Groups(servers[..|servers| - 1], total, numservers)
         + Quota(servers[|servers| - 1].memory, total, numservers)
  }

  lemma {:induction false} PointsOfGroups(f: Compression, servers: seq<ServerInfo>, total: nat, numservers: nat)
    requires total > 0
    ensures |RingPoints(f, servers, total, numservers)| == 4 * Groups(servers, total, numservers)
  {
    hide PointGroups, Quota;
    if servers != [] {
      PointsOfGroups(f, servers[..|servers| - 1], total, numservers);
    }
  }

  /** The allocation of 160 points per server suffices. */
  predicate Roomy(servers: seq<ServerInfo>) {
    TotalMemory(servers) > 0 ==> Groups(servers, TotalMemory(servers), |servers|) <= 40 * |servers|
  }

  /** The quotas add up to the share of all the memory, nearly. */
  lemma {:induction false} GroupsNear(servers: seq<ServerInfo>, total: nat, numservers: nat)
    requires total > 0
    ensures var g, share := Groups(servers, total, numservers), 40 * (numservers * TotalMemory(servers));
            && (g * total) * 167772160 <= share * 167772211
            && share * 16777211 <= ((g + |servers|) * total) * 16777216
  {
    hide Quota;
    if servers != [] {
      var init, m := servers[..|servers| - 1], servers[|servers| - 1].memory;
      GroupsNear(init, total, numservers);
      QuotaNear(m, total, numservers);
      OneMoreNear(Groups(init, total, numservers), Quota(m, total, numservers), |init|, total, numservers,
                  TotalMemory(init), m);
    }
  }

  lemma OneMoreNear(g: nat, q: nat, k: nat, total: nat, n: nat, sum: nat, m: nat)
    requires (g * total) * 167772160 <= 40 * (n * sum) * 167772211
    requires 40 * (n * sum) * 16777211 <= ((g + k) * total) * 16777216
    requires (q * total) * 167772160 <= 40 * (n * m) * 167772211
    requires 40 * (n * m) * 16777211 < ((q + 1) * total) * 16777216
    ensures ((g + q) * total) * 167772160 <= 40 * (n * (sum + m)) * 167772211
    ensures 40 * (n * (sum + m)) * 16777211 <= ((g + q + k + 1) * total) * 16777216
  {
    assert n * (sum + m) == n * sum + n * m;
    assert (g + q) * total == g * total + q * total;
    assert (g + q + k + 1) * total == (g + k) * total + (q + 1) * total;
  }

  lemma Divided(g: nat, n: nat, total: nat)
    requires total > 0
    requires (g * total) * 167772160 <= 40 * (n * total) * 167772211
    requires 40 * (n * total) * 16777211 <= ((g + n) * total) * 16777216
    ensures g * 167772160 <= 40 * n * 167772211 && 40 * n * 16777211 <= (g + n) * 16777216
  {
    var x, y := 40 * n * 167772211 - g * 167772160, (g + n) * 16777216 - 40 * n * 16777211;
    assert x * total == 40 * (n * total) * 167772211 - (g * total) * 167772160 >= 0;
    assert y * total == ((g + n) * total) * 16777216 - 40 * (n * total) * 16777211 >= 0;
    assert x < 0 ==> x * total < 0;
    assert y < 0 ==> y * total < 0;
  }

  /** The same from above, and closer. */
  lemma {:induction false} GroupsAtMost(servers: seq<ServerInfo>, total: nat, numservers: nat)
    requires 0 < total && TotalMemory(servers) <= total && numservers <= 16777216
    ensures (Groups(servers, total, numservers) * total) * 1677721600
         <= 40 * (numservers * TotalMemory(servers)) * (1677721600 + Excess(total))
  {
    hide Quota, Excess;
    if servers != [] {
      var init, m := servers[..|servers| - 1], servers[|servers| - 1].memory;
      GroupsAtMost(init, total, numservers);
      QuotaAtMost(m, total, numservers);
      OneMoreAtMost(Groups(init, total, numservers), Quota(m, total, numservers), total, numservers,
                    TotalMemory(init), m, 1677721600 + Excess(total));
    }
  }

  lemma OneMoreAtMost(g: nat, q: nat, total: nat, n: nat, sum: nat, m: nat, e: nat)
    requires (g * total) * 1677721600 <= 40 * (n * sum) * e
    requires (q * total) * 1677721600 <= 40 * (n * m) * e
    ensures ((g + q) * total) * 1677721600 <= 40 * (n * (sum + m)) * e
  {
    assert n * (sum + m) == n * sum + n * m;
    assert (g + q) * total == g * total + q * total;
    assert 40 * (n * sum + n * m) * e == 40 * (n * sum) * e + 40 * (n * m) * e;
  }

  lemma DividedAtMost(g: nat, n: nat, total: nat, e: nat)
    requires total > 0 && (g * total) * 1677721600 <= 40 * (n * total) * e
    ensures g * 1677721600 <= 40 * n * e
  {
    var x := 40 * n * e - g * 1677721600;
    assert x * total == 40 * (n * total) * e - (g * total) * 1677721600 >= 0;
    assert x < 0 ==> x * total < 0;
  }

  /**
   The points fit into what is allocated for them for up to 104000 servers of any weights, and for up to 208000
   servers whose total weight is at most 2 to the 24.
   */
  lemma {:induction false} RingFits(servers: seq<ServerInfo>)
    requires |servers| <= 104000 || (|servers| <= 208000 && TotalMemory(servers) <= 16777216)
    ensures Roomy(servers)
  {
    hide TotalMemory, Groups;
    var total, n := TotalMemory(servers), |servers|;
    if total > 0 {
      GroupsAtMost(servers, total, n);
      DividedAtMost(Groups(servers, total, n), n, total, 1677721600 + Excess(total));
      NoOneMore(Groups(servers, total, n), n, Excess(total));
    }
  }

  lemma NoOneMore(g: nat, n: nat, d: nat)
    requires g * 1677721600 <= 40 * n * (1677721600 + d) && 40 * n * d < 1677721600
    ensures g <= 40 * n
  {
    assert 40 * n * (1677721600 + d) == 40 * n * 1677721600 + 40 * n * d;
  }

  /** The groups of all servers, if nothing were rounded on the way. */
  function ExactGroups(servers: seq<ServerInfo>, total: nat, numservers: nat): nat
    requires total > 0
  {
    if servers == [] then 0
    else ExactGroups(servers[..|servers| - 1], total, numservers)
         + ExactQuota(servers[|servers| - 1].memory, total, numservers)
  }

  lemma {:induction false} ExactGroupsNear(servers: seq<ServerInfo>, total: nat, numservers: nat)
    requires total > 0
    ensures var g, share := ExactGroups(servers, total, numservers), 40 * (numservers * TotalMemory(servers));
            g * total <= share <= (g + |servers|) * total
  {
    hide ExactQuota;
    if servers != [] {
      var init, m := servers[..|servers| - 1], servers[|servers| - 1].memory;
      ExactGroupsNear(init, total, numservers);
      ExactIsShare(m, total, numservers);
      OneMoreExact(ExactGroups(init, total, numservers), ExactQuota(m, total, numservers), |init|, total, numservers,
                   TotalMemory(init), m);
    }
  }

  lemma OneMoreExact(g: nat, q: nat, k: nat, total: nat, n: nat, sum: nat, m: nat)
    requires g * total <= 40 * (n * sum) <= (g + k) * total
    requires 4 * q * total <= 160 * (n * m) < (4 * q + 4) * total
    ensures (g + q) * total <= 40 * (n * (sum + m)) <= (g + q + k + 1) * total
  {
    assert n * (sum + m) == n * sum + n * m;
    assert 4 * q * total == 4 * (q * total) && (4 * q + 4) * total == 4 * (q * total + total);
    assert (g + q) * total == g * total + q * total;
    assert (g + q + k + 1) * total == (g + k) * total + q * total + total;
  }

  lemma DividedExact(g: nat, n: nat, total: nat)
    requires total > 0 && g * total <= 40 * (n * total) <= (g + n) * total
    ensures g <= 40 * n <= g + n
  {
    var x, y := 40 * n - g, g + n - 40 * n;
    assert x * total == 40 * (n * total) - g * total >= 0;
    assert y * total == (g + n) * total - 40 * (n * total) >= 0;
    assert x < 0 ==> x * total < 0;
    assert y < 0 ==> y * total < 0;
  }

  /** In exact arithmetic the points fit whatever the number of servers, and at least 156 of 160 are used. */
  lemma {:induction false} ExactRingFits(servers: seq<ServerInfo>)
    requires TotalMemory(servers) > 0
    ensures 39 * |servers| <= ExactGroups(servers, TotalMemory(servers), |servers|) <= 40 * |servers|
    ensures |servers| > 0
  {
    assert servers != [];
    hide TotalMemory, ExactGroups;
    var total, n := TotalMemory(servers), |servers|;
    ExactGroupsNear(servers, total, n);
    DividedExact(ExactGroups(servers, total, n), n, total);
  }

  /** There are servers for which they do not fit: 212529 of which 4093 have the same weight and the others none. */
  lemma {:induction false} RingMayNotFit(addr: seq<Byte>)
    ensures !Roomy(seq(4093, _ => ServerInfo(addr, 1)) + seq(208436, _ => ServerInfo(addr, 0)))
  {
    hide Quota, TotalMemory, Groups;
    var busy, idle := seq(4093, _ => ServerInfo(addr, 1)), seq(208436, _ => ServerInfo(addr, 0));
    var servers := busy + idle;
    assert servers[..4093] == busy;
    TotalWithIdle(servers, 4093);
    EqualTotal(busy, 1);
    AllocationExceeded();
    GroupsGrow(servers, 4093, 212529, 4093);
    EqualGroups(busy, 1, 4093, 212529);
  }

  lemma {:induction false} EqualGroups(servers: seq<ServerInfo>, w: nat, total: nat, numservers: nat)
    requires total > 0 && forall s | s in servers :: s.memory == w
    ensures Groups(servers, total, numservers) == |servers| * Quota(w, total, numservers)
  {
    hide Quota;
    if servers != [] {
      var init, q := servers[..|servers| - 1], Quota(w, total, numservers);
      EqualGroups(init, w, total, numservers);
      assert servers[|servers| - 1] in servers;
      assert |servers| * q == |init| * q + q;
    }
  }

  lemma {:induction false} TotalWithIdle(servers: seq<ServerInfo>, i: nat)
    requires i <= |servers| && forall k | i <= k < |servers| :: servers[k].memory == 0
    ensures TotalMemory(servers) == TotalMemory(servers[..i])
    decreases |servers|
  {
    if i < |servers| {
      var init := servers[..|servers| - 1];
      assert init[..i] == servers[..i];
      TotalWithIdle(init, i);
    } else {
      assert servers[..i] == servers;
    }
  }

  lemma {:induction false} GroupsGrow(servers: seq<ServerInfo>, total: nat, numservers: nat, i: nat)
    requires total > 0 && i <= |servers|
    ensures Groups(servers[..i], total, numservers) <= Groups(servers, total, numservers)
    decreases |servers|
  {
    hide Quota;
    if i < |servers| {
      var init := servers[..|servers| - 1];
      assert init[..i] == servers[..i];
      GroupsGrow(init, total, numservers, i);
    } else {
      assert servers[..i] == servers;
    }
  }

  /** Any positive total weight puts points on the ring; for up to 80000 servers at least 156 per server. */
  lemma {:induction false} RingIsNotEmpty(f: Compression, servers: seq<ServerInfo>)
    requires TotalMemory(servers) > 0
    ensures var points := |RingPoints(f, servers, TotalMemory(servers), |servers|)|;
            points >= 152 * |servers| > 0 && (|servers| <= 80000 ==> points >= 156 * |servers|)
  {
    assert servers != [];
    hide RingPoints, TotalMemory, Groups;
    var total, n := TotalMemory(servers), |servers|;
    GroupsNear(servers, total, n);
    Divided(Groups(servers, total, n), n, total);
    Enough(Groups(servers, total, n), n);
    PointsOfGroups(f, servers, total, n);
  }

  lemma Enough(g: nat, n: nat)
    requires 40 * n * 16777211 <= (g + n) * 16777216
    ensures g >= 38 * n && (n <= 80000 ==> g >= 39 * n)
  {
  }

  /** Every point belongs to a server of the list. */
  lemma {:induction false} RingOrdinals(f: Compression, servers: seq<ServerInfo>, total: nat, numservers: nat, p: Mcs)
    requires total > 0 && p in RingPoints(f, servers, total, numservers)
    ensures p.ordinal < |servers|
  {
    var n := |servers| - 1;
    if p in RingPoints(f, servers[..n], total, numservers) {
      RingOrdinals(f, servers[..n], total, numservers, p);
    }
  }

  // ----- Lookup -----

  /** The first index whose point is at or above h. */
  function Locate(ps: seq<Mcs>, h: nat): (i: nat)
    ensures i <= |ps| && (forall j | 0 <= j < i :: ps[j].point < h) && (i < |ps| ==> ps[i].point >= h)
  {
    if ps == [] || ps[0].point >= h then 0 else 1 + Locate(ps[1..], h)
  }

  /** The index that serves hash h: the first point at or above it, or else the first of all. */
  function ServingIndex(ps: seq<Mcs>, h: nat): (i: nat)
    requires ps != []
    ensures i < |ps|
  {
    if Locate(ps, h) < |ps| then Locate(ps, h) else 0
  }

  /** Point e serves hash h on a ring, whatever the order in which its points are listed. */
  ghost predicate Serves(ps: seq<Mcs>, h: nat, e: Mcs) {
    && e in ps
    && if e.point >= h then forall p | p in ps && p.point >= h :: e.point <= p.point
       else forall p | p in ps :: p.point < h && e.point <= p.point
  }

  lemma LocatedServes(ps: seq<Mcs>, h: nat)
    requires ps != [] && Sorted(ps)
    ensures Serves(ps, h, ps[ServingIndex(ps, h)])
  {
    var i := Locate(ps, h);
    var e := ps[ServingIndex(ps, h)];
    forall p | p in ps
      ensures if i < |ps| then p.point >= h ==> e.point <= p.point else p.point < h && e.point <= p.point
    {
      var j :| 0 <= j < |ps| && ps[j] == p;
    }
  }

  // ----- The same, told of the registers that MD5 leaves -----

  /** The digest that h writes has the four registers as its points. */
  lemma PointsOfDigest(h: Abcd, digest: seq<Byte>)
    requires Writes(h, digest)
    ensures |digest| == 16
    ensures PointAt(digest, 0) == h.a as nat && PointAt(digest, 1) == h.b as nat
    ensures PointAt(digest, 2) == h.c as nat && PointAt(digest, 3) == h.d as nat
  {
    PointIs(digest, 0);
    PointIs(digest, 1);
    PointIs(digest, 2);
    PointIs(digest, 3);
    assert digest[12..] == digest[12..16];
  }

  lemma PointIs(digest: seq<Byte>, k: nat)
    requires 4 * k + 4 <= |digest|
    ensures PointAt(digest, k) == LowFirst(digest[4 * k..4 * k + 4])
  {
    var s := digest[4 * k..4 * k + 4];
    assert s == [s[0], s[1], s[2], s[3]] + [];
    LowFirstOfFour(s[0], s[1], s[2], s[3], []);
  }

  /** The text for group k of a server's points: at most 265 bytes of its address, a '-' and the number. */
  function GroupText(addr: seq<Byte>, k: nat): seq<Byte> {
    var text := addr + [45] + Decimal(k);
    if |text| < 266 then text else text[..265]
  }

  /** p is a point of server number p.ordinal, which is server and has q groups of points. */
  ghost predicate PointOf(f: Compression, server: ServerInfo, q: nat, p: Mcs) {
    exists k, h | 0 <= k < q && Leaves(f, GroupText(server.addr, k), h) ::
      p.point in [h.a as nat, h.b as nat, h.c as nat, h.d as nat]
  }

  /** The points of a group are the registers for its text. */
  lemma GroupIs(f: Compression, addr: seq<Byte>, k: nat, ordinal: nat, h: Abcd)
    requires Leaves(f, GroupText(addr, k), h)
    ensures PointGroup(f, addr, k, ordinal)
         == [Mcs(h.a as nat, ordinal), Mcs(h.b as nat, ordinal), Mcs(h.c as nat, ordinal), Mcs(h.d as nat, ordinal)]
  {
    hide Digest, Leaves, Writes, PointAt;
    assert PointText(addr, k) == GroupText(addr, k);
    DigestIs(f, GroupText(addr, k));
    PointsOfDigest(h, Digest(f, GroupText(addr, k)));
  }

  /** The points of a server are those of its groups. */
  lemma {:induction false} PointOfIff(f: Compression, server: ServerInfo, q: nat, p: Mcs)
    ensures p in PointGroups(f, server.addr, q, p.ordinal) <==> PointOf(f, server, q, p)
  {
    hide PointGroup, Leaves, GroupText;
    if q > 0 {
      PointOfIff(f, server, q - 1, p);
      var text := GroupText(server.addr, q - 1);
      DigestIs(f, text);
      forall h | Leaves(f, text, h)
        ensures p in PointGroup(f, server.addr, q - 1, p.ordinal)
           <==> p.point in [h.a as nat, h.b as nat, h.c as nat, h.d as nat]
      {
        GroupIs(f, server.addr, q - 1, p.ordinal, h);
      }
    }
  }

  /** The points of a list of servers are those of each of them. */
  lemma {:induction false} RingPointsIff(f: Compression, servers: seq<ServerInfo>, total: nat, numservers: nat, p: Mcs)
    requires total > 0
    ensures p in RingPoints(f, servers, total, numservers) <==>
              p.ordinal < |servers|
              && PointOf(f, servers[p.ordinal], Quota(servers[p.ordinal].memory, total, numservers), p)
  {
    hide Quota, PointOf, PointGroups;
    if servers != [] {
      var i := |servers| - 1;
      RingPointsIff(f, servers[..i], total, numservers, p);
      if p.ordinal == i {
        PointOfIff(f, servers[i], Quota(servers[i].memory, total, numservers), p);
      }
    }
  }

  predicate DistinctPoints(ps: seq<Mcs>) {
    forall i, j :: 0 <= i < j < |ps| ==> ps[i].point != ps[j].point
  }

  /** More points on the ring: a hash stays with its point, or moves to one of the new ones. */
  lemma MinimalDisruption(a: seq<Mcs>, b: seq<Mcs>, extra: seq<Mcs>, h: nat, before: Mcs, after: Mcs)
    requires multiset(b) == multiset(a) + multiset(extra) && DistinctPoints(b)
    requires Serves(a, h, before) && Serves(b, h, after)
    ensures after == before || after in extra
  {
    forall p | p in a
      ensures p in b
    {
      assert p in multiset(a) && p in multiset(b);
    }
    if after !in extra {
      assert after in multiset(b) && after !in multiset(extra) && after in multiset(a);
      var i :| 0 <= i < |b| && b[i] == before;
      var j :| 0 <= j < |b| && b[j] == after;
      assert i == j;
    }
  }

  /** The new server's points come after those of the others, if their quotas stay what they were. */
  lemma {:induction false} SameQuotasSamePoints(f: Compression, servers: seq<ServerInfo>,
      total: nat, n: nat, total': nat, n': nat)
    requires total > 0 && total' > 0
    requires forall i | 0 <= i < |servers| :: Quota(servers[i].memory, total, n) == Quota(servers[i].memory, total', n')
    ensures RingPoints(f, servers, total, n) == RingPoints(f, servers, total', n')
  {
    hide Quota, PointGroups;
    if servers != [] {
      var init := servers[..|servers| - 1];
      assert forall i | 0 <= i < |init| :: init[i] == servers[i];
      SameQuotasSamePoints(f, init, total, n, total', n');
    }
  }

  /**
   Adding a server: if no other server's quota changes, a key keeps its server or moves to the new one.
   a and b are the continua before and after, sorted in any way.
   */
  lemma {:induction false} AddingServerMovesKeysToIt(f: Compression, servers: seq<ServerInfo>, added: ServerInfo,
      a: seq<Mcs>, b: seq<Mcs>, h: nat)
    requires TotalMemory(servers) > 0
    requires var total' := TotalMemory(servers) + added.memory;
             forall i | 0 <= i < |servers| :: Quota(servers[i].memory, TotalMemory(servers), |servers|)
                                          == Quota(servers[i].memory, total', |servers| + 1)
    requires multiset(a) == multiset(RingPoints(f, servers, TotalMemory(servers), |servers|)) && Sorted(a) && a != []
    requires multiset(b) == multiset(RingPoints(f, servers + [added], TotalMemory(servers + [added]), |servers| + 1))
    requires TotalMemory(servers + [added]) > 0 && Sorted(b) && b != [] && DistinctPoints(b)
    ensures b[ServingIndex(b, h)].ordinal == a[ServingIndex(a, h)].ordinal
         || b[ServingIndex(b, h)].ordinal == |servers|
  {
    hide Quota, PointGroups, Serves, Locate;
    var n, all := |servers|, servers + [added];
    var total, total' := TotalMemory(servers), TotalMemory(all);
    assert all[..n] == servers;
    SameQuotasSamePoints(f, servers, total, n, total', n + 1);
    var points := RingPoints(f, servers, total, n);
    var extra := PointGroups(f, added.addr, Quota(added.memory, total', n + 1), n);
    assert RingPoints(f, all, total', n + 1) == points + extra;
    LocatedServes(a, h);
    LocatedServes(b, h);
    MinimalDisruption(a, b, extra, h, a[ServingIndex(a, h)], b[ServingIndex(b, h)]);
  }

  lemma {:induction false} EqualTotal(servers: seq<ServerInfo>, w: nat)
    requires forall s | s in servers :: s.memory == w
    ensures TotalMemory(servers) == |servers| * w
  {
    if servers != [] {
      EqualTotal(servers[..|servers| - 1], w);
    }
  }

  /**
   With equal weights every quota is 40 if the share of one server reaches 40 in floating point, and otherwise
   39. It does not always: see EqualShares.SixtyOneServers.
   */
  lemma {:induction false} EqualWeightsQuota(servers: seq<ServerInfo>, w: nat)
    requires w > 0 && servers != [] && forall s | s in servers :: s.memory == w
    ensures |servers| * w == TotalMemory(servers) > 0
    ensures Quota(w, TotalMemory(servers), |servers|) == if Reaches(w, |servers|) then 40 else 39
  {
    hide TotalMemory, Quota, Reaches;
    EqualTotal(servers, w);
    EqualQuota(w, |servers|);
  }

  /**
   Equal weights: a new server of the same weight takes keys, and moves no key between the others, if the
   shares of n and of n + 1 servers both reach 40 or both do not. KeysMoveBetweenOldServers shows what can
   happen otherwise.
   */
  lemma {:induction false} EqualWeightsMoveKeysToNewServer(f: Compression, servers: seq<ServerInfo>, added: ServerInfo,
      a: seq<Mcs>, b: seq<Mcs>, h: nat)
    requires servers != [] && added.memory > 0 && forall s | s in servers :: s.memory == added.memory
    requires (|servers| + 1) * added.memory > 0 && |servers| * added.memory > 0
    requires Reaches(added.memory, |servers|) <==> Reaches(added.memory, |servers| + 1)
    requires TotalMemory(servers) > 0 && TotalMemory(servers + [added]) > 0
    requires multiset(a) == multiset(RingPoints(f, servers, TotalMemory(servers), |servers|)) && Sorted(a) && a != []
    requires multiset(b) == multiset(RingPoints(f, servers + [added], TotalMemory(servers + [added]), |servers| + 1))
    requires Sorted(b) && b != [] && DistinctPoints(b)
    ensures b[ServingIndex(b, h)].ordinal == a[ServingIndex(a, h)].ordinal
         || b[ServingIndex(b, h)].ordinal == |servers|
  {
    hide Quota, RingPoints, ServingIndex, Reaches;
    EqualWeightsQuota(servers, added.memory);
    EqualWeightsQuota(servers + [added], added.memory);
    assert (servers + [added])[..|servers|] == servers;
    AddingServerMovesKeysToIt(f, servers, added, a, b, h);
  }

  // ----- The library's object -----

  /** Ketama_compare */
  function Compare(a: Mcs, b: Mcs): (r: int)
    ensures (r < 0 <==> a.point < b.point) && (r > 0 <==> a.point > b.point)
  {
    if a.point < b.point then -1 else if a.point > b.point then 1 else 0
  }

  method Swap(a: array<Mcs>, i: nat, j: nat, n: nat)
    requires i < n <= a.Length && j < n
    modifies a
    ensures multiset(a[..n]) == multiset(old(a[..n]))
    ensures a[i] == old(a[j]) && a[j] == old(a[i])
    ensures forall k | 0 <= k < a.Length && k != i && k != j :: a[k] == old(a[k])
  {
    ghost var was := a[..n];
    a[i], a[j] := a[j], a[i];
    assert a[..n] == was[i := was[j]][j := was[i]];
  }

  /** An index of a least point among ps[from..]. */
  method LeastPoint(a: array<Mcs>, from: nat, n: nat) returns (m: nat)
    requires from < n <= a.Length
    ensures from <= m < n && forall k | from <= k < n :: a[m].point <= a[k].point
  {
    m := from;
    for k := from + 1 to n
      invariant from <= m < k && forall k' | from <= k' < k :: a[m].point <= a[k'].point
    {
      if Compare(a[k], a[m]) < 0 {
        m := k;
      }
    }
  }

  /** qsort by Compare: which of the orders of equal points comes out is not promised. */
  method Qsort(a: array<Mcs>, n: nat)
    requires n <= a.Length
    modifies a
    ensures Sorted(a[..n]) && multiset(a[..n]) == multiset(old(a[..n]))
  {
    ghost var was := a[..n];
    for i := 0 to n
      invariant multiset(a[..n]) == multiset(was)
      invariant forall j, k :: 0 <= j < i && j < k < n ==> a[j].point <= a[k].point
    {
      var m := LeastPoint(a, i, n);
      Swap(a, i, m, n);
    }
  }

  function ServerAddress(addr: seq<Byte>, port: int): seq<Byte> {
    Cut(addr + [COLON] + PrintInt(port), ADDR_SIZE)
  }

  class Ketama {
    const process: Compression
    var numpoints: nat
    var numservers: nat
    var maxservers: nat
    var memory: nat
    var continuum: array?<Mcs>
    var servers: array?<ServerInfo>
    ghost var ring: seq<ServerInfo>   // the servers of which the continuum was made

    ghost function Servers(): seq<ServerInfo>
      reads this`servers, this`numservers, servers
      requires servers != null ==> numservers <= servers.Length
    {
      if servers == null then [] else servers[..numservers]
    }

    /** The continuum is a sorted arrangement of the points of its servers. */
    ghost predicate RingValid()
      reads this`continuum, this`numpoints, this`ring, continuum
    {
      && continuum != null && continuum.Length == 160 * |ring| && 0 < numpoints <= continuum.Length
      && Sorted(continuum[..numpoints]) && TotalMemory(ring) > 0
      && multiset(continuum[..numpoints]) == multiset(RingPoints(process, ring, TotalMemory(ring), |ring|))
    }

    /** The server list is in order. */
    ghost predicate Listed()
      reads this, servers
    {
      && (if servers == null then maxservers == numservers == 0
          else servers.Length == maxservers && 0 < numservers <= maxservers)
      && memory == TotalMemory(Servers())
    }

    ghost predicate Valid()
      reads this, servers, continuum
    {
      Listed() && if continuum == null then ring == [] else ring <= Servers() && RingValid()
    }

    /** Ketama_new */
    constructor (process: Compression)
      ensures Valid() && Servers() == [] && continuum == null && this.process == process
    {
      this.process := process;
      numpoints, numservers, maxservers, memory := 0, 0, 0, 0;
      continuum, servers, ring := null, null, [];
    }

    /** Ketama_add_server */
    method AddServer(addr: seq<Byte>, port: int, weight: nat)
      requires Valid()
      modifies this`numservers, this`maxservers, this`memory, this`servers, servers
      ensures Valid() && Servers() == old(Servers()) + [ServerInfo(ServerAddress(addr, port), weight)]
      // The address is followed by ':' and the port, and at most 254 bytes of it are kept.
      ensures var text := addr + [58] + PrintInt(port);
              Servers()[|old(Servers())|].addr == if |text| < 255 then text else text[..254]
      ensures fresh(servers) || servers == old(servers)
    {
      hide RingPoints, TotalMemory, RingValid;
      ghost var before := Servers();
      if servers == null {
        maxservers := INIT_MAX_SERVERS;
        servers := new ServerInfo[maxservers];
      }
      if numservers >= maxservers {
        var bigger := new ServerInfo[maxservers * 2];
        forall i | 0 <= i < maxservers {
          bigger[i] := servers[i];
        }
        maxservers := maxservers * 2;
        servers := bigger;
      }
      assert servers[..numservers] == before;
      servers[numservers] := ServerInfo(ServerAddress(addr, port), weight);
      numservers := numservers + 1;
      memory := memory + weight;
      assert Servers() == before + [ServerInfo(ServerAddress(addr, port), weight)];
      OneMore(before, ServerInfo(ServerAddress(addr, port), weight));
    }

    lemma {:induction false} OneMore(before: seq<ServerInfo>, last: ServerInfo)
      ensures TotalMemory(before + [last]) == TotalMemory(before) + last.memory
    {
      assert (before + [last])[..|before|] == before;
    }

    /** Ketama_get_server_address */
    method GetServerAddress(ordinal: int) returns (addr: seq<Byte>)
      requires Valid()
      ensures addr == if 0 <= ordinal < |Servers()| then Servers()[ordinal].addr else []
    {
      if ordinal < 0 || ordinal >= numservers || servers == null {
        return [];
      }
      return servers[ordinal].addr;
    }

    /** The points of one group of a server, written at cont. */
    method WriteGroup(addr: seq<Byte>, k: nat, ordinal: nat, cont: nat)
      requires continuum != null && cont + 4 <= continuum.Length
      modifies continuum
      ensures continuum[..cont + 4] == old(continuum[..cont]) + PointGroup(process, addr, k, ordinal)
      ensures forall h | Leaves(process, GroupText(addr, k), h) ::
        continuum[cont..cont + 4]
        == [Mcs(h.a as nat, ordinal), Mcs(h.b as nat, ordinal), Mcs(h.c as nat, ordinal), Mcs(h.d as nat, ordinal)]
    {
      hide Digest, PointText, Leaves, GroupText;
      forall h | Leaves(process, GroupText(addr, k), h)
        ensures PointGroup(process, addr, k, ordinal)
             == [Mcs(h.a as nat, ordinal), Mcs(h.b as nat, ordinal), Mcs(h.c as nat, ordinal), Mcs(h.d as nat, ordinal)]
      {
        GroupIs(process, addr, k, ordinal, h);
      }
      var digest := Md5Digest(process, PointText(addr, k));
      for h := 0 to 4
        invariant continuum[..cont] == old(continuum[..cont])
        invariant forall h' | 0 <= h' < h :: continuum[cont + h'] == Mcs(PointAt(digest, h'), ordinal)
      {
        continuum[cont + h] := Mcs(PointAt(digest, h), ordinal);
      }
    }

    /** The points of one server. */
    method WriteGroups(addr: seq<Byte>, ks: nat, ordinal: nat, cont: nat)
      requires continuum != null && cont + 4 * ks <= continuum.Length
      modifies continuum
      ensures continuum[..cont + 4 * ks] == old(continuum[..cont]) + PointGroups(process, addr, ks, ordinal)
    {
      hide PointGroup;
      for k := 0 to ks
        invariant continuum[..cont + 4 * k] == old(continuum[..cont]) + PointGroups(process, addr, k, ordinal)
      {
        WriteGroup(addr, k, ordinal, cont + 4 * k);
      }
    }

    /** The points of the first i servers, and of one more, and what is left of the allocation. */
    lemma RoomForNext(list: seq<ServerInfo>, i: nat)
      requires i < |list| && TotalMemory(list) > 0 && Roomy(list)
      ensures var total, n := TotalMemory(list), |list|;
              && RingPoints(process, list[..i + 1], total, n)
                 == RingPoints(process, list[..i], total, n)
                    + PointGroups(process, list[i].addr, Quota(list[i].memory, total, n), i)
              && |RingPoints(process, list[..i + 1], total, n)| <= 160 * n
    {
      hide PointGroups, Quota;
      var total, n := TotalMemory(list), |list|;
      assert list[..i + 1][..i] == list[..i];
      GroupsGrow(list, total, n, i + 1);
      PointsOfGroups(process, list[..i + 1], total, n);
    }

    /** Every server's points into the new array. */
    method FillContinuum() returns (cont: nat)
      requires Listed() && memory > 0 && Roomy(Servers())
      requires continuum != null && continuum.Length == numservers * 160
      modifies continuum
      ensures cont <= continuum.Length && continuum[..cont] == RingPoints(process, Servers(), memory, numservers)
    {
      hide Quota, PointGroups, Roomy;
      ghost var list := Servers();
      cont := 0;
      for i := 0 to numservers
        invariant cont <= continuum.Length
        invariant continuum[..cont] == RingPoints(process, list[..i], memory, numservers)
      {
        RoomForNext(list, i);
        var ks := Quota(servers[i].memory, memory, numservers);
        WriteGroups(servers[i].addr, ks, i, cont);
        cont := cont + 4 * ks;
      }
      assert list[..numservers] == list;
    }

    /** Ketama_create_continuum */
    method CreateContinuum()
      requires Valid() && (memory > 0 || numservers == 0) && Roomy(Servers())
      modifies this`continuum, this`numpoints, this`ring
      ensures Valid()
      ensures if old(continuum) != null || numservers == 0
              then continuum == old(continuum) && ring == old(ring) && numpoints == old(numpoints)
              else fresh(continuum) && ring == Servers() && numpoints >= 152 * numservers
      ensures continuum != null ==> forall p :: p in continuum[..numpoints] <==>
        p.ordinal < |ring|
        && PointOf(process, ring[p.ordinal], Quota(ring[p.ordinal].memory, TotalMemory(ring), |ring|), p)
    {
      hide RingPoints, TotalMemory, Sorted, Roomy;
      if numservers == 0 || continuum != null {
        if continuum != null {
          OnRingIff();
        }
        return;
      }
      continuum := new Mcs[numservers * 160];
      var cont := FillContinuum();
      RingIsNotEmpty(process, Servers());
      numpoints := cont;
      Qsort(continuum, cont);
      ring := Servers();
      OnRingIff();
    }

    /** The points of the ring, told of the registers that MD5 leaves. */
    lemma OnRingIff()
      requires Valid() && continuum != null
      ensures forall p :: p in continuum[..numpoints] <==>
        p.ordinal < |ring|
        && PointOf(process, ring[p.ordinal], Quota(ring[p.ordinal].memory, TotalMemory(ring), |ring|), p)
    {
      hide RingPoints, TotalMemory, PointOf, Quota;
      var total, ps := TotalMemory(ring), RingPoints(process, ring, TotalMemory(ring), |ring|);
      forall p: Mcs
        ensures p in continuum[..numpoints] <==>
                  p.ordinal < |ring|
                  && PointOf(process, ring[p.ordinal], Quota(ring[p.ordinal].memory, total, |ring|), p)
      {
        RingPointsIff(process, ring, total, |ring|, p);
        assert p in continuum[..numpoints] <==> p in multiset(continuum[..numpoints]);
        assert p in ps <==> p in multiset(ps);
      }
    }

    /** The owner of a key has the point that serves the first register that MD5 leaves for the key. */
    lemma OwnerServes(key: seq<Byte>, h: Abcd)
      requires Valid() && continuum != null && Leaves(process, key, h)
      ensures exists e :: Serves(continuum[..numpoints], h.a as nat, e) && Owner(key) == e.ordinal
                          && (e.ordinal < |Servers()| ==> AddressOf(key) == Servers()[e.ordinal].addr)
    {
      hide RingPoints, TotalMemory, Digest, Serves, ServingIndex, Leaves, Writes, PointAt;
      DigestIs(process, key);
      PointsOfDigest(h, Digest(process, key));
      LocatedServes(continuum[..numpoints], h.a as nat);
    }

    lemma KeyServed(key: seq<Byte>)
      requires Valid() && continuum != null
      ensures forall h | Leaves(process, key, h) ::
        exists e :: Serves(continuum[..numpoints], h.a as nat, e) && Owner(key) == e.ordinal
    {
      hide Leaves, Serves, Owner, AddressOf;
      forall h | Leaves(process, key, h)
        ensures exists e :: Serves(continuum[..numpoints], h.a as nat, e) && Owner(key) == e.ordinal
      {
        OwnerServes(key, h);
      }
    }

    lemma OwnersOnRing()
      requires RingValid()
      ensures forall i | 0 <= i < numpoints :: continuum[i].ordinal < |ring|
    {
      hide RingPoints, TotalMemory;
      forall i | 0 <= i < numpoints
        ensures continuum[i].ordinal < |ring|
      {
        var p := continuum[i];
        assert p in continuum[..numpoints] && p in multiset(continuum[..numpoints]);
        RingOrdinals(process, ring, TotalMemory(ring), |ring|, p);
      }
    }

    /** The server that the ring gives to a key. */
    ghost function Owner(key: seq<Byte>): nat
      requires Valid() && continuum != null
      reads this, servers, continuum
    {
      var ps := continuum[..numpoints];
      ps[ServingIndex(ps, Hashi(process, key))].ordinal
    }

    /** Its address. */
    ghost function AddressOf(key: seq<Byte>): seq<Byte>
      requires Valid() && continuum != null
      reads this, servers, continuum
    {
      OwnersOnRing();
      Servers()[Owner(key)].addr
    }

    /** Ketama_get_server_ordinal */
    method GetServerOrdinal(key: seq<Byte>) returns (ordinal: int)
      requires Valid() && |key| < 0x8000_0000
      ensures continuum == null ==> ordinal == -1
      ensures continuum != null ==> 0 <= ordinal < |ring| && ordinal == Owner(key)
      // If MD5 leaves h for the key, the ordinal is that of a point that serves the first register.
      ensures continuum != null ==> forall h | Leaves(process, key, h) ::
        exists e :: Serves(continuum[..numpoints], h.a as nat, e) && ordinal == e.ordinal
    {
      hide RingPoints, TotalMemory, Digest, Leaves, Serves;
      if continuum == null {
        return -1;
      }
      KeyServed(key);
      OwnersOnRing();
      var digest := Md5Digest(process, key);
      var h := PointAt(digest, 0);
      ghost var ps := continuum[..numpoints];
      var lowp, highp := 0, numpoints as int;
      while true
        invariant 0 <= lowp <= Locate(ps, h) <= highp <= numpoints
        decreases highp - lowp
      {
        var midp := (lowp + highp) / 2;
        if midp == numpoints {
          return continuum[0].ordinal;
        }
        var midval := continuum[midp].point;
        var midval1 := if midp == 0 then 0 else continuum[midp - 1].point;
        assert midval == ps[midp].point && (midp > 0 ==> midval1 == ps[midp - 1].point);
        if h <= midval && h > midval1 {
          return continuum[midp].ordinal;
        }
        if midval < h {
          lowp := midp + 1;
        } else {
          highp := midp - 1;
        }
        if lowp > highp {
          return continuum[0].ordinal;
        }
      }
    }
  }

  /**
   The same for two rings of the library, one with a server more: a key stays where it is or moves to the new
   server, if no quota has changed and no two points coincide.
   */
  lemma {:induction false} KeysMoveToTheNewServer(before: Ketama, after: Ketama, added: ServerInfo, key: seq<Byte>)
    requires before.Valid() && before.continuum != null && after.Valid() && after.continuum != null
    requires after.process == before.process && after.ring == before.ring + [added]
    requires DistinctPoints(after.continuum[..after.numpoints])
    requires var ring, total := before.ring, TotalMemory(before.ring);
             forall i | 0 <= i < |ring| ::
               Quota(ring[i].memory, total, |ring|) == Quota(ring[i].memory, total + added.memory, |ring| + 1)
    ensures after.AddressOf(key) == before.AddressOf(key) || after.AddressOf(key) == added.addr
  {
    hide RingPoints, DistinctPoints, ServingIndex, Sorted, Digest, Quota;
    var servers := before.ring;
    assert (servers + [added])[..|servers|] == servers;
    before.OwnersOnRing();
    after.OwnersOnRing();
    AddingServerMovesKeysToIt(before.process, servers, added, before.continuum[..before.numpoints],
                              after.continuum[..after.numpoints], Hashi(before.process, key));
  }
}
