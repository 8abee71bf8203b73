/**
 Equal weights, and a key that moves from one old server to another: that is possible whenever the shares of
 n and of n + 1 servers do not both reach 40 in floating point, as for 60 and 61 servers (see EqualShares). The
 compression function of these examples spreads the points evenly, so that the ring can be told in advance.
 */
module Drift {
  import opened Bytes
  import opened Md5
  import opened Quotas
  import opened EqualShares
  import opened Ketama

  const MANY := 1_000_000

  /** Server i has its number for an address: three digits to the base 100, as bytes that are not zero. */
  function Server(i: nat, w: nat): ServerInfo
    requires i < MANY
  {
    ServerInfo([(1 + i / 10000) as Byte, (1 + i / 100 % 100) as Byte, (1 + i % 100) as Byte], w)
  }

  function Equals(n: nat, w: nat): (r: seq<ServerInfo>)
    requires n < MANY
    ensures |r| == n && forall i | 0 <= i < n :: r[i] == Server(i, w)
  {
    seq(n, i requires 0 <= i < n => Server(i, w))
  }

  function Number(block: seq<Byte>): int
    requires |block| == 64
  {
    10000 * (block[0] as int - 1) + 100 * (block[1] as int - 1) + (block[2] as int - 1)
  }

  /** The number that was written behind the dash: one digit or two. */
  function Suffix(block: seq<Byte>): int
    requires |block| == 64
  {
    if IsDigit(block[5]) then 10 * (block[4] as int - 48) + (block[5] as int - 48) else block[4] as int - 48
  }

  function Words(base: int): Abcd {
    if 0 <= base < 0x1000_0000
    then Abcd(base as Word32, (base + 1) as Word32, (base + 2) as Word32, (base + 3) as Word32)
    else INITIAL
  }

  /** Server i has its group k at 160 * i + 4 * k. */
  function Spread(h: Abcd, block: seq<Byte>): Abcd {
    if |block| == 64 then Words(160 * Number(block) + 4 * Suffix(block)) else INITIAL
  }

  lemma DecimalDigits(k: nat)
    requires k < 100
    ensures Decimal(k) == if k < 10 then [(48 + k) as Byte] else [(48 + k / 10) as Byte, (48 + k % 10) as Byte]
  {
    if k >= 10 {
      assert Decimal(k / 10) == [(48 + k / 10) as Byte];
    }
  }

  lemma HundredDigits(i: nat)
    ensures 10000 * (i / 10000) + 100 * (i / 100 % 100) + i % 100 == i
  {
    ModIs(i, 100, i / 100, i % 100);
    ModIs(i / 100, 100, i / 10000, i / 100 % 100);
  }

  /** The only block of the padded text of group k of server i. */
  lemma BlockOf(i: nat, w: nat, k: nat)
    requires i < MANY && k < 40
    ensures var block := Padded(PointText(Server(i, w).addr, k));
            |block| == 64 && Number(block) == i && Suffix(block) == k
  {
    hide Decimal;
    DecimalDigits(k);
    HundredDigits(i);
    var text := Server(i, w).addr + [MINUS] + Decimal(k);
    assert PointText(Server(i, w).addr, k) == text;
    assert |text| == if k < 10 then 5 else 6;
    assert Padded(text)[..|text|] == text;
  }

  lemma OutputPoints(h: Abcd)
    ensures PointAt(Output(h), 0) == h.a as int && PointAt(Output(h), 1) == h.b as int
    ensures PointAt(Output(h), 2) == h.c as int && PointAt(Output(h), 3) == h.d as int
  {
    hide Output, Writes, PointAt;
    OutputWrites(h);
    PointsOfDigest(h, Output(h));
  }

  /** The x-th point of server i. */
  function At(i: nat, x: nat): Mcs {
    Mcs(160 * i + x, i)
  }

  lemma GroupOf(i: nat, w: nat, k: nat)
    requires i < MANY && k < 40
    ensures PointGroup(Spread, Server(i, w).addr, k, i)
         == [At(i, 4 * k), At(i, 4 * k + 1), At(i, 4 * k + 2), At(i, 4 * k + 3)]
  {
    hide Padded, PointText;
    BlockOf(i, w, k);
    var text := PointText(Server(i, w).addr, k);
    var block := Padded(text);
    assert block[..0] == [] && block[0..] == block;
    assert Fold(Spread, block) == Spread(INITIAL, block) == Words(160 * i + 4 * k);
    OutputPoints(Words(160 * i + 4 * k));
  }

  /** All points of server i, for a quota of q. */
  lemma {:induction false} GroupsOf(i: nat, w: nat, q: nat)
    requires i < MANY && q <= 40
    ensures var ps := PointGroups(Spread, Server(i, w).addr, q, i);
            forall x | 0 <= x < 4 * q :: ps[x] == At(i, x)
  {
    hide PointGroup;
    if q > 0 {
      var addr := Server(i, w).addr;
      GroupsOf(i, w, q - 1);
      GroupOf(i, w, q - 1);
      assert PointGroups(Spread, addr, q, i) == PointGroups(Spread, addr, q - 1, i) + PointGroup(Spread, addr, q - 1,
                         i);
    }
  }

  /** The points ps are, in order, those of the first m servers, with 4 * q points each. */
  ghost predicate Even(ps: seq<Mcs>, m: nat, q: nat) {
    && (forall p | p in ps :: p.ordinal < m && 160 * p.ordinal <= p.point < 160 * p.ordinal + 4 * q)
    && (forall j, k :: 0 <= j < k < |ps| ==> ps[j].point < ps[k].point)
    && forall i, x | 0 <= i < m && 0 <= x < 4 * q :: At(i, x) in ps
  }

  lemma EvenNext(ps: seq<Mcs>, m: nat, q: nat, group: seq<Mcs>)
    requires Even(ps, m, q) && q <= 40 && |group| == 4 * q && forall x | 0 <= x < 4 * q :: group[x] == At(m, x)
    ensures Even(ps + group, m + 1, q)
  {
    var all := ps + group;
    forall i, x | 0 <= i <= m && 0 <= x < 4 * q
      ensures At(i, x) in all
    {
      if i == m {
        assert all[|ps| + x] == group[x];
      } else {
        assert At(i, x) in ps;
      }
    }
    forall j, k | 0 <= j < k < |all|
      ensures all[j].point < all[k].point
    {
      assert j < |ps| ==> ps[j] in ps;
    }
  }

  lemma {:induction false} RingIsEven(m: nat, w: nat, total: nat, n: nat, q: nat)
    requires m < MANY && total > 0 && q <= 40 && Quota(w, total, n) == q
    ensures Even(RingPoints(Spread, Equals(m, w), total, n), m, q)
  {
    hide Quota, Even, PointGroups;
    if m == 0 {
      EvenNone(q);
    } else {
      var i := m - 1;
      assert Equals(m, w)[..i] == Equals(i, w);
      RingIsEven(i, w, total, n, q);
      GroupsOf(i, w, q);
      EvenNext(RingPoints(Spread, Equals(i, w), total, n), i, q, PointGroups(Spread, Server(i, w).addr, q, i));
    }
  }

  lemma EvenNone(q: nat)
    ensures Even([], 0, q)
  {
  }

  lemma EvenFacts(ps: seq<Mcs>, m: nat, q: nat)
    requires Even(ps, m, q) && m > 0 && q > 0
    ensures Sorted(ps) && DistinctPoints(ps) && ps != []
  {
    assert At(0, 0) in ps;
  }

  /** Who serves hash 156: server 0 if it has 160 points, and server 1 if each server has 156. */
  lemma Serves156(ps: seq<Mcs>, m: nat, q: nat)
    requires Even(ps, m, q) && m > 1 && (q == 39 || q == 40) && Sorted(ps) && ps != []
    ensures ps[ServingIndex(ps, 156)].ordinal == if q == 40 then 0 else 1
  {
    assert (if q == 40 then At(0, 156) else At(1, 0)) in ps;
    LocatedServes(ps, 156);
  }

  /**
   All is as EqualWeightsMoveKeysToNewServer demands, but for the shares, and the key moves from one of the
   old servers to another. So what that lemma demands of the shares is necessary.
   */
  lemma {:induction false} KeysMoveBetweenOldServers(n: nat, w: nat)
      returns (f: Compression, servers: seq<ServerInfo>, added: ServerInfo, a: seq<Mcs>, b: seq<Mcs>, h: nat)
    requires 1 < n < MANY - 1 && w > 0 && n * w > 0 && (n + 1) * w > 0
    requires Reaches(w, n) != Reaches(w, n + 1)
    ensures |servers| == n && added.memory == w && forall s | s in servers :: s.memory == added.memory
    ensures TotalMemory(servers) > 0 && TotalMemory(servers + [added]) > 0
    ensures multiset(a) == multiset(RingPoints(f, servers, TotalMemory(servers), |servers|)) && Sorted(a) && a != []
    ensures multiset(b) == multiset(RingPoints(f, servers + [added], TotalMemory(servers + [added]), |servers| + 1))
    ensures Sorted(b) && b != [] && DistinctPoints(b)
    ensures b[ServingIndex(b, h)].ordinal != a[ServingIndex(a, h)].ordinal
    ensures b[ServingIndex(b, h)].ordinal < |servers| && a[ServingIndex(a, h)].ordinal < |servers|
  {
    hide RingPoints, TotalMemory, Quota, Reaches, Even, ServingIndex, Sorted, DistinctPoints;
    f, servers, added, h := Spread, Equals(n, w), Server(n, w), 156;
    assert servers + [added] == Equals(n + 1, w);
    EqualTotal(Equals(n, w), w);
    EqualTotal(Equals(n + 1, w), w);
    EqualQuota(w, n);
    EqualQuota(w, n + 1);
    var p, q := Quota(w, n * w, n), Quota(w, (n + 1) * w, n + 1);
    RingIsEven(n, w, n * w, n, p);
    RingIsEven(n + 1, w, (n + 1) * w, n + 1, q);
    a := RingPoints(f, servers, n * w, n);
    b := RingPoints(f, servers + [added], (n + 1) * w, n + 1);
    EvenFacts(a, n, p);
    EvenFacts(b, n + 1, q);
    Serves156(a, n, p);
    Serves156(b, n + 1, q);
  }

  /** In particular when there are 60 servers and one is added. */
  lemma {:induction false} SixtyServersAndOneMore(w: nat)
      returns (f: Compression, servers: seq<ServerInfo>, added: ServerInfo, a: seq<Mcs>, b: seq<Mcs>, h: nat)
    requires w > 0 && 61 * w <= 16777216
    ensures |servers| == 60 && added.memory == w && forall s | s in servers :: s.memory == w
    ensures TotalMemory(servers) > 0 && TotalMemory(servers + [added]) > 0
    ensures multiset(a) == multiset(RingPoints(f, servers, TotalMemory(servers), 60)) && Sorted(a) && a != []
    ensures multiset(b) == multiset(RingPoints(f, servers + [added], TotalMemory(servers + [added]), 61))
    ensures Sorted(b) && b != [] && DistinctPoints(b)
    ensures b[ServingIndex(b, h)].ordinal != a[ServingIndex(a, h)].ordinal
    ensures b[ServingIndex(b, h)].ordinal < 60 && a[ServingIndex(a, h)].ordinal < 60
  {
    hide RingPoints, TotalMemory, Quota, Reaches, ServingIndex, Sorted, DistinctPoints;
    SixtyOneServers(w);
    EqualQuota(w, 60);
    EqualQuota(w, 61);
    f, servers, added, a, b, h := KeysMoveBetweenOldServers(60, w);
  }
}
