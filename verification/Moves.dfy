/** Adding a server, with any weights: exactly which keys move. It holds for every compression function. */
module Moves {
  import opened Bytes
  import opened Md5
  import opened Quotas
  import opened EqualShares
  import opened Ketama

  /** The groups of points from lo to hi - 1 of a server. */
  function GroupRange(f: Compression, addr: seq<Byte>, lo: nat, hi: nat, ordinal: nat): (ps: seq<Mcs>)
    requires lo <= hi
    ensures forall p | p in ps :: p.ordinal == ordinal
    decreases hi
  {
    if lo == hi then [] else GroupRange(f, addr, lo, hi - 1, ordinal) + PointGroup(f, addr, hi - 1, ordinal)
  }

  lemma {:induction false} GroupsSplit(f: Compression, addr: seq<Byte>, lo: nat, hi: nat, ordinal: nat)
    requires lo <= hi
    ensures PointGroups(f, addr, hi, ordinal)
         == PointGroups(f, addr, lo, ordinal) + GroupRange(f, addr, lo, hi, ordinal)
    decreases hi
  {
    hide PointGroup;
    if lo < hi {
      GroupsSplit(f, addr, lo, hi - 1, ordinal);
    }
  }

  function Least(x: nat, y: nat): nat {
    if x <= y then x else y
  }

  /** The points that the servers have for total t and n servers, and also for total u and m servers. */
  function Common(f: Compression, servers: seq<ServerInfo>, t: nat, n: nat, u: nat, m: nat): seq<Mcs>
    requires t > 0 && u > 0
  {
    if servers == [] then []
    else
      var i := |servers| - 1;
      var s := servers[i];
      Common(f, servers[..i], t, n, u, m)
      + PointGroups(f, s.addr, Least(Quota(s.memory, t, n), Quota(s.memory, u, m)), i)
  }

  /** The points that they have for total t and n servers only. */
  function Dropped(f: Compression, servers: seq<ServerInfo>, t: nat, n: nat, u: nat, m: nat): seq<Mcs>
    requires t > 0 && u > 0
  {
    if servers == [] then []
    else
      var i := |servers| - 1;
      var s := servers[i];
      var q := Quota(s.memory, t, n);
      Dropped(f, servers[..i], t, n, u, m) + GroupRange(f, s.addr, Least(q, Quota(s.memory, u, m)), q, i)
  }

  lemma {:induction false} CommonTwice(f: Compression, servers: seq<ServerInfo>, t: nat, n: nat, u: nat, m: nat)
    requires t > 0 && u > 0
    ensures Common(f, servers, t, n, u, m) == Common(f, servers, u, m, t, n)
  {
    hide Quota, PointGroups;
    if servers != [] {
      CommonTwice(f, servers[..|servers| - 1], t, n, u, m);
    }
  }

  lemma {:induction false} RingSplit(f: Compression, servers: seq<ServerInfo>, t: nat, n: nat, u: nat, m: nat)
    requires t > 0 && u > 0
    ensures multiset(RingPoints(f, servers, t, n))
         == multiset(Common(f, servers, t, n, u, m)) + multiset(Dropped(f, servers, t, n, u, m))
  {
    hide Quota, PointGroups, GroupRange;
    if servers != [] {
      var i := |servers| - 1;
      var s := servers[i];
      var q := Quota(s.memory, t, n);
      RingSplit(f, servers[..i], t, n, u, m);
      GroupsSplit(f, s.addr, Least(q, Quota(s.memory, u, m)), q, i);
    }
  }

  /** Point p is in a group that its server has for total t and n servers only. */
  predicate Lost(f: Compression, servers: seq<ServerInfo>, t: nat, n: nat, u: nat, m: nat, p: Mcs)
    requires t > 0 && u > 0
  {
    p.ordinal < |servers| &&
    var s := servers[p.ordinal];
    var q, r := Quota(s.memory, t, n), Quota(s.memory, u, m);
    r < q && p in GroupRange(f, s.addr, r, q, p.ordinal)
  }

  lemma {:induction false} DroppedIsLost(f: Compression, servers: seq<ServerInfo>, t: nat, n: nat, u: nat, m: nat,
                                         p: Mcs)
    requires t > 0 && u > 0
    ensures p in Dropped(f, servers, t, n, u, m) <==> Lost(f, servers, t, n, u, m, p)
  {
    hide Quota;
    if servers != [] {
      var i := |servers| - 1;
      DroppedIsLost(f, servers[..i], t, n, u, m, p);
    }
  }

  lemma InSum(a: seq<Mcs>, b: seq<Mcs>, c: seq<Mcs>, p: Mcs)
    requires multiset(a) == multiset(b) + multiset(c)
    ensures p in a <==> p in b || p in c
  {
    assert p in a <==> p in multiset(a);
    assert p in b <==> p in multiset(b);
    assert p in c <==> p in multiset(c);
  }

  lemma OnceOnly(ps: seq<Mcs>, p: Mcs)
    requires DistinctPoints(ps)
    ensures multiset(ps)[p] <= 1
  {
    if p in ps {
      var i :| 0 <= i < |ps| && ps[i] == p;
      assert ps == ps[..i] + [p] + ps[i + 1..];
      assert p !in ps[..i] && p !in ps[i + 1..];
      assert multiset(ps[..i])[p] == 0 && multiset(ps[i + 1..])[p] == 0;
    }
  }

  /** Points have been dropped and others have come: a hash keeps its point, or lost it, or is drawn to a new one. */
  lemma PointMoves(a: seq<Mcs>, b: seq<Mcs>, kept: seq<Mcs>, dropped: seq<Mcs>, gained: seq<Mcs>, h: nat,
                   before: Mcs, after: Mcs)
    requires multiset(a) == multiset(kept) + multiset(dropped) && multiset(b) == multiset(kept) + multiset(gained)
    requires DistinctPoints(b) && Serves(a, h, before) && Serves(b, h, after)
    ensures after == before || before in dropped || after in gained
  {
    InSum(a, kept, dropped, before);
    InSum(a, kept, dropped, after);
    InSum(b, kept, gained, before);
    InSum(b, kept, gained, after);
    if before !in dropped && after !in gained {
      var i :| 0 <= i < |b| && b[i] == before;
      var j :| 0 <= j < |b| && b[j] == after;
      assert i == j;
    }
  }

  /** And it does not keep a point that is gone, or was not there. */
  lemma PointGone(a: seq<Mcs>, b: seq<Mcs>, kept: seq<Mcs>, dropped: seq<Mcs>, gained: seq<Mcs>, p: Mcs)
    requires multiset(a) == multiset(kept) + multiset(dropped) && multiset(b) == multiset(kept) + multiset(gained)
    requires DistinctPoints(a) && DistinctPoints(b) && p in a && p in b
    ensures p in dropped <==> p in gained
  {
    OnceOnly(a, p);
    OnceOnly(b, p);
    assert multiset(a)[p] == multiset(kept)[p] + multiset(dropped)[p];
    assert multiset(b)[p] == multiset(kept)[p] + multiset(gained)[p];
    assert multiset(a)[p] == 1 && multiset(b)[p] == 1;
    InSum(a, kept, dropped, p);
    InSum(b, kept, gained, p);
    assert p in dropped <==> multiset(dropped)[p] > 0;
    assert p in gained <==> multiset(gained)[p] > 0;
  }

  /** The rings before and after, and who serves a hash. */
  ghost predicate Rings(f: Compression, servers: seq<ServerInfo>, added: ServerInfo, a: seq<Mcs>, b: seq<Mcs>) {
    && TotalMemory(servers) > 0 && TotalMemory(servers + [added]) > 0
    && multiset(a) == multiset(RingPoints(f, servers, TotalMemory(servers), |servers|)) && Sorted(a) && a != []
    && multiset(b) == multiset(RingPoints(f, servers + [added], TotalMemory(servers + [added]), |servers| + 1))
    && Sorted(b) && b != []
  }

  /** The points of the ring after: those in common, those that old servers gained, and those of the new server. */
  lemma {:induction false} RingAfter(f: Compression, servers: seq<ServerInfo>, added: ServerInfo)
      returns (fresh': seq<Mcs>)
    requires TotalMemory(servers) > 0 && TotalMemory(servers + [added]) > 0
    ensures var t, n, u, m := TotalMemory(servers), |servers|, TotalMemory(servers + [added]), |servers| + 1;
            && multiset(RingPoints(f, servers, t, n))
               == multiset(Common(f, servers, t, n, u, m)) + multiset(Dropped(f, servers, t, n, u, m))
            && multiset(RingPoints(f, servers + [added], u, m))
               == multiset(Common(f, servers, t, n, u, m)) + multiset(Dropped(f, servers, u, m, t, n) + fresh')
    ensures forall p | p in fresh' :: p.ordinal == |servers|
  {
    hide Quota, PointGroups, TotalMemory, Common, Dropped;
    var t, n, u, m := TotalMemory(servers), |servers|, TotalMemory(servers + [added]), |servers| + 1;
    RingSplit(f, servers, t, n, u, m);
    RingSplit(f, servers, u, m, t, n);
    CommonTwice(f, servers, t, n, u, m);
    fresh' := PointGroups(f, added.addr, Quota(added.memory, u, m), n);
    assert (servers + [added])[..n] == servers;
    assert RingPoints(f, servers + [added], u, m) == RingPoints(f, servers, u, m) + fresh';
  }

  /**
   A server is added, whatever the weights: a hash keeps its point exactly if that point is in none of the
   groups that its server loses, and the point that serves the hash now is neither one of the new server nor
   in a group that an old server gains.
   */
  lemma {:induction false} KeepsItsPointIff(f: Compression, servers: seq<ServerInfo>, added: ServerInfo,
      a: seq<Mcs>, b: seq<Mcs>, h: nat)
    requires Rings(f, servers, added, a, b) && DistinctPoints(a) && DistinctPoints(b)
    ensures var t, n, u, m := TotalMemory(servers), |servers|, TotalMemory(servers + [added]), |servers| + 1;
            var before, after := a[ServingIndex(a, h)], b[ServingIndex(b, h)];
            before == after <==> !Lost(f, servers, t, n, u, m, before)
                                 && after.ordinal != n && !Lost(f, servers, u, m, t, n, after)
  {
    hide Quota, TotalMemory, Common, Dropped, ServingIndex, GroupRange;
    var t, n, u, m := TotalMemory(servers), |servers|, TotalMemory(servers + [added]), |servers| + 1;
    var before, after := a[ServingIndex(a, h)], b[ServingIndex(b, h)];
    var fresh' := RingAfter(f, servers, added);
    var kept := Common(f, servers, t, n, u, m);
    var lost, won := Dropped(f, servers, t, n, u, m), Dropped(f, servers, u, m, t, n);
    LocatedServes(a, h);
    LocatedServes(b, h);
    PointMoves(a, b, kept, lost, won + fresh', h, before, after);
    DroppedIsLost(f, servers, t, n, u, m, before);
    DroppedIsLost(f, servers, u, m, t, n, after);
    if before == after {
      PointGone(a, b, kept, lost, won + fresh', before);
      PointOrdinal(f, servers, a, before);
    }
  }

  lemma PointOrdinal(f: Compression, servers: seq<ServerInfo>, a: seq<Mcs>, p: Mcs)
    requires TotalMemory(servers) > 0 && p in a
    requires multiset(a) == multiset(RingPoints(f, servers, TotalMemory(servers), |servers|))
    ensures p.ordinal < |servers|
  {
    var ps := RingPoints(f, servers, TotalMemory(servers), |servers|);
    assert p in multiset(a) && p in multiset(ps);
    RingOrdinals(f, servers, TotalMemory(servers), |servers|, p);
  }

  /** So a key that moves from one old server to another had a point that was lost, or has one that was gained. */
  lemma {:induction false} MovesBetweenOldServers(f: Compression, servers: seq<ServerInfo>, added: ServerInfo,
      a: seq<Mcs>, b: seq<Mcs>, h: nat)
    requires Rings(f, servers, added, a, b) && DistinctPoints(b)
    ensures var t, n, u, m := TotalMemory(servers), |servers|, TotalMemory(servers + [added]), |servers| + 1;
            var before, after := a[ServingIndex(a, h)], b[ServingIndex(b, h)];
            before == after || after.ordinal == n
            || Lost(f, servers, t, n, u, m, before) || Lost(f, servers, u, m, t, n, after)
  {
    hide Quota, TotalMemory, Common, Dropped, ServingIndex, GroupRange;
    var t, n, u, m := TotalMemory(servers), |servers|, TotalMemory(servers + [added]), |servers| + 1;
    var before, after := a[ServingIndex(a, h)], b[ServingIndex(b, h)];
    var fresh' := RingAfter(f, servers, added);
    LocatedServes(a, h);
    LocatedServes(b, h);
    PointMoves(a, b, Common(f, servers, t, n, u, m), Dropped(f, servers, t, n, u, m),
               Dropped(f, servers, u, m, t, n) + fresh', h, before, after);
    DroppedIsLost(f, servers, t, n, u, m, before);
    DroppedIsLost(f, servers, u, m, t, n, after);
  }

  // ----- Equal weights -----

  ghost predicate EqualRings(f: Compression, servers: seq<ServerInfo>, added: ServerInfo, a: seq<Mcs>, b: seq<Mcs>) {
    && Rings(f, servers, added, a, b) && DistinctPoints(b)
    && servers != [] && added.memory > 0 && forall s | s in servers :: s.memory == added.memory
  }

  lemma {:induction false} EqualQuotas(f: Compression, servers: seq<ServerInfo>, added: ServerInfo,
                                       a: seq<Mcs>, b: seq<Mcs>)
    requires EqualRings(f, servers, added, a, b)
    ensures |servers| * added.memory > 0 && (|servers| + 1) * added.memory > 0
    ensures forall i | 0 <= i < |servers| ::
      && Quota(servers[i].memory, TotalMemory(servers), |servers|)
         == (if Reaches(added.memory, |servers|) then 40 else 39)
      && Quota(servers[i].memory, TotalMemory(servers + [added]), |servers| + 1)
         == (if Reaches(added.memory, |servers| + 1) then 40 else 39)
  {
    hide Quota, Reaches, TotalMemory, RingPoints;
    EqualWeightsQuota(servers, added.memory);
    EqualWeightsQuota(servers + [added], added.memory);
    assert forall i | 0 <= i < |servers| :: servers[i] in servers;
  }

  /** The one group between 39 and 40. */
  lemma LastGroup(f: Compression, addr: seq<Byte>, ordinal: nat)
    ensures GroupRange(f, addr, 39, 40, ordinal) == PointGroup(f, addr, 39, ordinal)
  {
    hide PointGroup;
    assert GroupRange(f, addr, 39, 39, ordinal) == [];
  }

  /**
   Equal weights, and the quotas go down from 40 to 39: a hash keeps its point exactly if that point was not in
   the last group of its server and the new server has not taken it. So if it moves from one old server to
   another, its point was in that last group.
   */
  lemma {:induction false} MovesWhenQuotasFall(f: Compression, servers: seq<ServerInfo>, added: ServerInfo,
      a: seq<Mcs>, b: seq<Mcs>, h: nat)
    requires EqualRings(f, servers, added, a, b) && DistinctPoints(a)
    requires |servers| * added.memory > 0 && Reaches(added.memory, |servers|)
    requires (|servers| + 1) * added.memory > 0 && !Reaches(added.memory, |servers| + 1)
    ensures var n, before, after := |servers|, a[ServingIndex(a, h)], b[ServingIndex(b, h)];
            && before.ordinal < n
            && (before == after <==>
                  before !in PointGroup(f, servers[before.ordinal].addr, 39, before.ordinal) && after.ordinal != n)
            && (after.ordinal !in {before.ordinal, n} ==>
                  before in PointGroup(f, servers[before.ordinal].addr, 39, before.ordinal))
  {
    hide Quota, Reaches, TotalMemory, RingPoints, ServingIndex, PointGroup, GroupRange, DistinctPoints, Sorted;
    EqualQuotas(f, servers, added, a, b);
    KeepsItsPointIff(f, servers, added, a, b, h);
    var before := a[ServingIndex(a, h)];
    PointOrdinal(f, servers, a, before);
    LastGroup(f, servers[before.ordinal].addr, before.ordinal);
  }

  /**
   The quotas go up from 39 to 40: a hash keeps its point exactly if the point that serves it now is neither in
   a group that an old server has gained nor one of the new server.
   */
  lemma {:induction false} MovesWhenQuotasRise(f: Compression, servers: seq<ServerInfo>, added: ServerInfo,
      a: seq<Mcs>, b: seq<Mcs>, h: nat)
    requires EqualRings(f, servers, added, a, b) && DistinctPoints(a)
    requires |servers| * added.memory > 0 && !Reaches(added.memory, |servers|)
    requires (|servers| + 1) * added.memory > 0 && Reaches(added.memory, |servers| + 1)
    ensures var n, before, after := |servers|, a[ServingIndex(a, h)], b[ServingIndex(b, h)];
            && after.ordinal <= n
            && (before == after <==>
                  after.ordinal < n && after !in PointGroup(f, servers[after.ordinal].addr, 39, after.ordinal))
            && (after.ordinal !in {before.ordinal, n} ==>
                  after in PointGroup(f, servers[after.ordinal].addr, 39, after.ordinal))
  {
    hide Quota, Reaches, TotalMemory, RingPoints, ServingIndex, PointGroup, GroupRange, DistinctPoints, Sorted;
    EqualQuotas(f, servers, added, a, b);
    KeepsItsPointIff(f, servers, added, a, b, h);
    var after := b[ServingIndex(b, h)];
    PointOrdinal(f, servers + [added], b, after);
    if after.ordinal < |servers| {
      LastGroup(f, servers[after.ordinal].addr, after.ordinal);
    }
  }

  /** A hash that is a point is served by that point. */
  lemma ServedByItself(a: seq<Mcs>, p: Mcs)
    requires Sorted(a) && DistinctPoints(a) && p in a
    ensures a[ServingIndex(a, p.point)] == p
  {
    LocatedServes(a, p.point);
    var i := ServingIndex(a, p.point);
    var j :| 0 <= j < |a| && a[j] == p;
    assert a[i].point == p.point;
    assert i == j;
  }

  lemma {:induction false} LastGroupOnRing(f: Compression, servers: seq<ServerInfo>, t: nat, n: nat, p: Mcs)
    requires t > 0 && p.ordinal < |servers| && Quota(servers[p.ordinal].memory, t, n) == 40
    requires p in PointGroup(f, servers[p.ordinal].addr, 39, p.ordinal)
    ensures p in RingPoints(f, servers, t, n)
  {
    hide Quota, PointGroup;
    var i := |servers| - 1;
    if p.ordinal < i {
      LastGroupOnRing(f, servers[..i], t, n, p);
    } else {
      assert p in PointGroups(f, servers[i].addr, 40, i);
    }
  }

  /** When the quotas fall, then for every old server the hashes at its last four points do move. */
  lemma {:induction false} LastPointsMove(f: Compression, servers: seq<ServerInfo>, added: ServerInfo,
      a: seq<Mcs>, b: seq<Mcs>, p: Mcs)
    requires EqualRings(f, servers, added, a, b) && DistinctPoints(a)
    requires |servers| * added.memory > 0 && Reaches(added.memory, |servers|)
    requires (|servers| + 1) * added.memory > 0 && !Reaches(added.memory, |servers| + 1)
    requires p.ordinal < |servers| && p in PointGroup(f, servers[p.ordinal].addr, 39, p.ordinal)
    ensures a[ServingIndex(a, p.point)] == p && b[ServingIndex(b, p.point)] != p
  {
    hide Quota, Reaches, TotalMemory, RingPoints, ServingIndex, PointGroup, GroupRange, DistinctPoints, Sorted;
    EqualQuotas(f, servers, added, a, b);
    LastGroupOnRing(f, servers, TotalMemory(servers), |servers|, p);
    InSum(RingPoints(f, servers, TotalMemory(servers), |servers|), a, [], p);
    ServedByItself(a, p);
    MovesWhenQuotasFall(f, servers, added, a, b, p.point);
  }

  /**
   The condition on the servers alone: if their total weight is at most 2 to the 24, a new server takes keys and
   moves no key between the others, provided that n and n + 1 are both short or both not.
   */
  lemma {:induction false} EqualServers(f: Compression, servers: seq<ServerInfo>, added: ServerInfo,
      a: seq<Mcs>, b: seq<Mcs>, h: nat)
    requires EqualRings(f, servers, added, a, b) && (|servers| + 1) * added.memory <= 16777216
    requires Short(|servers|) <==> Short(|servers| + 1)
    ensures b[ServingIndex(b, h)].ordinal == a[ServingIndex(a, h)].ordinal
         || b[ServingIndex(b, h)].ordinal == |servers|
  {
    hide Quota, Reaches, TotalMemory, RingPoints, ServingIndex, Short, DistinctPoints, Sorted;
    var n, w := |servers|, added.memory;
    assert (n + 1) * w == n * w + w;
    EqualQuotas(f, servers, added, a, b);
    ShortIff(w, n);
    ShortIff(w, n + 1);
    EqualWeightsMoveKeysToNewServer(f, servers, added, a, b, h);
  }

  /** As for up to 60 servers in the end. */
  lemma {:induction false} FewEqualServers(f: Compression, servers: seq<ServerInfo>, added: ServerInfo,
      a: seq<Mcs>, b: seq<Mcs>, h: nat)
    requires EqualRings(f, servers, added, a, b)
    requires |servers| < 60 && (|servers| + 1) * added.memory <= 16777216
    ensures b[ServingIndex(b, h)].ordinal == a[ServingIndex(a, h)].ordinal
         || b[ServingIndex(b, h)].ordinal == |servers|
  {
    hide Quota, Reaches, TotalMemory, RingPoints, ServingIndex, Short, DistinctPoints, Sorted;
    ShortUpTo204(|servers|);
    ShortUpTo204(|servers| + 1);
    EqualServers(f, servers, added, a, b, h);
  }
}
