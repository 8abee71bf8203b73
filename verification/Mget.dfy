/** redis.py: mget over the servers of a hash ring. */
module Sharding {
  import opened Bytes
  import opened Grammar
  import opened Lists
  import opened Environment
  import opened Batches
  import opened Connections
  import opened Sessions
  import opened Clients
  import K = Ketama

  const MGET: seq<Byte> := [77, 71, 69, 84]

  // ----- The text of the command, and how a server reads it -----

  function Spaced(ks: seq<Key>): seq<Byte> {
    if ks == [] then [] else [SPACE] + ks[0] + Spaced(ks[1..])
  }

  function MgetText(ks: seq<Key>): seq<Byte> {
    MGET + Spaced(ks)
  }

  function Command(ks: seq<Key>): seq<Byte> {
    MgetText(ks) + [CR, LF]
  }

  lemma {:induction false} SpacedSnoc(ks: seq<Key>, k: Key)
    ensures Spaced(ks + [k]) == Spaced(ks) + ([SPACE] + k)
  {
    if ks == [] {
      assert ks + [k] == [k] && [k][1..] == [];
    } else {
      SpacedSnoc(ks[1..], k);
      assert (ks + [k])[1..] == ks[1..] + [k];
      assert [SPACE] + ks[0] + (Spaced(ks[1..]) + ([SPACE] + k)) == [SPACE] + ks[0] + Spaced(ks[1..]) + ([SPACE] + k);
    }
  }

  lemma {:induction false} SpacedTokens(ks: seq<Key>, token: seq<Byte>)
    requires token != [] && forall k | k in ks :: Plain(k)
    ensures Tokens(Spaced(ks) + [CR, LF], token) == [token] + ks
    decreases |ks|
  {
    if ks == [] {
      assert Spaced(ks) + [CR, LF] == [CR, LF];
      assert [token] + ks == [token];
    } else {
      var rest := Spaced(ks[1..]) + [CR, LF];
      assert Spaced(ks) + [CR, LF] == [SPACE] + (ks[0] + rest);
      assert ([SPACE] + (ks[0] + rest))[1..] == ks[0] + rest;
      assert Plain(ks[0]);
      TokenRead(ks[0], rest, []);
      SpacedTokens(ks[1..], ks[0]);
      assert [] + ks[0] == ks[0] && [ks[0]] + ks[1..] == ks;
    }
  }

  /** A server reads exactly the keys that were written, in order, repeats included, if and only if all are plain. */
  lemma {:induction false} MgetRead(ks: seq<Key>)
    ensures Tokens(Command(ks), []) == [[77, 71, 69, 84]] + ks <==> forall k | k in ks :: Plain(k)
  {
    if forall k | k in ks :: Plain(k) {
      assert Command(ks) == MGET + (Spaced(ks) + [CR, LF]);
      assert [] + MGET == MGET;
      TokenRead(MGET, Spaced(ks) + [CR, LF], []);
      SpacedTokens(ks, MGET);
    } else {
      TokensArePlain(Command(ks), []);
      var k :| k in ks && !Plain(k);
      assert k in [MGET] + ks;
    }
  }

  /** What each server holds. */
  type Store = (Addr, Key) -> Stored

  function Elements(store: Store, addr: Addr, ks: seq<Key>): seq<ItemValue> {
    seq(|ks|, i requires 0 <= i < |ks| => Element(store(addr, ks[i])))
  }

  /** v is what server addr replies to a line of text, if that is an MGET command. */
  ghost predicate Responds(store: Store, addr: Addr, line: seq<Byte>, v: Value) {
    var ts := Tokens(line, []);
    ts != [] && ts[0] == [77, 71, 69, 84] ==> v == MultiValue(Elements(store, addr, ts[1..]))
  }

  // ----- The batches of one mget -----

  /** The batch of one server, and the keys written into it. */
  class Shard {
    const batch: Batch
    var keys: seq<Key>

    ghost function Foot(): set<object>
      reads this, batch
    {
      {this} + batch.Repr
    }

    /** A batch that nothing has been sent of. */
    ghost predicate Unsent()
      reads this, batch, batch.Repr
    {
      && this !in batch.Repr && batch in batch.Repr
      && batch.currentReply in batch.Repr && batch.writeBuffer in batch.Repr
      && batch.Valid() && batch.AtStart() && batch.writeBuffer.Filling()
      && batch.values == [] && batch.received == [] && batch.error == null
    }

    /** The command is still being written; ks are its keys so far. */
    ghost predicate Writing(ks: seq<Key>)
      reads this, batch, batch.Repr
    {
      Unsent() && keys == ks && batch.outDone == MgetText(ks) && batch.numCommands == 0
    }

    /** The command is complete. */
    ghost predicate Written(ks: seq<Key>)
      reads this, batch, batch.Repr
    {
      Unsent() && keys == ks && batch.outDone == Command(ks) && batch.numCommands == 1
    }

    constructor ()
      ensures Writing([]) && fresh(Foot())
    {
      hide Batch.Valid;
      var b := new Batch();
      b.Within();
      b.Write(MGET, 0);
      b.Within();
      batch := b;
      keys := [];
      assert [] + MGET == MGET + [];
    }

    /** One more key: a space and the key go into the command, and the key into the list. */
    method AddKey(key: Key, ghost ks: seq<Key>)
      requires Writing(ks)
      modifies Foot()
      ensures Writing(ks + [key]) && fresh(Foot() - old(Foot()))
    {
      hide Batch.Valid;
      batch.Within();
      batch.Write([SPACE] + key, 0);
      batch.Within();
      SpacedSnoc(keys, key);
      assert MGET + Spaced(keys) + ([SPACE] + key) == MGET + (Spaced(keys) + ([SPACE] + key));
      keys := keys + [key];
    }

    /** The end of the line, which makes it a command. */
    method Finish(ghost ks: seq<Key>)
      requires Writing(ks)
      modifies Foot()
      ensures Written(ks) && fresh(Foot() - old(Foot()))
    {
      hide Batch.Valid;
      batch.Within();
      batch.Write([CR, LF], 1);
      batch.Within();
    }

    /** The command is complete, or still being written; foot is what the shard is made of. */
    ghost predicate At(ks: seq<Key>, complete: bool, foot: set<object>)
      reads this, batch, batch.Repr
    {
      foot == Foot() && if complete then Written(ks) else Writing(ks)
    }

    twostate lemma AtKept(ks: seq<Key>, new complete: bool, new foot: set<object>)
      requires old(allocated(foot))
      requires old(At(ks, complete, foot)) && forall o | o in foot :: unchanged(o)
      ensures At(ks, complete, foot)
    {
      hide Batch.Valid;
      assert this in old(Foot()) && batch in old(Foot());
    }

    twostate lemma WritingKept(ks: seq<Key>)
      requires old(Writing(ks)) && forall o | o in old(Foot()) :: unchanged(o)
      ensures Writing(ks) && Foot() == old(Foot())
    {
      hide Batch.Valid;
      assert this in old(Foot()) && batch in old(Foot());
    }
  }

  /** The keys of a list that belong to addr, in their order. */
  function KeysFor(owner: Key -> Addr, keys: seq<Key>, addr: Addr): (r: seq<Key>)
    ensures forall k :: k in r <==> k in keys && owner(k) == addr
  {
    if keys == [] then []
    else
      var init, last := keys[..|keys| - 1], keys[|keys| - 1];
      assert keys == init + [last];
      KeysFor(owner, init, addr) + if owner(last) == addr then [last] else []
  }

  lemma KeysForSnoc(owner: Key -> Addr, keys: seq<Key>, key: Key, addr: Addr)
    ensures KeysFor(owner, keys + [key], addr) == KeysFor(owner, keys, addr) + if owner(key) == addr then [key] else []
  {
    assert (keys + [key])[..|keys|] == keys;
  }

  /** They are picked one by one, in order, repeats included. */
  lemma {:induction false} KeysForParts(owner: Key -> Addr, xs: seq<Key>, ys: seq<Key>, addr: Addr)
    ensures KeysFor(owner, xs + ys, addr) == KeysFor(owner, xs, addr) + KeysFor(owner, ys, addr)
    ensures |ys| == 1 ==> KeysFor(owner, ys, addr) == if owner(ys[0]) == addr then ys else []
    decreases |ys|
  {
    hide KeysFor;
    KeysForNone(owner, addr);
    if ys == [] {
      assert xs + ys == xs;
    } else {
      var init, last := ys[..|ys| - 1], ys[|ys| - 1];
      KeysForParts(owner, xs, init, addr);
      KeysForSnoc(owner, xs + init, last, addr);
      KeysForSnoc(owner, init, last, addr);
      assert xs + ys == xs + init + [last] && ys == init + [last];
    }
  }

  lemma KeysForNone(owner: Key -> Addr, addr: Addr)
    ensures KeysFor(owner, [], addr) == []
  {
  }

  /** The servers that own some key of a list. */
  function Owners(owner: Key -> Addr, keys: seq<Key>): set<Addr> {
    set k | k in keys :: owner(k)
  }

  lemma OwnersSnoc(owner: Key -> Addr, keys: seq<Key>, key: Key)
    ensures Owners(owner, keys + [key]) == Owners(owner, keys) + {owner(key)}
  {
  }

  lemma {:induction false} NotOwned(owner: Key -> Addr, keys: seq<Key>, addr: Addr)
    requires addr !in Owners(owner, keys)
    ensures KeysFor(owner, keys, addr) == []
  {
    if keys != [] {
      var init, last := keys[..|keys| - 1], keys[|keys| - 1];
      assert keys == init + [last];
      OwnersSnoc(owner, init, last);
      NotOwned(owner, init, addr);
    }
  }

  /** The first loop of mget: every key into the batch of its server. */
  method Distribute(ring: K.Ketama, keys: seq<Key>, ghost owner: Key -> Addr)
    returns (shards: map<Addr, Shard>, ghost feet: map<Addr, set<object>>)
    requires ring.Valid() && ring.continuum != null
    requires forall k | k in keys :: |k| < 0x8000_0000 && owner(k) == ring.AddressOf(k)
    ensures feet.Keys == shards.Keys == Owners(owner, keys) && Apart(feet)
    ensures forall a | a in shards ::
      shards[a].Writing(KeysFor(owner, keys, a)) && shards[a].Foot() == feet[a] && fresh(feet[a])
  {
    hide Shard.Writing, Shard.Foot, KeysFor, Owners, Apart, K.Ketama.Valid, K.Ketama.RingValid, K.Ketama.AddressOf;
    shards, feet := map[], map[];
    NothingApart(owner);
    for i := 0 to |keys|
      invariant feet.Keys == shards.Keys == Owners(owner, keys[..i]) && Apart(feet)
      invariant forall a | a in shards ::
        shards[a].Writing(KeysFor(owner, keys[..i], a)) && shards[a].Foot() == feet[a] && fresh(feet[a])
    {
      var key := keys[i];
      assert keys[..i + 1] == keys[..i] + [key];
      var addr := ServerOf(ring, key);
      ghost var before := feet;
      shards, feet := PutKey(shards, feet, key, addr, owner, keys[..i]);
      forall a | a in shards
        ensures fresh(feet[a])
      {
        assert a == addr || feet[a] == before[a];
      }
    }
    assert keys[..|keys|] == keys;
  }

  lemma NothingApart(owner: Key -> Addr)
    ensures Apart(map[]) && Owners(owner, []) == {}
  {
  }

  /** The address of the server that the ring gives to the key. */
  method ServerOf(ring: K.Ketama, key: Key) returns (addr: Addr)
    requires ring.Valid() && ring.continuum != null && |key| < 0x8000_0000
    ensures addr == ring.AddressOf(key)
  {
    hide K.Ketama.Owner;
    var ordinal := ring.GetServerOrdinal(key);
    addr := ring.GetServerAddress(ordinal);
  }

  /** One turn of that loop, for a key of server addr. */
  method PutKey(shards: map<Addr, Shard>, ghost feet: map<Addr, set<object>>, key: Key, addr: Addr,
                ghost owner: Key -> Addr, ghost before: seq<Key>)
    returns (shards': map<Addr, Shard>, ghost feet': map<Addr, set<object>>)
    requires feet.Keys == shards.Keys == Owners(owner, before) && Apart(feet) && addr == owner(key)
    requires forall a | a in shards :: shards[a].Writing(KeysFor(owner, before, a)) && shards[a].Foot() == feet[a]
    modifies if addr in feet then feet[addr] else {}
    ensures feet'.Keys == shards'.Keys == Owners(owner, before + [key]) && Apart(feet')
    ensures forall a | a in shards' ::
      shards'[a].Writing(KeysFor(owner, before + [key], a)) && shards'[a].Foot() == feet'[a]
    ensures shards'.Keys == shards.Keys + {addr}
    ensures fresh(feet'[addr] - (if addr in feet then feet[addr] else {}))
    ensures forall a | a in feet && a != addr :: feet'[a] == feet[a]
  {
    hide Shard.Writing, KeysFor, Owners;
    OwnersSnoc(owner, before, key);
    var shard;
    if addr in shards {
      shard := shards[addr];
      shards' := shards;
    } else {
      NotOwned(owner, before, addr);
      shard := new Shard();
      shards' := shards[addr := shard];
    }
    ghost var foot := shard.Foot();
    shard.AddKey(key, KeysFor(owner, before, addr));
    feet' := feet[addr := shard.Foot()];
    assert feet'[addr] - (if addr in feet then feet[addr] else {})
        <= (feet'[addr] - foot) + (if addr in feet then {} else foot);
    forall a | a in shards'
      ensures shards'[a].Writing(KeysFor(owner, before + [key], a)) && shards'[a].Foot() == feet'[a]
    {
      KeysForSnoc(owner, before, key, a);
      if a != addr {
        shards[a].WritingKept(KeysFor(owner, before, a));
        assert KeysFor(owner, before, a) + [] == KeysFor(owner, before, a);
      }
    }
  }

  // ----- Reading the answers -----

  /** The entries of the reply to an MGET command. */
  lemma MgetEntries(store: Store, addr: Addr, ks: seq<Key>)
    ensures var es := Flatten([MultiValue(Elements(store, addr, ks))]);
            && |es| == |ks| + 1 && es[0] == Entry(1, RtMultiBulk, NoData, |ks|)
            && forall i | 0 <= i < |ks| :: es[i + 1] == ItemEntry(2, Element(store(addr, ks[i])))
  {
    hide Flatten;
    var items := Elements(store, addr, ks);
    FlattenOne(MultiValue(items));
    assert ValueEntries(MultiValue(items))[1..] == ChildEntries(items);
  }

  /** The first reply is a multibulk reply. */
  predicate OpensMulti(vs: seq<Value>) {
    Flatten(vs) != [] && Flatten(vs)[0].rtype == RtMultiBulk
  }

  predicate Present(store: Store, addr: Addr, ks: seq<Key>) {
    forall k | k in ks :: store(addr, k).Holds?
  }

  /** results with what server addr holds under the keys ks. */
  ghost predicate Added(store: Store, addr: Addr, ks: seq<Key>, before: map<Key, PyValue>, after: map<Key, PyValue>) {
    && (forall k :: k in after <==> k in before || k in ks)
    && forall k | k in after ::
         if k in ks then store(addr, k).Holds? && after[k] == Text(store(addr, k).value)
         else k in before && after[k] == before[k]
  }

  lemma AddedSnoc(store: Store, addr: Addr, ks: seq<Key>, i: nat, before: map<Key, PyValue>, after: map<Key, PyValue>)
    requires i < |ks| && store(addr, ks[i]).Holds? && Added(store, addr, ks[..i], before, after)
    ensures Added(store, addr, ks[..i + 1], before, after[ks[i] := Text(store(addr, ks[i]).value)])
  {
    assert ks[..i + 1] == ks[..i] + [ks[i]];
    assert forall k :: k in ks[..i + 1] <==> k in ks[..i] || k == ks[i];
  }

  /** The last loop of mget, for one batch. */
  method ReadShard(shard: Shard, results: map<Key, PyValue>, ghost store: Store, ghost addr: Addr, ghost served: bool)
    returns (ok: bool, results': map<Key, PyValue>)
    requires shard.batch.Valid() && shard.batch.AtStart()
    requires served ==> shard.batch.values == [MultiValue(Elements(store, addr, shard.keys))]
    modifies shard.batch`currentReplySp, shard.batch`cursor, shard.batch.currentReply
    ensures shard.batch.Valid()
    ensures ok ==> OpensMulti(shard.batch.values)
    ensures served ==> (ok <==> Present(store, addr, shard.keys))
    ensures served && ok ==> Added(store, addr, shard.keys, results, results')
  {
    hide Batch.Valid, Batch.IterValid, Batch.Position, Flatten, Elements;
    var batch, keys := shard.batch, shard.keys;
    batch.StartOfPass();
    MgetEntries(store, addr, keys);
    var raised, rtype, value := FromNext(batch);
    if raised || rtype != RtMultiBulk {
      return false, results;
    }
    results' := results;
    for i := 0 to |keys|
      invariant batch.Valid() && batch.IterValid() && batch.values == old(batch.values) && shard.keys == keys
      invariant served ==> batch.Position() == i + 1
      invariant served ==> Present(store, addr, keys[..i]) && Added(store, addr, keys[..i], results, results')
    {
      raised, rtype, value := FromNext(batch);
      assert served ==> (raised <==> store(addr, keys[i]).Missing?);
      if raised {
        assert keys[i] in keys;
        return false, results';
      }
      if served {
        AddedSnoc(store, addr, keys, i, results, results');
      }
      results' := results'[keys[i] := value];
    }
    assert keys[..|keys|] == keys;
    return true, results';
  }

  // ----- mget -----

  ghost function Merge(feet: map<Addr, set<object>>): set<object> {
    set a, o | a in feet && o in feet[a] :: o
  }

  /** Nothing in a is under any address in b. */
  ghost predicate Outside(a: set<object>, feet: map<Addr, set<object>>) {
    forall x | x in feet :: a !! feet[x]
  }

  /** The batches of the addresses in todo are still to be completed. */
  ghost predicate Shards(shards: map<Addr, Shard>, feet: map<Addr, set<object>>, owner: Key -> Addr, keys: seq<Key>,
                         todo: set<Addr>)
    reads shards.Values, set s | s in shards.Values :: s.batch
    reads set s, o | s in shards.Values && o in s.batch.Repr :: o
  {
    && feet.Keys == shards.Keys && Apart(feet)
    && forall a | a in shards :: shards[a].At(KeysFor(owner, keys, a), a !in todo, feet[a])
  }

  /** Other things have happened. */
  twostate lemma ShardsKept(shards: map<Addr, Shard>, new feet: map<Addr, set<object>>, new owner: Key -> Addr,
                            new keys: seq<Key>, new todo: set<Addr>)
    requires old(allocated(feet) && allocated(owner))
    requires old(Shards(shards, feet, owner, keys, todo))
    requires forall o | o in Merge(feet) :: unchanged(o)
    ensures Shards(shards, feet, owner, keys, todo)
  {
    hide Shard.At, KeysFor;
    forall a | a in shards
      ensures shards[a].At(KeysFor(owner, keys, a), a !in todo, feet[a])
    {
      assert forall o | o in feet[a] :: o in Merge(feet);
      shards[a].AtKept(KeysFor(owner, keys, a), a !in todo, feet[a]);
    }
  }

  /** The command of one batch is completed. */
  method FinishShard(shards: map<Addr, Shard>, ghost feet: map<Addr, set<object>>, ghost owner: Key -> Addr,
                     ghost keys: seq<Key>, addr: Addr, ghost todo: set<Addr>)
    returns (ghost feet': map<Addr, set<object>>)
    requires Shards(shards, feet, owner, keys, todo) && addr in todo && todo <= shards.Keys
    modifies feet[addr]
    ensures Shards(shards, feet', owner, keys, todo - {addr})
    ensures addr in feet && addr in feet' && feet' == feet[addr := feet'[addr]]
    ensures fresh(feet'[addr] - feet[addr])
  {
    hide KeysFor, Shard.Writing, Shard.Written;
    shards[addr].Finish(KeysFor(owner, keys, addr));
    feet' := feet[addr := shards[addr].Foot()];
    forall a | a in shards
      ensures shards[a].At(KeysFor(owner, keys, a), a !in todo - {addr}, feet'[a])
    {
      if a != addr {
        shards[a].AtKept(KeysFor(owner, keys, a), a !in todo, feet[a]);
      }
    }
  }

  /** The pairs of the executor: the batch of order[k] on the connection to order[k]. */
  ghost predicate Paired(e: Executor, shards: map<Addr, Shard>, connections: map<Addr, Connection>, order: seq<Addr>)
    reads e, e.fds
  {
    && |e.pairs| == |order| <= e.fds.Length == MAX_PAIRS
    && (forall j, k :: 0 <= j < k < |order| ==> order[j] != order[k])
    && forall k | 0 <= k < |order| ::
         && order[k] in shards && order[k] in connections
         && e.pairs[k] == Pair(shards[order[k]].batch, connections[order[k]])
         && e.fds[k] == PollFd(0, false, false, false, false)
  }

  /** What the connections and the batches are made of, and the things outside. */
  ghost predicate Layout(own: map<Addr, set<object>>, feet: map<Addr, set<object>>, others: set<object>) {
    && Apart(own) && Apart(feet) && Outside(others, own) && Outside(others, feet)
    && forall a, b | a in own && b in feet :: own[a] !! feet[b]
  }

  /** Batches and connections have grown by some of the objects in made, and there are new connections. */
  ghost predicate Enlarged(feet: map<Addr, set<object>>, own: map<Addr, set<object>>,
                        feet': map<Addr, set<object>>, own': map<Addr, set<object>>, made: set<object>) {
    && feet'.Keys == feet.Keys && (forall a | a in feet :: feet'[a] <= feet[a] + made)
    && GrownBy(own, own') && forall a | a in own' && a !in own :: own'[a] <= made
  }

  lemma GrownOn(feet: map<Addr, set<object>>, own: map<Addr, set<object>>,
                feet': map<Addr, set<object>>, own': map<Addr, set<object>>, made: set<object>,
                feet'': map<Addr, set<object>>, own'': map<Addr, set<object>>, more: set<object>)
    requires Enlarged(feet, own, feet', own', made) && Enlarged(feet', own', feet'', own'', more)
    ensures Enlarged(feet, own, feet'', own'', made + more)
  {
  }

  lemma NotGrown(feet: map<Addr, set<object>>, own: map<Addr, set<object>>)
    ensures Enlarged(feet, own, feet, own, {})
  {
  }

  lemma GrownAt(feet: map<Addr, set<object>>, own: map<Addr, set<object>>, addr: Addr,
                feet': map<Addr, set<object>>, own': map<Addr, set<object>>)
    requires addr in feet && addr in feet' && feet' == feet[addr := feet'[addr]]
    requires own'.Keys == own.Keys + {addr} && GrownBy(own, own')
    ensures Enlarged(feet, own, feet', own', (feet'[addr] - feet[addr]) + if addr in own then {} else own'[addr])
  {
  }

  lemma GrownOne(feet: map<Addr, set<object>>, own: map<Addr, set<object>>, addr: Addr,
                 feet': map<Addr, set<object>>, own': map<Addr, set<object>>, made: set<object>)
    requires Enlarged(feet, own, feet', own', made) && addr in feet
    ensures addr in feet' && feet'[addr] <= feet[addr] + made && feet[addr] <= Merge(feet)
  {
  }

  /** Of all servers, those in order have a pair, those in left have been refused one, and todo is to come. */
  ghost predicate Allotted(all: set<Addr>, order: seq<Addr>, left: set<Addr>, todo: set<Addr>) {
    && todo <= all && left <= all && left !! todo
    && |order| + |left| + |todo| == |all| && |order| <= MAX_PAIRS && (left != {} ==> |order| == MAX_PAIRS)
    && forall a | a in all :: a in order <==> a !in todo && a !in left
  }

  lemma NoneAllotted(all: set<Addr>)
    ensures Allotted(all, [], {}, all)
  {
  }

  lemma NextAllotted(all: set<Addr>, order: seq<Addr>, left: set<Addr>, todo: set<Addr>, addr: Addr)
    requires Allotted(all, order, left, todo) && addr in todo
    ensures Allotted(all, Enlisted(order, addr), if |order| < MAX_PAIRS then left else left + {addr}, todo - {addr})
    ensures addr !in order && |order| <= MAX_PAIRS
  {
  }

  lemma AllAllotted(all: set<Addr>, order: seq<Addr>, left: set<Addr>)
    requires Allotted(all, order, left, {})
    ensures left <= all && (left == {} <==> |all| <= MAX_PAIRS)
    ensures forall a | a in all :: a in order <==> a !in left
  {
  }

  /**
   The second loop of mget: every batch is completed, and added to the executor with its connection. The
   executor takes 1024 pairs; the batches in left are those that it refused, which goes unnoticed.
   */
  method Enlist(shards: map<Addr, Shard>, manager: ConnectionManager, executor: Executor,
                ghost owner: Key -> Addr, ghost keys: seq<Key>,
                ghost feet: map<Addr, set<object>>, ghost own: map<Addr, set<object>>,
                ghost history: map<Addr, seq<Record>>, ghost others: set<object>)
    returns (ghost order: seq<Addr>, ghost left: set<Addr>,
             ghost feet': map<Addr, set<object>>, ghost own': map<Addr, set<object>>,
             ghost history': map<Addr, seq<Record>>, ghost made: set<object>)
    requires Shards(shards, feet, owner, keys, shards.Keys) && shards.Keys == feet.Keys && manager.Knows(own, history)
    requires Layout(own, feet, others) && {manager, executor, executor.fds} <= others
    requires executor.pairs == [] && executor.fds.Length == MAX_PAIRS
    modifies manager, executor`pairs, executor.fds, Merge(feet)
    ensures Shards(shards, feet', owner, keys, {}) && manager.Knows(own', history')
    ensures Layout(own', feet', others)
    ensures Paired(executor, shards, manager.connections, order)
    ensures forall a | a in shards :: a in own' && (a in order <==> a !in left)
    ensures left <= shards.Keys && (left == {} <==> |shards| <= MAX_PAIRS)
    ensures Enlarged(feet, own, feet', own', made) && fresh(made)
    ensures Kept(old(manager.connections), history, manager.connections, history')
  {
    hide Shards, ConnectionManager.Knows, Layout, Paired, Apart, Outside, Enlarged, Merge, Kept, Allotted, Enlisted;
    order, left, feet', own', history', made := [], {}, feet, own, history, {};
    NonePaired(executor, shards, manager.connections);
    NoneAllotted(shards.Keys);
    NotGrown(feet, own);
    KeptSame(manager, own, history);
    ghost var connections := manager.connections;
    var todo := shards.Keys;
    while todo != {}
      invariant todo <= shards.Keys && Allotted(shards.Keys, order, left, todo)
      invariant forall a | a in shards && a !in todo :: a in own'
      invariant Shards(shards, feet', owner, keys, todo) && manager.Knows(own', history')
      invariant Layout(own', feet', others) && feet'.Keys == shards.Keys
      invariant Paired(executor, shards, manager.connections, order)
      invariant Enlarged(feet, own, feet', own', made) && fresh(made)
      invariant Kept(connections, history, manager.connections, history')
    {
      var addr :| addr in todo;
      ghost var feetBefore, ownBefore := feet', own';
      ghost var connectionsBefore, historyBefore := manager.connections, history';
      GrownOne(feet, own, addr, feet', own', made);
      ghost var more;
      NextAllotted(shards.Keys, order, left, todo, addr);
      left := if |order| < MAX_PAIRS then left else left + {addr};
      order, feet', own', history', more :=
        EnlistOne(shards, manager, executor, addr, owner, keys, feet', own', history', order, todo, others);
      GrownOn(feet, own, feetBefore, ownBefore, made, feet', own', more);
      KeptOn(connections, history, connectionsBefore, historyBefore, manager.connections, history');
      assert fresh(made);
      assert fresh(made + more);
      made := made + more;
      todo := todo - {addr};
    }
    AllAllotted(shards.Keys, order, left);
  }

  lemma KeptSame(manager: ConnectionManager, own: map<Addr, set<object>>, history: map<Addr, seq<Record>>)
    requires manager.Knows(own, history)
    ensures Kept(manager.connections, history, manager.connections, history)
  {
    hide Available;
  }

  lemma KeptOn(connections: map<Addr, Connection>, history: map<Addr, seq<Record>>,
               connections': map<Addr, Connection>, history': map<Addr, seq<Record>>,
               connections'': map<Addr, Connection>, history'': map<Addr, seq<Record>>)
    requires Kept(connections, history, connections', history')
    requires Kept(connections', history', connections'', history'')
    ensures Kept(connections, history, connections'', history'')
  {
  }

  lemma KeptConnections(connections: map<Addr, Connection>, history: map<Addr, seq<Record>>,
                        connections': map<Addr, Connection>, history': map<Addr, seq<Record>>)
    requires Kept(connections, history, connections', history')
    ensures forall a | a in connections :: a in connections' && connections'[a] == connections[a]
  {
  }

  lemma PairedFacts(e: Executor, shards: map<Addr, Shard>, connections: map<Addr, Connection>, order: seq<Addr>)
    requires Paired(e, shards, connections, order)
    ensures |e.pairs| == |order| <= MAX_PAIRS == e.fds.Length
    ensures forall j, k :: 0 <= j < k < |order| ==> order[j] != order[k]
    ensures forall a | a in order :: a in shards && a in connections
  {
  }

  lemma NonePaired(e: Executor, shards: map<Addr, Shard>, connections: map<Addr, Connection>)
    requires e.pairs == [] && e.fds.Length == MAX_PAIRS
    ensures Paired(e, shards, connections, [])
  {
  }

  lemma PairedGrown(e: Executor, shards: map<Addr, Shard>, connections: map<Addr, Connection>,
                    connections': map<Addr, Connection>, order: seq<Addr>)
    requires Paired(e, shards, connections, order)
    requires forall a | a in connections :: a in connections' && connections'[a] == connections[a]
    ensures Paired(e, shards, connections', order)
  {
  }

  twostate lemma PairedAdded(e: Executor, new shards: map<Addr, Shard>, new connections: map<Addr, Connection>,
                             new order: seq<Addr>, new addr: Addr)
    requires old(allocated(shards) && allocated(connections))
    requires old(Paired(e, shards, connections, order)) && addr !in order && |order| < MAX_PAIRS
    requires addr in shards && addr in connections
    requires e.pairs == old(e.pairs) + [Pair(shards[addr].batch, connections[addr])]
    requires e.fds[..] == old(e.fds[..])[old(|e.pairs|) := PollFd(0, false, false, false, false)]
    ensures Paired(e, shards, connections, order + [addr])
  {
    var o := order + [addr];
    forall k | 0 <= k < |o|
      ensures e.fds[k] == PollFd(0, false, false, false, false)
    {
      assert e.fds[k] == e.fds[..][k];
      assert k < |order| ==> old(e.fds[k]) == old(e.fds[..])[k];
    }
  }

  /** A full executor refuses the pair. */
  twostate lemma PairedRefused(e: Executor, new shards: map<Addr, Shard>, new connections: map<Addr, Connection>,
                               new order: seq<Addr>)
    requires old(allocated(shards) && allocated(connections))
    requires old(Paired(e, shards, connections, order))
    requires e.pairs == old(e.pairs) && e.fds[..] == old(e.fds[..])
    ensures Paired(e, shards, connections, order)
  {
    forall k | 0 <= k < |order|
      ensures e.fds[k] == old(e.fds[k])
    {
      assert e.fds[k] == e.fds[..][k] && old(e.fds[k]) == old(e.fds[..])[k];
    }
  }

  /** The pairs once the executor has been given one more: there is one more if there was room for it. */
  function Enlisted(order: seq<Addr>, addr: Addr): seq<Addr> {
    if |order| < MAX_PAIRS then order + [addr] else order
  }

  lemma MergeOutside(feet: map<Addr, set<object>>, others: set<object>)
    requires forall a | a in feet :: feet[a] !! others
    ensures Merge(feet) !! others
  {
  }

  lemma LayoutFacts(own: map<Addr, set<object>>, feet: map<Addr, set<object>>, others: set<object>)
    requires Layout(own, feet, others)
    ensures forall a | a in own :: own[a] !! others
    ensures forall a | a in feet :: feet[a] !! others
    ensures forall a, b | a in own && b in feet :: own[a] !! feet[b]
  {
  }

  /** One batch has grown by new objects. */
  twostate lemma LayoutFeet(own: map<Addr, set<object>>, new feet: map<Addr, set<object>>,
                            new feet': map<Addr, set<object>>, new addr: Addr, new others: set<object>)
    requires old(allocated(feet) && allocated(others)) && addr in feet
    requires addr in feet' && feet' == feet[addr := feet'[addr]] && fresh(feet'[addr] - feet[addr])
    requires Layout(own, feet, others)
    ensures Layout(own, feet', others)
  {
  }

  /** There is a new connection. */
  twostate lemma LayoutOwn(own: map<Addr, set<object>>, new own': map<Addr, set<object>>,
                           new feet: map<Addr, set<object>>, new addr: Addr, new others: set<object>)
    requires old(allocated(feet) && allocated(others)) && own'.Keys == own.Keys + {addr} && GrownBy(own, own')
    requires Layout(own, feet, others) && (addr !in own ==> fresh(own'[addr]))
    ensures Layout(own', feet, others)
  {
  }

  /** get_connection and executor.add, for the completed batch of addr. */
  method Assign(shards: map<Addr, Shard>, manager: ConnectionManager, executor: Executor, addr: Addr,
                ghost owner: Key -> Addr, ghost keys: seq<Key>,
                ghost feet: map<Addr, set<object>>, ghost own: map<Addr, set<object>>,
                ghost history: map<Addr, seq<Record>>,
                ghost order: seq<Addr>, ghost todo: set<Addr>, ghost others: set<object>)
    returns (ghost own': map<Addr, set<object>>, ghost history': map<Addr, seq<Record>>)
    requires Shards(shards, feet, owner, keys, todo) && manager.Knows(own, history)
    requires addr in shards && addr !in order
    requires Layout(own, feet, others) && {manager, executor, executor.fds} <= others
    requires Paired(executor, shards, manager.connections, order)
    modifies manager, executor`pairs, executor.fds
    ensures Shards(shards, feet, owner, keys, todo) && manager.Knows(own', history')
    ensures Layout(own', feet, others)
    ensures Paired(executor, shards, manager.connections, Enlisted(order, addr))
    ensures Kept(old(manager.connections), history, manager.connections, history')
    ensures own'.Keys == own.Keys + {addr} && GrownBy(own, own') && (addr !in own ==> fresh(own'[addr]))
  {
    hide Shards, ConnectionManager.Knows, Layout, Outside, Apart, Paired, Kept;
    ghost var connections := manager.connections;
    var connection;
    connection, own', history' := manager.GetConnection(addr, own, history);
    LayoutOwn(own, own', feet, addr, others);
    LayoutFacts(own', feet, others);
    PairedFacts(executor, shards, connections, order);
    KeptConnections(connections, history, manager.connections, history');
    PairedGrown(executor, shards, connections, manager.connections, order);
    label Known:
    var added := executor.Add(connection, shards[addr].batch);
    manager.KnowsKept@Known(own', history');
    MergeOutside(feet, others);
    ShardsKept(shards, feet, owner, keys, todo);
    if added == 0 {
      PairedAdded@Known(executor, shards, manager.connections, order, addr);
    } else {
      PairedRefused@Known(executor, shards, manager.connections, order);
    }
  }

  /** One turn of that loop. */
  method EnlistOne(shards: map<Addr, Shard>, manager: ConnectionManager, executor: Executor, addr: Addr,
                   ghost owner: Key -> Addr, ghost keys: seq<Key>,
                   ghost feet: map<Addr, set<object>>, ghost own: map<Addr, set<object>>,
                   ghost history: map<Addr, seq<Record>>,
                   ghost order: seq<Addr>, ghost todo: set<Addr>, ghost others: set<object>)
    returns (ghost order': seq<Addr>, ghost feet': map<Addr, set<object>>, ghost own': map<Addr, set<object>>,
             ghost history': map<Addr, seq<Record>>, ghost made: set<object>)
    requires Shards(shards, feet, owner, keys, todo) && addr in todo && todo <= shards.Keys == feet.Keys
    requires manager.Knows(own, history)
    requires addr !in order
    requires Layout(own, feet, others) && {manager, executor, executor.fds} <= others
    requires Paired(executor, shards, manager.connections, order)
    modifies manager, executor`pairs, executor.fds, feet[addr]
    ensures Shards(shards, feet', owner, keys, todo - {addr}) && manager.Knows(own', history')
    ensures order' == Enlisted(order, addr) && addr in own' && forall a | a in own :: a in own'
    ensures Kept(old(manager.connections), history, manager.connections, history')
    ensures Layout(own', feet', others)
    ensures Paired(executor, shards, manager.connections, order')
    ensures feet'.Keys == feet.Keys && Enlarged(feet, own, feet', own', made) && fresh(made)
  {
    hide Enlarged, Shards, ConnectionManager.Knows, Layout, Outside, Apart, Paired, Kept;
    LayoutFacts(own, feet, others);
    feet' := FinishShard(shards, feet, owner, keys, addr, todo);
    manager.KnowsKept(own, history);
    LayoutFeet(own, feet, feet', addr, others);
    own', history' := Assign(shards, manager, executor, addr, owner, keys, feet', own, history, order, todo - {addr},
                             others);
    order' := Enlisted(order, addr);
    made := (feet'[addr] - feet[addr]) + if addr in own then {} else own'[addr];
    GrownAt(feet, own, addr, feet', own');
  }

  /** A batch whose replies have not been read yet. */
  ghost predicate Readable(b: Batch, repr: set<object>)
    reads b, b.Repr
  {
    b.Repr == repr && b in repr && b.currentReply in repr && b.Valid() && b.AtStart()
  }

  twostate lemma ReadableKept(b: Batch, new repr: set<object>)
    requires old(allocated(repr))
    requires old(Readable(b, repr)) && forall o | o in repr :: unchanged(o)
    ensures Readable(b, repr)
  {
    hide Batch.Valid;
  }

  /** The results are right for all keys but those of the servers in todo, and there are no others. */
  ghost predicate Gathered(store: Store, owner: Key -> Addr, keys: seq<Key>, todo: set<Addr>,
                           results: map<Key, PyValue>) {
    && (forall k :: k in results <==> k in keys && owner(k) !in todo)
    && forall k | k in results ::
         store(owner(k), k).Holds? && results[k] == Text(store(owner(k), k).value)
  }

  lemma GatheredMore(store: Store, owner: Key -> Addr, keys: seq<Key>, todo: set<Addr>, addr: Addr,
                     results: map<Key, PyValue>, results': map<Key, PyValue>)
    requires Gathered(store, owner, keys, todo, results) && addr in todo
    requires Added(store, addr, KeysFor(owner, keys, addr), results, results')
    ensures Gathered(store, owner, keys, todo - {addr}, results')
  {
  }

  /** A map from exactly the keys to what their servers hold. */
  ghost predicate AllFound(store: Store, owner: Key -> Addr, keys: seq<Key>, results: map<Key, PyValue>) {
    && (forall k :: k in results <==> k in keys)
    && forall k | k in keys ::
         k in results && store(owner(k), k).Holds? && results[k] == Text(store(owner(k), k).value)
  }

  lemma GatheredNone(store: Store, owner: Key -> Addr, keys: seq<Key>)
    ensures Gathered(store, owner, keys, Owners(owner, keys), map[])
  {
    assert forall k | k in keys :: owner(k) in Owners(owner, keys);
  }

  lemma GatheredAll(store: Store, owner: Key -> Addr, keys: seq<Key>, results: map<Key, PyValue>)
    requires Gathered(store, owner, keys, {}, results)
    ensures AllFound(store, owner, keys, results)
  {
  }

  lemma FoundHolds(store: Store, owner: Key -> Addr, keys: seq<Key>, results: map<Key, PyValue>)
    requires AllFound(store, owner, keys, results)
    ensures forall k | k in keys :: store(owner(k), k).Holds?
  {
  }

  lemma SomeMissing(store: Store, owner: Key -> Addr, keys: seq<Key>, addr: Addr)
    requires !Present(store, addr, KeysFor(owner, keys, addr))
    ensures exists k :: k in keys && store(owner(k), k).Missing?
  {
    var k :| k in KeysFor(owner, keys, addr) && store(addr, k).Missing?;
    assert k in keys && owner(k) == addr;
  }

  /** The last loop of mget: the replies of all batches, in any order of the batches. */
  method Collect(shards: map<Addr, Shard>, ghost reprs: map<Addr, set<object>>,
                 ghost owner: Key -> Addr, ghost keys: seq<Key>, ghost store: Store, ghost served: bool)
    returns (ok: bool, results: map<Key, PyValue>)
    requires reprs.Keys == shards.Keys == Owners(owner, keys) && Apart(reprs)
    requires forall a | a in shards ::
      Readable(shards[a].batch, reprs[a]) && shards[a].keys == KeysFor(owner, keys, a)
    requires served ==> forall a | a in shards ::
      shards[a].batch.values == [MultiValue(Elements(store, a, KeysFor(owner, keys, a)))]
    modifies (set a | a in shards :: shards[a].batch)`currentReplySp
    modifies (set a | a in shards :: shards[a].batch)`cursor
    modifies set a | a in shards :: shards[a].batch.currentReply
    ensures ok ==> forall a | a in shards :: OpensMulti(shards[a].batch.values)
    ensures served ==> (ok <==> forall k | k in keys :: store(owner(k), k).Holds?)
    ensures served && ok ==> AllFound(store, owner, keys, results)
  {
    hide Readable, KeysFor, Elements, Apart, Gathered, Owners, OpensMulti, AllFound;
    results := map[];
    var todo := shards.Keys;
    GatheredNone(store, owner, keys);
    while todo != {}
      invariant todo <= shards.Keys
      invariant forall a | a in todo :: Readable(shards[a].batch, reprs[a])
      invariant forall a | a in shards && a !in todo :: OpensMulti(shards[a].batch.values)
      invariant served ==> Gathered(store, owner, keys, todo, results)
    {
      var addr :| addr in todo;
      ok, results := CollectOne(shards, reprs, owner, keys, store, served, addr, todo, results);
      if !ok {
        return;
      }
      todo := todo - {addr};
    }
    if served {
      GatheredAll(store, owner, keys, results);
      FoundHolds(store, owner, keys, results);
    }
    ok := true;
  }

  /** One turn of that loop. */
  method CollectOne(shards: map<Addr, Shard>, ghost reprs: map<Addr, set<object>>,
                    ghost owner: Key -> Addr, ghost keys: seq<Key>, ghost store: Store, ghost served: bool,
                    addr: Addr, ghost todo: set<Addr>, results: map<Key, PyValue>)
    returns (ok: bool, results': map<Key, PyValue>)
    requires addr in todo && todo <= shards.Keys == reprs.Keys && Apart(reprs)
    requires shards[addr].keys == KeysFor(owner, keys, addr)
    requires forall a | a in todo :: Readable(shards[a].batch, reprs[a])
    requires served ==> shards[addr].batch.values == [MultiValue(Elements(store, addr, KeysFor(owner, keys, addr)))]
    requires served ==> Gathered(store, owner, keys, todo, results)
    modifies shards[addr].batch`currentReplySp, shards[addr].batch`cursor, shards[addr].batch.currentReply
    ensures forall a | a in todo && a != addr :: Readable(shards[a].batch, reprs[a])
    ensures ok ==> OpensMulti(shards[addr].batch.values)
    ensures served && ok ==> Gathered(store, owner, keys, todo - {addr}, results')
    ensures served && !ok ==> exists k :: k in keys && store(owner(k), k).Missing?
  {
    hide KeysFor, Elements, Present, Added, OpensMulti, Gathered, Batch.Valid;
    ok, results' := ReadShard(shards[addr], results, store, addr, served);
    forall a | a in todo && a != addr
      ensures Readable(shards[a].batch, reprs[a])
    {
      ReadableKept(shards[a].batch, reprs[a]);
    }
    if served && ok {
      GatheredMore(store, owner, keys, todo, addr, results, results');
    } else if served {
      SomeMissing(store, owner, keys, addr);
    }
  }

  /** What pair k is made of: a connection, and a batch without the shard around it. */
  ghost function PairFeet(shards: map<Addr, Shard>, order: seq<Addr>, feet: map<Addr, set<object>>,
                          own: map<Addr, set<object>>): (r: seq<set<object>>)
    requires forall a | a in order :: a in shards && a in feet && a in own
    ensures |r| == |order|
    ensures forall k | 0 <= k < |order| :: r[k] == own[order[k]] + (feet[order[k]] - {shards[order[k]]})
  {
    seq(|order|, k requires 0 <= k < |order| => own[order[k]] + (feet[order[k]] - {shards[order[k]]}))
  }

  lemma PairsDisjoint(shards: map<Addr, Shard>, order: seq<Addr>, feet: map<Addr, set<object>>,
                      own: map<Addr, set<object>>, others: set<object>)
    requires forall a | a in order :: a in shards && a in feet && a in own
    requires Layout(own, feet, others)
    requires forall j, k :: 0 <= j < k < |order| ==> order[j] != order[k]
    ensures Disjoint(PairFeet(shards, order, feet, own))
    ensures forall k | 0 <= k < |order| :: others !! PairFeet(shards, order, feet, own)[k]
  {
  }

  /** Connections and batches that are in no pair. */
  lemma OthersApart(shards: map<Addr, Shard>, order: seq<Addr>, feet: map<Addr, set<object>>,
                    own: map<Addr, set<object>>, others: set<object>)
    requires forall a | a in order :: a in shards && a in feet && a in own
    requires Layout(own, feet, others)
    ensures forall a, k | a in own && a !in order && 0 <= k < |order| :: own[a] !! PairFeet(shards, order, feet, own)[k]
    ensures forall a, k | a in feet && a !in order
         && 0 <= k < |order| :: feet[a] !! PairFeet(shards, order, feet, own)[k]
    ensures forall a | a in own :: own[a] !! others
    ensures forall a | a in feet :: feet[a] !! others
  {
  }

  lemma ReadyToStart(e: Executor, c: Connection, shard: Shard, ks: seq<Key>, own: set<object>, foot: set<object>,
                     rs: seq<Record>)
    requires shard.At(ks, true, foot) && Available(c, own, rs)
    requires own !! foot && {e, e.fds} !! own && {e, e.fds} !! foot
    ensures e.Startable(c, shard.batch, PollFd(0, false, false, false, false), own + (foot - {shard}))
    ensures shard.batch.numCommands == 1 && shard.batch.outDone == Command(ks) && shard in foot
  {
    hide Batch.Valid, Continues;
  }

  /** The batch of the keys ks has been executed on connection c, after rs. */
  ghost predicate Ran(c: Connection, b: Batch, ks: seq<Key>, rs: seq<Record>)
    reads c, c.peer, c.parser, b, b.Repr, b.currentReply
  {
    && c.Ready() && c.Separate(b) && b.Valid() && b.AtStart()
    && Continues(c, rs + [RecordOf(c, b, [Command(ks)])])
  }

  /** A pair that may be executed: the batch of the keys ks, on a connection after rs. */
  ghost predicate Given(e: Executor, c: Connection, b: Batch, f: PollFd, foot: set<object>, ks: seq<Key>,
                        rs: seq<Record>)
    reads e, c, c.peer, c.parser, b, b.Repr, b.currentReply
  {
    e.Startable(c, b, f, foot) && b.numCommands == 1 && b.outDone == Command(ks) && Continues(c, rs)
  }

  twostate lemma HasRun(c: Connection, new e: Executor, new b: Batch, new f: PollFd, new foot: set<object>,
                        new ks: seq<Key>, new rs: seq<Record>)
    requires old(allocated(e) && allocated(b) && allocated(foot))
    requires old(Given(e, c, b, f, foot, ks, rs))
    requires e.Began(c, b) && e.Finished(c, b)
    ensures Ran(c, b, ks, rs)
  {
    hide Batch.Valid, Continues, Executor.Began, Executor.Finished, Connection.Fresh;
    assert Joined([Command(ks)]) == Command(ks) + [];
    Recorded(c, e, b, [Command(ks)], rs);
  }

  /** The executor runs all pairs, each after what had been executed on its connection. */
  method RunPairs(executor: Executor, clock: Clock, ghost fs: seq<set<object>>, ghost lists: seq<seq<Key>>,
                  ghost before: seq<seq<Record>>)
    returns (ghost now: seq<set<object>>)
    requires |fs| == |lists| == |before| == |executor.pairs| <= executor.fds.Length && Disjoint(fs)
    requires forall k | 0 <= k < |lists| ::
      Given(executor, executor.pairs[k].connection, executor.pairs[k].batch, executor.fds[k], fs[k], lists[k],
            before[k])
    requires forall k | 0 <= k < |lists| :: executor !in fs[k] && executor.fds !in fs[k] && clock !in fs[k]
    modifies executor`numevents, executor.fds, clock, Union(fs)
    ensures |now| == |lists| && Disjoint(now) && executor.pairs == old(executor.pairs)
    ensures forall k | 0 <= k < |lists| ::
      && Ran(executor.pairs[k].connection, executor.pairs[k].batch, lists[k], before[k])
      && now[k] == executor.pairs[k].connection.Foot(executor.pairs[k].batch) && fresh(now[k] - fs[k])
  {
    hide Connection.Foot, Given, Executor.Startable, Executor.Finished, Executor.Began, Disjoint, Union, Command, Ran;
    forall k | 0 <= k < |lists|
      ensures executor.Startable(executor.pairs[k].connection, executor.pairs[k].batch, executor.fds[k], fs[k])
    {
      GivenFacts(executor, executor.pairs[k].connection, executor.pairs[k].batch, executor.fds[k], fs[k], lists[k],
                 before[k]);
    }
    ghost var fds := executor.fds[..];
    var result;
    result, now := executor.Execute(clock, fs);
    forall k | 0 <= k < |lists|
      ensures Ran(executor.pairs[k].connection, executor.pairs[k].batch, lists[k], before[k])
    {
      HasRun(executor.pairs[k].connection, executor, executor.pairs[k].batch, fds[k], fs[k], lists[k], before[k]);
    }
  }

  lemma GivenFacts(e: Executor, c: Connection, b: Batch, f: PollFd, foot: set<object>, ks: seq<Key>, rs: seq<Record>)
    requires Given(e, c, b, f, foot, ks, rs)
    ensures e.Startable(c, b, f, foot)
  {
  }

  /** What the sets in now have that those in before had not. */
  ghost function AddedTo(now: seq<set<object>>, before: seq<set<object>>): (r: set<object>)
    requires |now| == |before|
    ensures forall k | 0 <= k < |now| :: now[k] <= before[k] + r
  {
    var r := set k, o | 0 <= k < |now| && o in now[k] && o !in before[k] :: o;
    assert forall k, o | 0 <= k < |now| && o in now[k] :: o in before[k] || o in r;
    r
  }

  twostate lemma AddedFresh(new now: seq<set<object>>, new before: seq<set<object>>)
    requires |now| == |before| && forall k | 0 <= k < |now| :: fresh(now[k] - before[k])
    ensures fresh(AddedTo(now, before))
  {
  }

  /** All pairs have been executed; pair k is made of now[k]. */
  ghost predicate AllRan(connections: map<Addr, Connection>, shards: map<Addr, Shard>, owner: Key -> Addr,
                         keys: seq<Key>,
                         order: seq<Addr>, history: map<Addr, seq<Record>>, now: seq<set<object>>)
    reads connections.Values, set c | c in connections.Values :: c.peer, set c | c in connections.Values :: c.parser
    reads shards.Values, set s | s in shards.Values :: s.batch, set s | s in shards.Values :: s.batch.currentReply
    reads set s, o | s in shards.Values && o in s.batch.Repr :: o
  {
    |now| == |order| && Disjoint(now) && forall k | 0 <= k < |order| ::
      && order[k] in connections && order[k] in shards && order[k] in history
      && Ran(connections[order[k]], shards[order[k]].batch, KeysFor(owner, keys, order[k]), history[order[k]])
      && now[k] == connections[order[k]].Foot(shards[order[k]].batch)
      && shards[order[k]].keys == KeysFor(owner, keys, order[k])
  }

  /** Connections and batches that are in no pair: they are as they were, and share nothing with the pairs. */
  ghost predicate OthersIdle(connections: map<Addr, Connection>, shards: map<Addr, Shard>, owner: Key -> Addr,
                             keys: seq<Key>, order: seq<Addr>, history: map<Addr, seq<Record>>,
                             feet: map<Addr, set<object>>, own: map<Addr, set<object>>, now: seq<set<object>>)
    reads connections.Values, set c | c in connections.Values :: c.peer, set c | c in connections.Values :: c.parser
    reads shards.Values, set s | s in shards.Values :: s.batch
    reads set s, o | s in shards.Values && o in s.batch.Repr :: o
  {
    && own.Keys == connections.Keys == history.Keys && feet.Keys == shards.Keys
    && (forall a | a in shards && a !in order ::
          Idle(shards[a]) && shards[a].batch.Repr <= feet[a] && shards[a].keys == KeysFor(owner, keys, a))
    && (forall a | a in own && a !in order :: Available(connections[a], own[a], history[a]))
    && (forall a, k | a in own && a !in order && 0 <= k < |now| :: own[a] !! now[k])
    && (forall a, k | a in feet && a !in order && 0 <= k < |now| :: feet[a] !! now[k])
    && forall a, b | a in own && b in feet :: own[a] !! feet[b]
  }

  /** All pairs are executed. */
  method RunOrder(shards: map<Addr, Shard>, manager: ConnectionManager, executor: Executor, clock: Clock,
                  ghost owner: Key -> Addr, ghost keys: seq<Key>, ghost order: seq<Addr>,
                  ghost feet: map<Addr, set<object>>, ghost own: map<Addr, set<object>>,
                  ghost history: map<Addr, seq<Record>>)
    returns (ghost now: seq<set<object>>)
    requires Shards(shards, feet, owner, keys, {}) && manager.Knows(own, history)
    requires Layout(own, feet, {manager, executor, executor.fds, clock})
    requires Paired(executor, shards, manager.connections, order)
    requires forall a | a in order :: a in feet && a in own
    modifies executor`numevents, executor.fds, clock, Union(PairFeet(shards, order, feet, own))
    ensures AllRan(manager.connections, shards, owner, keys, order, history, now)
    ensures |now| == |order|
    ensures forall k | 0 <= k < |order| :: fresh(now[k] - PairFeet(shards, order, feet, own)[k])
    ensures unchanged(manager)
  {
    hide Connection.Foot, KeysFor, Given, Executor.Startable, Ran, Available, Command;
    hide Shards, ConnectionManager.Knows, Layout, Paired, Disjoint, AllRan, PairFeet, Outside;
    PairedFacts(executor, shards, manager.connections, order);
    ghost var fs := PairFeet(shards, order, feet, own);
    ghost var others: set<object> := {manager, executor, executor.fds, clock};
    PairsDisjoint(shards, order, feet, own, others);
    PairsReady(executor, shards, manager, order, feet, own, history, owner, keys, others);
    ShardsOutside(shards, order, feet, own, owner, keys, others);
    ghost var lists := seq(|order|, k requires 0 <= k < |order| => KeysFor(owner, keys, order[k]));
    ghost var before := seq(|order|, k requires 0 <= k < |order| => history[order[k]]);
    now := RunPairs(executor, clock, fs, lists, before);
    RanTogether(executor, manager.connections, shards, owner, keys, order, history, now, lists, before);
  }

  /** All pairs are executed; nothing else is touched. */
  method RunAll(shards: map<Addr, Shard>, manager: ConnectionManager, executor: Executor, clock: Clock,
                ghost owner: Key -> Addr, ghost keys: seq<Key>, ghost order: seq<Addr>,
                ghost feet: map<Addr, set<object>>, ghost own: map<Addr, set<object>>,
                ghost history: map<Addr, seq<Record>>)
    returns (ghost now: seq<set<object>>, ghost made: set<object>)
    requires Shards(shards, feet, owner, keys, {}) && manager.Knows(own, history)
    requires Layout(own, feet, {manager, executor, executor.fds, clock})
    requires Paired(executor, shards, manager.connections, order)
    requires forall a | a in order :: a in feet && a in own
    modifies executor`numevents, executor.fds, clock, Union(PairFeet(shards, order, feet, own))
    ensures AllRan(manager.connections, shards, owner, keys, order, history, now)
    ensures OthersIdle(manager.connections, shards, owner, keys, order, history, feet, own, now)
    ensures fresh(made) && |now| == |order|
    ensures forall k | 0 <= k < |order| :: now[k] <= PairFeet(shards, order, feet, own)[k] + made
    ensures manager.connections == old(manager.connections)
  {
    hide KeysFor, Shards, ConnectionManager.Knows, Layout, Paired, AllRan, OthersIdle, AddedTo, PairFeet, Outside;
    PairedFacts(executor, shards, manager.connections, order);
    ghost var fs := PairFeet(shards, order, feet, own);
    ghost var others: set<object> := {manager, executor, executor.fds, clock};
    OthersApart(shards, order, feet, own, others);
    LayoutFacts(own, feet, others);
    now := RunOrder(shards, manager, executor, clock, owner, keys, order, feet, own, history);
    made := AddedTo(now, fs);
    AddedFresh(now, fs);
    NowApart(shards, order, feet, own, now);
    OthersKept(shards, manager, owner, keys, order, feet, own, history, now);
  }

  twostate lemma NowApart(shards: map<Addr, Shard>, new order: seq<Addr>, new feet: map<Addr, set<object>>,
                          new own: map<Addr, set<object>>, new now: seq<set<object>>)
    requires old(allocated(feet) && allocated(own)) && |now| == |order|
    requires forall a | a in order :: a in shards && a in feet && a in own
    requires forall k | 0 <= k < |order| :: fresh(now[k] - PairFeet(shards, order, feet, own)[k])
    requires forall a, k | a in own && a !in order
         && 0 <= k < |order| :: own[a] !! PairFeet(shards, order, feet, own)[k]
    requires forall a, k | a in feet && a !in order
         && 0 <= k < |order| :: feet[a] !! PairFeet(shards, order, feet, own)[k]
    ensures forall a, k | a in own && a !in order && 0 <= k < |now| :: own[a] !! now[k]
    ensures forall a, k | a in feet && a !in order && 0 <= k < |now| :: feet[a] !! now[k]
  {
  }

  lemma RanTogether(e: Executor, connections: map<Addr, Connection>, shards: map<Addr, Shard>, owner: Key -> Addr,
                    keys: seq<Key>, order: seq<Addr>, history: map<Addr, seq<Record>>, now: seq<set<object>>,
                    lists: seq<seq<Key>>, before: seq<seq<Record>>)
    requires |now| == |order| == |lists| == |before| == |e.pairs| && Disjoint(now)
    requires forall k | 0 <= k < |order| ::
      && order[k] in connections && order[k] in shards && order[k] in history
      && e.pairs[k] == Pair(shards[order[k]].batch, connections[order[k]])
      && lists[k] == KeysFor(owner, keys, order[k]) && before[k] == history[order[k]]
      && shards[order[k]].keys == KeysFor(owner, keys, order[k])
    requires forall k | 0 <= k < |order| ::
      && Ran(e.pairs[k].connection, e.pairs[k].batch, lists[k], before[k])
      && now[k] == e.pairs[k].connection.Foot(e.pairs[k].batch)
    ensures AllRan(connections, shards, owner, keys, order, history, now)
  {
    hide Ran, KeysFor, Connection.Foot, Disjoint;
  }

  /** A batch that was not executed: it has no replies. */
  ghost predicate Idle(shard: Shard)
    reads shard, shard.batch, shard.batch.Repr
  {
    shard.batch in shard.batch.Repr && shard.batch.currentReply in shard.batch.Repr
    && shard.batch.Valid() && shard.batch.AtStart() && shard.batch.values == []
  }

  twostate lemma OthersKept(shards: map<Addr, Shard>, new manager: ConnectionManager, new owner: Key -> Addr,
                            new keys: seq<Key>,
                            new order: seq<Addr>, new feet: map<Addr, set<object>>, new own: map<Addr, set<object>>,
                            new history: map<Addr, seq<Record>>, new now: seq<set<object>>)
    requires old(allocated(manager) && allocated(owner) && allocated(feet) && allocated(own))
    requires old(Shards(shards, feet, owner, keys, {}) && manager.Knows(own, history)) && unchanged(manager)
    requires forall a, o | a in shards && a in feet && a !in order && o in feet[a] :: unchanged(o)
    requires forall a, o | a in own && a !in order && o in own[a] :: unchanged(o)
    requires forall a, k | a in own && a !in order && 0 <= k < |now| :: own[a] !! now[k]
    requires forall a, k | a in feet && a !in order && 0 <= k < |now| :: feet[a] !! now[k]
    requires forall a, b | a in own && b in feet :: own[a] !! feet[b]
    ensures OthersIdle(manager.connections, shards, owner, keys, order, history, feet, own, now)
  {
    hide KeysFor, Batch.Valid, Continues, Apart;
    forall a | a in shards && a !in order
      ensures shards[a].At(KeysFor(owner, keys, a), true, feet[a])
    {
      assert old(shards[a].At(KeysFor(owner, keys, a), a !in {}, feet[a]));
      shards[a].AtKept(KeysFor(owner, keys, a), true, feet[a]);
    }
    forall a | a in own && a !in order
      ensures Available(manager.connections[a], own[a], history[a])
    {
      var c := manager.connections[a];
      assert old(Available(c, own[a], history[a])) && c in own[a] && c.parser in own[a] && c.peer in own[a];
      assert unchanged(c) && unchanged(c.parser) && unchanged(c.peer);
      ContinuesKept(c, history[a]);
    }
  }

  lemma KnownKeys(manager: ConnectionManager, own: map<Addr, set<object>>, history: map<Addr, seq<Record>>)
    requires manager.Knows(own, history)
    ensures own.Keys == manager.connections.Keys == history.Keys && Apart(own)
  {
    hide Available;
  }

  /** Every pair can be started. */
  lemma PairsReady(e: Executor, shards: map<Addr, Shard>, manager: ConnectionManager, order: seq<Addr>,
                   feet: map<Addr, set<object>>, own: map<Addr, set<object>>, history: map<Addr, seq<Record>>,
                   owner: Key -> Addr, keys: seq<Key>, others: set<object>)
    requires Shards(shards, feet, owner, keys, {}) && manager.Knows(own, history)
    requires Layout(own, feet, others) && e in others && e.fds in others
    requires Paired(e, shards, manager.connections, order)
    requires forall a | a in order :: a in feet && a in own
    ensures |e.pairs| == |order| <= e.fds.Length
    ensures forall k | 0 <= k < |order| ::
      && order[k] in history
      && Given(e, e.pairs[k].connection, e.pairs[k].batch, e.fds[k], PairFeet(shards, order, feet, own)[k],
               KeysFor(owner, keys, order[k]), history[order[k]])
    ensures forall k | 0 <= k < |order| ::
      order[k] in shards && order[k] in manager.connections
      && e.pairs[k] == Pair(shards[order[k]].batch, manager.connections[order[k]])
  {
    hide KeysFor, Executor.Startable, Shard.At, Available, Continues, Command;
    forall k | 0 <= k < |order|
      ensures Given(e, e.pairs[k].connection, e.pairs[k].batch, e.fds[k], PairFeet(shards, order, feet, own)[k],
                    KeysFor(owner, keys, order[k]), history[order[k]])
    {
      var a := order[k];
      ReadyToStart(e, manager.connections[a], shards[a], KeysFor(owner, keys, a), own[a], feet[a], history[a]);
      AvailableContinues(manager.connections[a], own[a], history[a]);
    }
  }

  lemma AvailableContinues(c: Connection, own: set<object>, rs: seq<Record>)
    requires Available(c, own, rs)
    ensures Continues(c, rs)
  {
  }

  lemma ShardsOutside(shards: map<Addr, Shard>, order: seq<Addr>, feet: map<Addr, set<object>>,
                      own: map<Addr, set<object>>, owner: Key -> Addr, keys: seq<Key>, others: set<object>)
    requires Shards(shards, feet, owner, keys, {})
    requires forall a | a in order :: a in shards && a in feet && a in own
    requires Layout(own, feet, others)
    ensures forall a | a in order ::
      shards[a].keys == KeysFor(owner, keys, a) && shards[a] !in others
      && forall k | 0 <= k < |order| :: shards[a] !in PairFeet(shards, order, feet, own)[k]
  {
    hide KeysFor, Batch.Valid;
    forall a | a in order
      ensures shards[a].keys == KeysFor(owner, keys, a) && shards[a] in feet[a]
    {
      assert shards[a].At(KeysFor(owner, keys, a), true, feet[a]);
    }
  }

  lemma AllShards(shards: map<Addr, Shard>, feet: map<Addr, set<object>>, owner: Key -> Addr, keys: seq<Key>)
    requires feet.Keys == shards.Keys && Apart(feet)
    requires forall a | a in shards :: shards[a].Writing(KeysFor(owner, keys, a)) && shards[a].Foot() == feet[a]
    ensures Shards(shards, feet, owner, keys, shards.Keys)
  {
    hide KeysFor, Shard.Writing;
  }

  /** New batches and a new executor share nothing with what was there. */
  lemma NewLayout(own: map<Addr, set<object>>, feet: map<Addr, set<object>>, others: set<object>, added: set<object>)
    requires Apart(own) && Apart(feet) && Outside(others, own)
    requires forall a | a in feet :: feet[a] !! others && feet[a] !! added
    requires forall b | b in own :: own[b] !! added
    requires forall a, b | a in own && b in feet :: own[a] !! feet[b]
    ensures Layout(own, feet, others + added)
  {
  }

  /** The batches, and an executor. */
  method Begin(ring: K.Ketama, keys: seq<Key>,
               ghost owner: Key -> Addr, ghost own: map<Addr, set<object>>, ghost others: set<object>)
    returns (shards: map<Addr, Shard>, executor: Executor, ghost feet: map<Addr, set<object>>)
    requires ring.Valid() && ring.continuum != null
    requires forall k | k in keys :: |k| < 0x8000_0000 && owner(k) == ring.AddressOf(k)
    requires Apart(own) && Outside(others, own)
    ensures shards.Keys == feet.Keys == Owners(owner, keys)
    ensures Shards(shards, feet, owner, keys, shards.Keys)
    ensures Layout(own, feet, others + {executor, executor.fds})
    ensures forall a | a in feet :: fresh(feet[a])
    ensures fresh(executor) && fresh(executor.fds) && executor.pairs == [] && executor.fds.Length == MAX_PAIRS
  {
    hide KeysFor, Owners, Shards, K.Ketama.Valid, K.Ketama.AddressOf, Shard.Writing, Shard.Foot;
    hide Layout, Apart, Outside;
    shards, feet := Distribute(ring, keys, owner);
    AllShards(shards, feet, owner, keys);
    label Distributed:
    executor := new Executor();
    ShardsKept@Distributed(shards, feet, owner, keys, shards.Keys);
    NewLayout(own, feet, others, {executor, executor.fds});
  }

  /** The first half of mget: everything is written and handed to an executor. */
  method Prepare(ring: K.Ketama, manager: ConnectionManager, keys: seq<Key>,
                 ghost owner: Key -> Addr, ghost own: map<Addr, set<object>>, ghost history: map<Addr, seq<Record>>,
                 ghost others: set<object>)
    returns (shards: map<Addr, Shard>, executor: Executor, ghost order: seq<Addr>, ghost left: set<Addr>,
             ghost feet: map<Addr, set<object>>, ghost own': map<Addr, set<object>>,
             ghost history': map<Addr, seq<Record>>)
    requires ring.Valid() && ring.continuum != null
    requires forall k | k in keys :: |k| < 0x8000_0000 && owner(k) == ring.AddressOf(k)
    requires manager.Knows(own, history) && manager in others && Outside(others, own)
    modifies manager
    ensures shards.Keys == feet.Keys == Owners(owner, keys)
    ensures forall a | a in shards :: a in own' && (a in order <==> a !in left)
    ensures left <= shards.Keys && (left == {} <==> |shards| <= MAX_PAIRS)
    ensures forall a | a in own' :: (a in own && own'[a] == own[a]) || fresh(own'[a])
    ensures forall a | a in feet :: fresh(feet[a])
    ensures fresh(executor) && fresh(executor.fds)
    ensures Kept(old(manager.connections), history, manager.connections, history')
    ensures Layout(own', feet, others + {executor, executor.fds})
    ensures Shards(shards, feet, owner, keys, {}) && manager.Knows(own', history')
    ensures Paired(executor, shards, manager.connections, order)
  {
    hide Owners, Shards, ConnectionManager.Knows, K.Ketama.Valid, K.Ketama.AddressOf;
    hide Layout, Apart, Outside, Paired, Kept;
    KnownKeys(manager, own, history);
    shards, executor, feet := Begin(ring, keys, owner, own, others);
    ghost var made;
    order, left, feet, own', history', made :=
      Enlist(shards, manager, executor, owner, keys, feet, own, history, others + {executor, executor.fds});
  }

  /** A batch after the executor has run: its replies can be read, and it has nothing in common with a connection. */
  lemma RanReadable(c: Connection, b: Batch, ks: seq<Key>, rs: seq<Record>)
    requires Ran(c, b, ks, rs)
    ensures Readable(b, b.Repr) && b.Repr <= c.Foot(b) && Own(c) <= c.Foot(b) && Own(c) !! b.Repr
    ensures Available(c, Own(c), rs + [RecordOf(c, b, [Command(ks)])])
  {
    hide Batch.Valid, Continues;
  }

  /** What has been executed for address a, if it was: one line, with the replies that are in the batch. */
  ghost predicate Told(before: seq<Record>, after: seq<Record>, line: seq<Byte>, values: seq<Value>) {
    |after| == |before| + 1 && before == after[..|before|]
    && after[|before|].cmds == [line] && after[|before|].values == values
  }

  /** What the connections are made of after the pairs in order have been executed. */
  ghost function OwnAfter(connections: map<Addr, Connection>, order: seq<Addr>, own: map<Addr, set<object>>)
    : (r: map<Addr, set<object>>)
    requires own.Keys == connections.Keys
    ensures r.Keys == own.Keys
    reads connections.Values, set c | c in connections.Values :: c.parser
  {
    map a | a in own :: if a in order then Own(connections[a]) else own[a]
  }

  ghost function HistoryAfter(connections: map<Addr, Connection>, shards: map<Addr, Shard>, order: seq<Addr>,
                              history: map<Addr, seq<Record>>, owner: Key -> Addr, keys: seq<Key>)
    : map<Addr, seq<Record>>
    requires history.Keys == connections.Keys && forall a | a in order :: a in shards
    reads connections.Values, set c | c in connections.Values :: c.peer, set s | s in shards.Values :: s.batch
  {
    map a | a in history ::
      if a in order then history[a] + [RecordOf(connections[a], shards[a].batch, [Command(KeysFor(owner, keys, a))])]
      else history[a]
  }

  /** Every batch can be read, and shares nothing with the other batches and with the connections. */
  ghost predicate AllReadable(shards: map<Addr, Shard>, reprs: map<Addr, set<object>>, own: map<Addr, set<object>>,
                              owner: Key -> Addr, keys: seq<Key>)
    reads shards.Values, set s | s in shards.Values :: s.batch
    reads set s, o | s in shards.Values && o in s.batch.Repr :: o
  {
    && reprs.Keys == shards.Keys && Apart(reprs)
    && (forall a | a in shards :: Readable(shards[a].batch, reprs[a]) && shards[a].keys == KeysFor(owner, keys, a))
    && forall a, b | a in own && b in shards :: own[a] !! reprs[b]
  }

  /** What has been executed, and for whom: nothing for the servers in left, and one line for all others. */
  ghost predicate Reported(shards: map<Addr, Shard>, left: set<Addr>, owner: Key -> Addr, keys: seq<Key>,
                           history: map<Addr, seq<Record>>, history': map<Addr, seq<Record>>)
    reads shards.Values, set s | s in shards.Values :: s.batch
  {
    && shards.Keys <= history'.Keys
    && (forall a | a in history' && (a !in shards || a in left) :: history'[a] == Prior(history, a))
    && (forall a | a in shards && a in left :: shards[a].batch.values == [])
    && forall a | a in shards && a !in left ::
         Told(Prior(history, a), history'[a], Command(KeysFor(owner, keys, a)), shards[a].batch.values)
  }

  /** What is known of pair k, by its address. */
  lemma RanAt(connections: map<Addr, Connection>, shards: map<Addr, Shard>, owner: Key -> Addr, keys: seq<Key>,
              order: seq<Addr>, history: map<Addr, seq<Record>>, now: seq<set<object>>, a: Addr) returns (k: nat)
    requires AllRan(connections, shards, owner, keys, order, history, now) && a in order
    ensures k < |now| == |order| && order[k] == a && a in connections && a in shards && a in history
    ensures Readable(shards[a].batch, shards[a].batch.Repr) && shards[a].keys == KeysFor(owner, keys, a)
    ensures shards[a].batch.Repr <= now[k] && Own(connections[a]) <= now[k]
    ensures Own(connections[a]) !! shards[a].batch.Repr
    ensures Available(connections[a], Own(connections[a]),
                      history[a] + [RecordOf(connections[a], shards[a].batch, [Command(KeysFor(owner, keys, a))])])
  {
    hide Ran, Readable, Connection.Foot, KeysFor, Available, Own, Command;
    k :| k < |order| && order[k] == a;
    RanReadable(connections[a], shards[a].batch, KeysFor(owner, keys, a), history[a]);
  }

  lemma OthersReadable(shard: Shard)
    requires Idle(shard)
    ensures Readable(shard.batch, shard.batch.Repr) && shard.batch.values == []
  {
    hide Batch.Valid;
  }

  /** The manager still knows its connections, with what has been executed now. */
  lemma Settled(manager: ConnectionManager, shards: map<Addr, Shard>, owner: Key -> Addr, keys: seq<Key>,
                order: seq<Addr>, history: map<Addr, seq<Record>>, feet: map<Addr, set<object>>,
                own: map<Addr, set<object>>, now: seq<set<object>>)
    requires AllRan(manager.connections, shards, owner, keys, order, history, now) && |now| == |order|
    requires OthersIdle(manager.connections, shards, owner, keys, order, history, feet, own, now)
    requires own.Keys == manager.connections.Keys == history.Keys && Apart(own) && forall a | a in order :: a in shards
    ensures manager.Knows(OwnAfter(manager.connections, order, own),
                          HistoryAfter(manager.connections, shards, order, history, owner, keys))
  {
    hide Available, KeysFor, Command, Own, Continues, AllRan, Idle, Readable, Disjoint;
    var own' := OwnAfter(manager.connections, order, own);
    var history' := HistoryAfter(manager.connections, shards, order, history, owner, keys);
    forall a | a in own'
      ensures Available(manager.connections[a], own'[a], history'[a])
    {
      if a in order {
        var k := RanAt(manager.connections, shards, owner, keys, order, history, now, a);
      }
    }
    NowDisjoint(manager.connections, shards, owner, keys, order, history, now);
    forall a, b | a in own' && b in own' && a != b
      ensures own'[a] !! own'[b]
    {
      if a in order {
        var j := RanAt(manager.connections, shards, owner, keys, order, history, now, a);
        if b in order {
          var k := RanAt(manager.connections, shards, owner, keys, order, history, now, b);
          assert now[j] !! now[k];
        } else {
          assert own[b] !! now[j];
        }
      } else if b in order {
        var k := RanAt(manager.connections, shards, owner, keys, order, history, now, b);
        assert own[a] !! now[k];
      }
    }
  }

  lemma NowDisjoint(connections: map<Addr, Connection>, shards: map<Addr, Shard>, owner: Key -> Addr, keys: seq<Key>,
                    order: seq<Addr>, history: map<Addr, seq<Record>>, now: seq<set<object>>)
    requires AllRan(connections, shards, owner, keys, order, history, now)
    ensures forall j, k | 0 <= j < |now| && 0 <= k < |now| && j != k :: now[j] !! now[k]
  {
    hide Ran, KeysFor, Connection.Foot;
    forall j, k | 0 <= j < |now| && 0 <= k < |now| && j != k
      ensures now[j] !! now[k]
    {
      if j < k {
        assert now[j] !! now[k];
      } else {
        assert now[k] !! now[j];
      }
    }
  }

  /** Every batch can be read. */
  lemma SettledShards(connections: map<Addr, Connection>, shards: map<Addr, Shard>, owner: Key -> Addr, keys: seq<Key>,
                      order: seq<Addr>, history: map<Addr, seq<Record>>, feet: map<Addr, set<object>>,
                      own: map<Addr, set<object>>, now: seq<set<object>>)
    requires AllRan(connections, shards, owner, keys, order, history, now) && |now| == |order|
    requires OthersIdle(connections, shards, owner, keys, order, history, feet, own, now)
    requires own.Keys == connections.Keys && Apart(feet)
    ensures AllReadable(shards, Reprs(shards), OwnAfter(connections, order, own), owner, keys)
  {
    hide Available, KeysFor, Command, Own, Continues, AllRan, Idle, Readable, Disjoint;
    var reprs := Reprs(shards);
    forall a | a in shards
      ensures Readable(shards[a].batch, reprs[a]) && shards[a].keys == KeysFor(owner, keys, a)
    {
      if a in order {
        var k := RanAt(connections, shards, owner, keys, order, history, now, a);
      } else {
        OthersReadable(shards[a]);
      }
    }
    forall a, b | a in shards && b in shards && a != b
      ensures reprs[a] !! reprs[b]
    {
      ReprsApart(connections, shards, owner, keys, order, history, feet, own, now, a, b);
    }
    forall a, b | a in own && b in shards
      ensures OwnAfter(connections, order, own)[a] !! reprs[b]
    {
      OwnApart(connections, shards, owner, keys, order, history, feet, own, now, a, b);
    }
  }

  /** What has been executed is on record. */
  lemma SettledRecords(connections: map<Addr, Connection>, shards: map<Addr, Shard>, owner: Key -> Addr, keys: seq<Key>,
                       order: seq<Addr>, history: map<Addr, seq<Record>>, feet: map<Addr, set<object>>,
                       own: map<Addr, set<object>>, now: seq<set<object>>, left: set<Addr>,
                       before: map<Addr, seq<Record>>)
    requires OthersIdle(connections, shards, owner, keys, order, history, feet, own, now)
    requires own.Keys == connections.Keys == history.Keys
    requires (forall a | a in order :: a in shards) && left <= shards.Keys
    requires forall a | a in shards :: a in own && (a in order <==> a !in left)
    requires forall a | a in history :: history[a] == Prior(before, a)
    ensures Reported(shards, left, owner, keys, before, HistoryAfter(connections, shards, order, history, owner, keys))
  {
    hide Available, KeysFor, Command, Idle, Prior;
    forall a | a in shards && a in left
      ensures shards[a].batch.values == []
    {
      OthersReadable(shards[a]);
    }
  }

  lemma ReprsApart(connections: map<Addr, Connection>, shards: map<Addr, Shard>, owner: Key -> Addr, keys: seq<Key>,
                   order: seq<Addr>, history: map<Addr, seq<Record>>, feet: map<Addr, set<object>>,
                   own: map<Addr, set<object>>, now: seq<set<object>>, a: Addr, b: Addr)
    requires AllRan(connections, shards, owner, keys, order, history, now) && |now| == |order|
    requires OthersIdle(connections, shards, owner, keys, order, history, feet, own, now) && Apart(feet)
    requires a in shards && b in shards && a != b
    ensures shards[a].batch.Repr !! shards[b].batch.Repr
  {
    hide Available, KeysFor, Command, Own, Continues, AllRan, Idle, Readable, Disjoint;
    NowDisjoint(connections, shards, owner, keys, order, history, now);
    if a in order {
      var j := RanAt(connections, shards, owner, keys, order, history, now, a);
      if b in order {
        var k := RanAt(connections, shards, owner, keys, order, history, now, b);
        assert now[j] !! now[k];
      } else {
        assert feet[b] !! now[j];
      }
    } else if b in order {
      var k := RanAt(connections, shards, owner, keys, order, history, now, b);
      assert feet[a] !! now[k];
    } else {
      assert feet[a] !! feet[b];
    }
  }

  lemma OwnApart(connections: map<Addr, Connection>, shards: map<Addr, Shard>, owner: Key -> Addr, keys: seq<Key>,
                 order: seq<Addr>, history: map<Addr, seq<Record>>, feet: map<Addr, set<object>>,
                 own: map<Addr, set<object>>, now: seq<set<object>>, a: Addr, b: Addr)
    requires AllRan(connections, shards, owner, keys, order, history, now) && |now| == |order|
    requires OthersIdle(connections, shards, owner, keys, order, history, feet, own, now)
    requires own.Keys == connections.Keys && a in own && b in shards
    ensures OwnAfter(connections, order, own)[a] !! shards[b].batch.Repr
  {
    hide Available, KeysFor, Command, Own, Continues, AllRan, Idle, Readable, Disjoint;
    NowDisjoint(connections, shards, owner, keys, order, history, now);
    if a in order {
      var j := RanAt(connections, shards, owner, keys, order, history, now, a);
      if b in order {
        var k := RanAt(connections, shards, owner, keys, order, history, now, b);
        assert a != b ==> now[j] !! now[k];
      } else {
        assert feet[b] !! now[j];
      }
    } else if b in order {
      var k := RanAt(connections, shards, owner, keys, order, history, now, b);
      assert own[a] !! now[k];
    } else {
      assert own[a] !! feet[b];
    }
  }

  ghost function Reprs(shards: map<Addr, Shard>): map<Addr, set<object>>
    reads shards.Values, set s | s in shards.Values :: s.batch
  {
    map a | a in shards :: shards[a].batch.Repr
  }

  lemma AllSettled(manager: ConnectionManager, shards: map<Addr, Shard>, owner: Key -> Addr, keys: seq<Key>,
                   order: seq<Addr>, history: map<Addr, seq<Record>>, feet: map<Addr, set<object>>,
                   own: map<Addr, set<object>>, now: seq<set<object>>, left: set<Addr>, before: map<Addr, seq<Record>>)
    requires AllRan(manager.connections, shards, owner, keys, order, history, now) && |now| == |order|
    requires OthersIdle(manager.connections, shards, owner, keys, order, history, feet, own, now)
    requires own.Keys == manager.connections.Keys == history.Keys && Apart(own) && Apart(feet)
    requires (forall a | a in order :: a in shards) && left <= shards.Keys
    requires forall a | a in shards :: a in own && (a in order <==> a !in left)
    requires forall a | a in history :: history[a] == Prior(before, a)
    ensures manager.Knows(OwnAfter(manager.connections, order, own),
                          HistoryAfter(manager.connections, shards, order, history, owner, keys))
    ensures AllReadable(shards, Reprs(shards), OwnAfter(manager.connections, order, own), owner, keys)
    ensures Reported(shards, left, owner, keys, before,
                     HistoryAfter(manager.connections, shards, order, history, owner, keys))
  {
    hide AllRan, OthersIdle, AllReadable, Reported, ConnectionManager.Knows;
    hide OwnAfter, HistoryAfter, KeysFor, Apart, Prior;
    Settled(manager, shards, owner, keys, order, history, feet, own, now);
    SettledShards(manager.connections, shards, owner, keys, order, history, feet, own, now);
    SettledRecords(manager.connections, shards, owner, keys, order, history, feet, own, now, left, before);
  }

  /** The pairs are made of what the manager's connections were made of, and of new objects. */
  twostate lemma PairFeetWithin(new shards: map<Addr, Shard>, new order: seq<Addr>, new feet: map<Addr, set<object>>,
                                new own: map<Addr, set<object>>, new before: map<Addr, set<object>>)
    requires forall a | a in order :: a in shards && a in feet && a in own
    requires forall a | a in own :: (a in before && own[a] == before[a]) || fresh(own[a])
    requires forall a | a in feet :: fresh(feet[a])
    ensures forall o | o in Union(PairFeet(shards, order, feet, own)) :: o in Merge(before) || fresh(o)
  {
  }

  lemma ShardParts(shards: map<Addr, Shard>, feet: map<Addr, set<object>>, owner: Key -> Addr, keys: seq<Key>)
    requires Shards(shards, feet, owner, keys, {})
    ensures feet.Keys == shards.Keys && Apart(feet)
    ensures forall a | a in shards :: shards[a].batch in feet[a] && shards[a].batch.currentReply in feet[a]
  {
    hide KeysFor, Batch.Valid;
    forall a | a in shards
      ensures shards[a].batch in feet[a] && shards[a].batch.currentReply in feet[a]
    {
      assert shards[a].At(KeysFor(owner, keys, a), true, feet[a]);
    }
  }

  lemma KeptRecords(connections: map<Addr, Connection>, history: map<Addr, seq<Record>>,
                    connections': map<Addr, Connection>, history': map<Addr, seq<Record>>)
    requires Kept(connections, history, connections', history')
    ensures forall a | a in history' :: history'[a] == Prior(history, a)
    ensures forall a | a in connections :: a in connections' && connections'[a] == connections[a]
  {
    hide Prior;
  }

  /** A connection grows only by new objects. */
  twostate lemma OwnGrows(new connections: map<Addr, Connection>, new shards: map<Addr, Shard>, new owner: Key -> Addr,
                          new keys: seq<Key>, new order: seq<Addr>, new history: map<Addr, seq<Record>>,
                          new feet: map<Addr, set<object>>, new own: map<Addr, set<object>>, new now: seq<set<object>>,
                          new made: set<object>, new before: map<Addr, set<object>>)
    requires AllRan(connections, shards, owner, keys, order, history, now) && |now| == |order|
    requires own.Keys == connections.Keys && forall a | a in order :: a in shards && a in feet && a in own
    requires forall a | a in feet :: fresh(feet[a])
    requires fresh(made) && forall k | 0 <= k < |order| :: now[k] <= PairFeet(shards, order, feet, own)[k] + made
    requires forall a | a in own :: (a in before && own[a] == before[a]) || fresh(own[a])
    ensures forall a | a in own :: fresh(OwnAfter(connections, order, own)[a] - if a in before then before[a] else {})
  {
    hide Available, KeysFor, Command, Own, Continues, AllRan, Readable, Disjoint;
    forall a | a in own
      ensures fresh(OwnAfter(connections, order, own)[a] - if a in before then before[a] else {})
    {
      if a in order {
        var k := RanAt(connections, shards, owner, keys, order, history, now, a);
        assert Own(connections[a]) <= now[k];
        assert now[k] <= made + own[a] + feet[a];
      }
    }
  }

  /** mget up to the point where all batches have been executed. */
  method Exchange(ring: K.Ketama, manager: ConnectionManager, clock: Clock, keys: seq<Key>,
                  ghost owner: Key -> Addr, ghost own: map<Addr, set<object>>, ghost history: map<Addr, seq<Record>>)
    returns (shards: map<Addr, Shard>, ghost left: set<Addr>, ghost reprs: map<Addr, set<object>>,
             ghost own': map<Addr, set<object>>, ghost history': map<Addr, seq<Record>>)
    requires ring.Valid() && ring.continuum != null
    requires forall k | k in keys :: |k| < 0x8000_0000 && owner(k) == ring.AddressOf(k)
    requires manager.Knows(own, history) && Outside({manager, clock}, own)
    modifies manager, clock, Merge(own)
    ensures manager.Knows(own', history') && shards.Keys == Owners(owner, keys)
    ensures AllReadable(shards, reprs, own', owner, keys)
    ensures forall a | a in shards :: fresh(shards[a].batch) && fresh(shards[a].batch.currentReply)
    ensures left <= shards.Keys && (left == {} <==> |shards| <= MAX_PAIRS)
    ensures Reported(shards, left, owner, keys, history, history')
    ensures forall a | a in old(manager.connections) ::
      a in manager.connections && manager.connections[a] == old(manager.connections[a])
    ensures forall a | a in own' :: fresh(own'[a] - if a in own then own[a] else {})
  {
    hide Disjoint, K.Ketama.AddressOf, Apart, Outside, KeysFor, Owners, Shards, ConnectionManager.Knows, K.Ketama.Valid;
    hide Layout, Paired, Kept, AllRan, OthersIdle, AllReadable, Reported, Prior;
    hide HistoryAfter, OwnAfter, Reprs, Available, Readable, PairFeet, Merge, Union;
    var executor;
    ghost var order, feet, own1, history1;
    shards, executor, order, left, feet, own1, history1 :=
      Prepare(ring, manager, keys, owner, own, history, {manager, clock});
    assert {manager, clock} + {executor, executor.fds} == {manager, executor, executor.fds, clock};
    ghost var connections := manager.connections;
    KnownKeys(manager, own1, history1);
    KeptRecords(old(manager.connections), history, connections, history1);
    PairedFacts(executor, shards, connections, order);
    PairFeetWithin(shards, order, feet, own1, own);
    ShardParts(shards, feet, owner, keys);
    ghost var now, made := RunAll(shards, manager, executor, clock, owner, keys, order, feet, own1, history1);
    AllSettled(manager, shards, owner, keys, order, history1, feet, own1, now, left, history);
    reprs := Reprs(shards);
    own' := OwnAfter(connections, order, own1);
    history' := HistoryAfter(connections, shards, order, history1, owner, keys);
    OwnGrows(connections, shards, owner, keys, order, history1, feet, own1, now, made, own);
  }

  /**
   What is assumed of the server at addr: it answered in order what it was sent on this connection (as in
   Sessions), and the last line with what it holds.
   */
  ghost predicate Faithful(store: Store, addr: Addr, rs: seq<Record>, moments: set<Moment>) {
    rs != [] && var last := |rs| - 1;
      && |rs[last].cmds| == 1
      && exists answers ::
           AnswerEach(rs, answers) && Served(rs, answers, moments)
           && Responds(store, addr, rs[last].cmds[0], Meaning(answers[last][0]))
  }

  ghost predicate AllFaithful(store: Store, servers: set<Addr>, history: map<Addr, seq<Record>>,
                              connections: map<Addr, Connection>)
    reads connections.Values, set c | c in connections.Values :: c.peer
  {
    forall a | a in servers ::
      a in connections && a in history && Faithful(store, a, history[a], connections[a].peer.moments)
  }

  lemma FaithfulReply(store: Store, addr: Addr, before: seq<Record>, after: seq<Record>, moments: set<Moment>,
                      ks: seq<Key>, values: seq<Value>)
    requires Chained(after, moments) && Told(before, after, Command(ks), values)
    requires Faithful(store, addr, after, moments) && Undisturbed(after[|before|]) && forall k | k in ks :: Plain(k)
    ensures values == [MultiValue(Elements(store, addr, ks))]
  {
    hide Served, Chained, Meaning, Tokens, Elements, Command, Plain;
    var last := |after| - 1;
    var answers :| AnswerEach(after, answers) && Served(after, answers, moments)
      && Responds(store, addr, after[last].cmds[0], Meaning(answers[last][0]));
    var message := OwnAnswer(after, answers, moments, last);
    MgetRead(ks);
    assert ([MGET] + ks)[1..] == ks;
  }

  /** A batch that was disturbed has an error as its reply, and one that was refused has none. */
  lemma NoReply(before: seq<Record>, after: seq<Record>, moments: set<Moment>, line: seq<Byte>, values: seq<Value>)
    requires values != [] ==> Chained(after, moments) && Told(before, after, line, values)
    requires values != [] ==> !Undisturbed(after[|before|])
    ensures !OpensMulti(values)
  {
    if values != [] {
      var r := after[|before|];
      assert Executed(r, moments);
      var message :| r.values == Answers(r.words, |r.cmds|, message);
      FlattenOne(values[0]);
      assert values == [values[0]];
    }
  }

  /** In this call no socket failed, and neither the clock nor poll() put an end to anything. */
  predicate AllAnswered(servers: set<Addr>, history: map<Addr, seq<Record>>) {
    forall a | a in servers :: a in history && history[a] != [] && Undisturbed(history[a][|history[a]| - 1])
  }

  /** The state of the wires of the connections. */
  ghost function Wires(connections: map<Addr, Connection>): map<Addr, set<Moment>>
    reads connections.Values, set c | c in connections.Values :: c.peer
  {
    map a | a in connections :: connections[a].peer.moments
  }

  /** One line, to exactly the servers in the set, and nothing else has been executed. */
  ghost predicate Lines(servers: set<Addr>, owner: Key -> Addr, keys: seq<Key>,
                        history: map<Addr, seq<Record>>, history': map<Addr, seq<Record>>) {
    servers <= history'.Keys && forall a | a in history' ::
      if a in servers
      then var rs := history'[a];
           rs != [] && rs[..|rs| - 1] == Prior(history, a) && rs[|rs| - 1].cmds == [Command(KeysFor(owner, keys, a))]
      else history'[a] == Prior(history, a)
  }

  /**
   mget, for a manager with any history. owner is what the ring says of each key, store what each server
   holds. If the servers answer what they are sent, and all keys can be sent, then mget succeeds exactly if
   the executor has room for a pair for each server, no socket fails, time is not up, and all keys are
   present. Its result is a map from exactly the keys to what the server that the ring picks for each of
   them holds.
   */
  method Mget(ring: K.Ketama, manager: ConnectionManager, clock: Clock, keys: seq<Key>,
              ghost owner: Key -> Addr, ghost store: Store,
              ghost own: map<Addr, set<object>>, ghost history: map<Addr, seq<Record>>)
    returns (ok: bool, results: map<Key, PyValue>,
             ghost sent: set<Addr>, ghost own': map<Addr, set<object>>, ghost history': map<Addr, seq<Record>>)
    requires ring.Valid() && ring.continuum != null
    requires forall k | k in keys :: |k| < 0x8000_0000 && owner(k) == ring.AddressOf(k)
    requires manager.Knows(own, history) && Outside({manager, clock}, own)
    modifies manager, clock, Merge(own)
    ensures manager.Knows(own', history') && Owners(owner, keys) <= manager.connections.Keys
    ensures forall a | a in old(manager.connections) ::
      a in manager.connections && manager.connections[a] == old(manager.connections[a])
    ensures forall a | a in own' :: fresh(own'[a] - if a in own then own[a] else {})
    // Which servers were sent their line.
    ensures sent <= Owners(owner, keys) && Lines(sent, owner, keys, history, history')
    ensures sent == Owners(owner, keys) <==> |Owners(owner, keys)| <= MAX_PAIRS
    // Failures do not go unnoticed, whatever the servers say.
    ensures ok ==> |Owners(owner, keys)| <= MAX_PAIRS && AllAnswered(Owners(owner, keys), history')
    // The result.
    ensures AllFaithful(store, sent, history', manager.connections) && (forall k | k in keys :: Plain(k))
            ==> && (ok <==> |Owners(owner, keys)| <= MAX_PAIRS && AllAnswered(Owners(owner, keys), history')
                            && forall k | k in keys :: store(owner(k), k).Holds?)
                && (ok ==> AllFound(store, owner, keys, results))
  {
    hide KeysFor, Owners, ConnectionManager.Knows, K.Ketama.Valid, AllFound, Elements, Faithful, Plain, Lines;
    hide Apart, Outside, Merge, K.Ketama.AddressOf, AllReadable, Reported, AllAnswered, OpensMulti, AllFaithful;
    var shards;
    ghost var left, reprs;
    shards, left, reprs, own', history' := Exchange(ring, manager, clock, keys, owner, own, history);
    sent := shards.Keys - left;
    Refused(shards, left);
    KnownKeys(manager, own', history');
    ReportedLines(shards, left, owner, keys, history, history');
    ok, results := ReadAnswers(shards, left, reprs, manager, owner, keys, store, own', history, history');
  }

  /** The replies are read; what has been executed says what they are. */
  method ReadAnswers(shards: map<Addr, Shard>, ghost left: set<Addr>, ghost reprs: map<Addr, set<object>>,
                     ghost manager: ConnectionManager, ghost owner: Key -> Addr, ghost keys: seq<Key>,
                     ghost store: Store, ghost own: map<Addr, set<object>>,
                     ghost before: map<Addr, seq<Record>>, ghost history: map<Addr, seq<Record>>)
    returns (ok: bool, results: map<Key, PyValue>)
    requires shards.Keys == Owners(owner, keys) <= own.Keys && left <= shards.Keys
    requires Reported(shards, left, owner, keys, before, history)
    requires manager.Knows(own, history) && AllReadable(shards, reprs, own, owner, keys)
    modifies set a | a in shards :: shards[a].batch
    modifies set a | a in shards :: shards[a].batch.currentReply
    ensures manager.Knows(own, history)
    ensures ok ==> left == {} && AllAnswered(shards.Keys, history)
    ensures AllFaithful(store, shards.Keys - left, history, manager.connections) && (forall k | k in keys :: Plain(k))
            ==> && (ok <==> left == {} && AllAnswered(shards.Keys, history)
                            && forall k | k in keys :: store(owner(k), k).Holds?)
                && (ok ==> AllFound(store, owner, keys, results))
  {
    hide KeysFor, Owners, ConnectionManager.Knows, AllFound, Elements, Faithful, Plain;
    hide AllReadable, Reported, AllAnswered, OpensMulti, Wires;
    ghost var wires := Wires(manager.connections);
    KnownChains(manager, own, history);
    ghost var served := left == {} && AllAnswered(shards.Keys, history) && (forall k | k in keys :: Plain(k))
                        && forall a | a in shards.Keys :: Faithful(store, a, history[a], wires[a]);
    if served {
      AllServed(shards, left, owner, keys, store, before, history, wires);
    }
    NoneFailed(shards, left, owner, keys, before, history, wires);
    ok, results := CollectAll(shards, reprs, owner, keys, store, served, own);
    manager.KnowsKept(own, history);
    WiresKept(manager, own, history);
  }

  lemma Refused(shards: map<Addr, Shard>, left: set<Addr>)
    requires left <= shards.Keys && (left == {} <==> |shards| <= MAX_PAIRS)
    ensures shards.Keys - left == shards.Keys <==> |shards.Keys| <= MAX_PAIRS
    ensures left == {} <==> |shards.Keys| <= MAX_PAIRS
  {
    assert |shards| == |shards.Keys|;
    if left != {} {
      var a :| a in left;
      assert a in shards.Keys && a !in shards.Keys - left;
    }
  }

  lemma ReportedLines(shards: map<Addr, Shard>, left: set<Addr>, owner: Key -> Addr, keys: seq<Key>,
                      history: map<Addr, seq<Record>>, history': map<Addr, seq<Record>>)
    requires Reported(shards, left, owner, keys, history, history') && left <= shards.Keys
    ensures Lines(shards.Keys - left, owner, keys, history, history') && shards.Keys <= history'.Keys
  {
    hide KeysFor, Command, Prior;
  }

  lemma KnownChains(manager: ConnectionManager, own: map<Addr, set<object>>, history: map<Addr, seq<Record>>)
    requires manager.Knows(own, history)
    ensures own.Keys == manager.connections.Keys == history.Keys == Wires(manager.connections).Keys
    ensures forall a | a in history :: Chained(history[a], Wires(manager.connections)[a])
  {
    hide Chained;
  }

  twostate lemma WiresKept(manager: ConnectionManager, new own: map<Addr, set<object>>, new history: map<Addr,
                           seq<Record>>)
    requires old(allocated(own)) && old(manager.Knows(own, history)) && unchanged(manager)
    requires forall a, o | a in own && o in own[a] :: unchanged(o)
    ensures own.Keys == manager.connections.Keys == history.Keys
    ensures old(Wires(manager.connections)).Keys == own.Keys
    ensures forall a | a in own :: manager.connections[a].peer.moments == old(Wires(manager.connections))[a]
  {
    hide Continues;
    forall a | a in own
      ensures manager.connections[a].peer.moments == old(Wires(manager.connections))[a]
    {
      assert old(Available(manager.connections[a], own[a], history[a]));
      assert manager.connections[a].peer in own[a] && manager.connections[a] in own[a];
    }
  }

  lemma AllServed(shards: map<Addr, Shard>, left: set<Addr>, owner: Key -> Addr, keys: seq<Key>, store: Store,
                  history: map<Addr, seq<Record>>, history': map<Addr, seq<Record>>, wires: map<Addr, set<Moment>>)
    requires Reported(shards, left, owner, keys, history, history') && left == {}
    requires AllAnswered(shards.Keys, history') && forall k | k in keys :: Plain(k)
    requires forall a | a in shards ::
      a in wires && Chained(history'[a], wires[a]) && Faithful(store, a, history'[a], wires[a])
    ensures forall a | a in shards ::
      shards[a].batch.values == [MultiValue(Elements(store, a, KeysFor(owner, keys, a)))]
  {
    hide KeysFor, Elements, Plain, Faithful, Chained, Prior, Command;
    forall a | a in shards
      ensures shards[a].batch.values == [MultiValue(Elements(store, a, KeysFor(owner, keys, a)))]
    {
      FaithfulReply(store, a, Prior(history, a), history'[a], wires[a], KeysFor(owner, keys, a),
                    shards[a].batch.values);
    }
  }

  lemma NoneFailed(shards: map<Addr, Shard>, left: set<Addr>, owner: Key -> Addr, keys: seq<Key>,
                   history: map<Addr, seq<Record>>, history': map<Addr, seq<Record>>, wires: map<Addr, set<Moment>>)
    requires Reported(shards, left, owner, keys, history, history') && left <= shards.Keys
    requires forall a | a in shards :: a in wires && Chained(history'[a], wires[a])
    ensures (forall a | a in shards :: OpensMulti(shards[a].batch.values)) ==>
              left == {} && AllAnswered(shards.Keys, history')
  {
    hide KeysFor, Chained, Prior, Command, OpensMulti;
    forall a | a in shards
      ensures OpensMulti(shards[a].batch.values) ==>
                a !in left && history'[a] != [] && Undisturbed(history'[a][|history'[a]| - 1])
    {
      if a in left || !Undisturbed(history'[a][|history'[a]| - 1]) {
        NoReply(Prior(history, a), history'[a], wires[a], Command(KeysFor(owner, keys, a)), shards[a].batch.values);
      }
    }
  }

  /** Collect, for batches that share nothing with each other and with the connections. */
  method CollectAll(shards: map<Addr, Shard>, ghost reprs: map<Addr, set<object>>, ghost owner: Key -> Addr,
                    ghost keys: seq<Key>, ghost store: Store, ghost served: bool, ghost own: map<Addr, set<object>>)
    returns (ok: bool, results: map<Key, PyValue>)
    requires AllReadable(shards, reprs, own, owner, keys) && shards.Keys == Owners(owner, keys)
    requires served ==> forall a | a in shards ::
      shards[a].batch.values == [MultiValue(Elements(store, a, KeysFor(owner, keys, a)))]
    modifies set a | a in shards :: shards[a].batch
    modifies set a | a in shards :: shards[a].batch.currentReply
    ensures forall a, o | a in own && o in own[a] :: unchanged(o)
    ensures forall a | a in shards :: shards[a].batch.values == old(shards[a].batch.values)
    ensures ok ==> forall a | a in shards :: OpensMulti(shards[a].batch.values)
    ensures served ==> (ok <==> forall k | k in keys :: store(owner(k), k).Holds?)
    ensures served && ok ==> AllFound(store, owner, keys, results)
  {
    hide KeysFor, Owners, AllFound, Elements, Batch.Valid, OpensMulti;
    ok, results := Collect(shards, reprs, owner, keys, store, served);
  }
}
