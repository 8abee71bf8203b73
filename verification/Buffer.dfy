/** The growable byte buffer under a batch: an append-only byte sequence kept in a doubling array. */
module Buffers {
  import opened Bytes
  import opened Environment

  /** start doubled until it holds need bytes. */
  function Grown(start: nat, need: int): (r: nat)
    requires start > 0
    ensures r >= start && r >= need
    ensures start >= need ==> r == start
    decreases need - start
  {
    if start >= need then start else Grown(2 * start, need)
  }

  /** Grown is the least sufficient doubling. */
  lemma {:induction false} GrownIsLeast(start: nat, need: int) returns (k: nat)
    requires start > 0
    ensures Grown(start, need) == Pow2(k) * start
    ensures k > 0 ==> Pow2(k - 1) * start < need
    decreases need - start
  {
    if start >= need {
      k := 0;
    } else {
      var j := GrownIsLeast(2 * start, need);
      k := j + 1;
      assert Pow2(k) * start == Pow2(j) * (2 * start);
      if j > 0 {
        assert Pow2(j) * start == Pow2(j - 1) * (2 * start);
      }
    }
  }

  class Buffer {
    var data: array<Byte>
    const buff: array<Byte>
    const buffSize: nat
    var position: nat
    var limit: nat
    var capacity: nat

    ghost function Repr(): set<object>
      reads this
    {
      {this, data, buff}
    }

    /** data is the original array until the first growth, and a larger one ever after. */
    ghost predicate Valid()
      reads this
    {
      && 0 < buffSize == buff.Length
      && position <= limit <= capacity == data.Length
      && buffSize <= capacity
      && (capacity == buffSize <==> data == buff)
    }

    /** While it is filled, all the space up to the capacity may be used. */
    ghost predicate Filling()
      reads this
    {
      Valid() && limit == capacity
    }

    /** What has been written or received; after Flip, what has been sent. */
    ghost function Contents(): (s: seq<Byte>)
      requires Valid()
      reads this, data
      ensures |s| == position
    {
      data[..position]
    }

    /** After Flip, what is still to be sent. */
    ghost function Pending(): (s: seq<Byte>)
      requires Valid()
      reads this, data
      ensures |s| == limit - position
    {
      data[position..limit]
    }

    constructor (size: nat)
      requires size > 0
      ensures Filling() && fresh(Repr()) && Contents() == [] && capacity == buffSize == size
    {
      buffSize := size;
      position, limit, capacity := 0, size, size;
      var a := new Byte[size];
      buff, data := a, a;
    }

    function Remaining(): (n: nat)
      requires Valid()
      reads this
      ensures n == |Pending()|
    {
      limit - position
    }

    method EnsureRemaining(minRemaining: int)
      requires Filling()
      modifies this
      ensures Filling() && (data == old(data) || fresh(data))
      ensures position == old(position)
      ensures Contents() == old(Contents())
      ensures capacity == Grown(old(capacity), position + minRemaining)
    {
      ghost var need := position + minRemaining;
      while limit - position < minRemaining
        invariant position == old(position) && capacity == old(capacity)
        invariant 0 < capacity <= limit && Grown(limit, need) == Grown(capacity, need)
        invariant data == old(data)
        decreases need - limit
      {
        limit := limit * 2;
      }
      if limit > capacity {
        var larger := new Byte[limit];
        forall i | 0 <= i < capacity {
          larger[i] := data[i];
        }
        data := larger;
        capacity := limit;
        assert data[..position] == old(data[..position]);
      }
    }

    method Write(bytes: seq<Byte>)
      requires Filling()
      modifies this, data
      ensures Filling() && (data == old(data) || fresh(data))
      ensures Contents() == old(Contents()) + bytes
      ensures capacity == Grown(old(capacity), position)
    {
      EnsureRemaining(|bytes|);
      CopyIn(bytes);
    }

    /** Bytes stored at the position, by memcpy() or by the kernel; nothing before them changes. */
    method CopyIn(bytes: seq<Byte>)
      requires Filling() && |bytes| <= limit - position
      modifies this`position, data
      ensures Filling() && Contents() == old(Contents()) + bytes
    {
      forall i | 0 <= i < |bytes| {
        data[position + i] := bytes[i];
      }
      position := position + |bytes|;
    }

    /** From filling to sending. */
    method Flip()
      requires Valid()
      modifies this
      ensures Valid() && Repr() == old(Repr())
      ensures Contents() == [] && Pending() == old(Contents())
      ensures data[..] == old(data[..]) && limit == old(position)
    {
      limit := position;
      position := 0;
    }

    method Send(peer: Endpoint) returns (res: int, again: bool)
      requires Valid() && Pending() != []
      modifies this`position, peer
      ensures Valid()
      ensures if res == -1
              then position == old(position) && peer.sent == old(peer.sent)
              else 0 < res <= |old(Pending())| && Pending() == old(Pending())[res..]
                   && Contents() == old(Contents()) + old(Pending())[..res]
                   && peer.sent == old(peer.sent) + old(Pending())[..res]
      ensures peer.received == old(peer.received) && peer.eof == old(peer.eof)
      ensures peer.sockets == old(peer.sockets) && peer.patience == old(peer.patience)
      ensures old(peer.moments) <= peer.moments && peer.Now() in peer.moments
      ensures peer.troubles == old(peer.troubles) + (if res == -1 && !again then 1 else 0)
      ensures peer.full == old(peer.full) + (if res == -1 && again then 1 else 0)
      ensures peer.dry == old(peer.dry) && peer.pending == old(peer.pending)
    {
      res, again := peer.Write(data[position..limit]);
      if res != -1 {
        position := position + res;
      }
    }

    /** Grows to keep an eighth of the capacity free, then reads whatever the peer has. */
    method Recv(peer: Endpoint) returns (res: int, again: bool)
      requires Filling()
      modifies this, data, peer
      ensures Filling() && (data == old(data) || fresh(data))
      ensures old(Contents()) <= Contents()
      ensures peer.received == old(peer.received) + Contents()[old(position)..]
      ensures res >= -1
      ensures if res == -1 then position == old(position) else position == old(position) + res
      ensures capacity == Grown(old(capacity), old(position) + old(capacity) / 8)
      // A result of 0 is the end of the stream, unless there was no room to read into:
      ensures res == 0 ==> peer.eof == (old(peer.eof) || old(position) < old(limit) || old(capacity) >= 8)
      ensures res != 0 ==> peer.eof == old(peer.eof)
      ensures peer.sent == old(peer.sent) && peer.sockets == old(peer.sockets)
      ensures peer.patience + (if res > 0 then 1 else 0) <= old(peer.patience)
      ensures old(peer.moments) <= peer.moments && peer.Now() in peer.moments
      ensures old(capacity) >= 8 ==>
        peer.troubles == old(peer.troubles) + if (res == -1 && !again) || res == 0 then 1 else 0
      ensures peer.dry == old(peer.dry) + (if res == -1 && again then 1 else 0)
      ensures peer.full == old(peer.full) && peer.pending == old(peer.pending)
    {
      var eighth := (capacity * 256) / 2048;
      assert eighth == capacity / 8;
      EnsureRemaining(eighth);
      var bytes;
      res, again, bytes := peer.Read(limit - position);
      CopyIn(bytes);
    }

    /** Back to the original array; a grown one is dropped. */
    method Clear()
      requires Valid()
      modifies this
      ensures Filling() && Repr() <= old(Repr()) && Contents() == [] && capacity == buffSize
    {
      data := buff;
      position, limit, capacity := 0, buffSize, buffSize;
    }
  }
}
