/** batch.c: a batch of commands, the replies it has collected, and the iterator over them. */
module Batches {
  import opened Bytes
  import opened Grammar
  import opened Buffers
  import opened Environment
  import opened Lists
  import opened Replies

  const DEFAULT_READ_BUFF_SIZE := 1024 * 12
  const DEFAULT_WRITE_BUFF_SIZE := 1024 * 4
  const STACK_SIZE := 2

  /** n error replies with the same text. */
  function Errors(n: nat, text: seq<Byte>): (vs: seq<Value>)
    ensures |vs| == n && forall k | 0 <= k < n :: vs[k] == LineValue(ErrorLine, text)
  {
    seq(n, _ => LineValue(ErrorLine, text))
  }

  /** One result of the iterator. */
  datatype Data = NoData | Data(bytes: seq<Byte>)
  datatype Entry = Entry(level: nat, rtype: ReplyType, data: Data, len: nat)

  function ItemEntry(level: nat, v: ItemValue): Entry {
    match v
    case NilValue => Entry(level, RtBulkNil, NoData, 0)
    case BytesValue(body) => Entry(level, RtBulk, Data(body), |body|)
  }

  function ChildEntries(items: seq<ItemValue>): (es: seq<Entry>)
    ensures |es| == |items|
  {
    seq(|items|, k requires 0 <= k < |items| => ItemEntry(2, items[k]))
  }

  /** A reply, followed by its children if it is a multibulk reply. */
  function ValueEntries(v: Value): (es: seq<Entry>)
    ensures |es| > 0
  {
    match v
    case LineValue(kind, text) => [Entry(1, TypeOf(kind), Data(text), |text|)]
    case ItemValue(item) => [ItemEntry(1, item)]
    case NilMultiValue => [Entry(1, RtMultiBulkNil, NoData, 0)]
    case MultiValue(items) => [Entry(1, RtMultiBulk, NoData, |items|)] + ChildEntries(items)
  }

  /** The replies in preorder. */
  function Flatten(vs: seq<Value>): seq<Entry> {
    if vs == [] then [] else Flatten(vs[..|vs| - 1]) + ValueEntries(vs[|vs| - 1])
  }

  lemma {:induction false} FlattenAt(vs: seq<Value>, i: nat, j: nat)
    requires i < |vs| && j < |ValueEntries(vs[i])|
    ensures |Flatten(vs[..i + 1])| == |Flatten(vs[..i])| + |ValueEntries(vs[i])|
    ensures |Flatten(vs[..i])| + j < |Flatten(vs)|
    ensures Flatten(vs)[|Flatten(vs[..i])| + j] == ValueEntries(vs[i])[j]
    decreases |vs|
  {
    hide ValueEntries;
    var init := vs[..|vs| - 1];
    assert vs[..i + 1][..i] == vs[..i];
    if i < |init| {
      FlattenAt(init, i, j);
      assert init[..i] == vs[..i];
    } else {
      assert vs[..i + 1] == vs;
    }
  }

  // ----- The same entries, told by the text of the replies -----

  /** e is what the text t of a bulk reply says. */
  ghost predicate ItemEntryAsWritten(e: Entry, level: nat, t: seq<Byte>) {
    if e.data.NoData? then e == Entry(level, RtBulkNil, NoData, 0) && IsNilText(t)
    else e == Entry(level, RtBulk, e.data, |e.data.bytes|) && IsBulkText(t, e.data.bytes)
  }

  ghost predicate LineEntryAsWritten(e: Entry, rtype: ReplyType, marker: Byte, t: seq<Byte>) {
    e.data.Data? && e == Entry(1, rtype, e.data, |e.data.bytes|) && IsLineText(t, marker, e.data.bytes)
  }

  /** es is what the text t of a reply says: the reply at level 1, and behind it its children at level 2. */
  ghost predicate EntriesAsWritten(es: seq<Entry>, t: seq<Byte>) {
    && |t| >= 2 && |es| > 0
    && if t[0] == 43 then |es| == 1 && LineEntryAsWritten(es[0], RtOk, 43, t)
       else if t[0] == 45 then |es| == 1 && LineEntryAsWritten(es[0], RtError, 45, t)
       else if t[0] == 58 then |es| == 1 && LineEntryAsWritten(es[0], RtInteger, 58, t)
       else if t[0] == 36 then |es| == 1 && ItemEntryAsWritten(es[0], 1, t)
       else if t[0] == 42 && t[1] == 45 then es == [Entry(1, RtMultiBulkNil, NoData, 0)] && t == [42, 45, 49, 13, 10]
       else
         && t[0] == 42 && es[0] == Entry(1, RtMultiBulk, NoData, |es| - 1)
         && exists ts :: |ts| == |es| - 1 && IsMultiText(t, ts)
                         && forall k :: 0 <= k < |ts| ==> ItemEntryAsWritten(es[k + 1], 2, ts[k])
  }

  lemma ItemEntryWritten(level: nat, i: Item)
    requires WfItem(i)
    ensures ItemEntryAsWritten(ItemEntry(level, ItemMeaning(i)), level, ItemBytes(i))
  {
    hide IsBulkText;
    ItemSpelled(i);
  }

  lemma ChildEntriesWritten(items: seq<Item>)
    requires WfItems(items)
    ensures forall k | 0 <= k < |items| ::
      ItemEntryAsWritten(ChildEntries(ItemMeanings(items))[k], 2, ItemTexts(items)[k])
  {
    hide ItemEntryAsWritten, ItemEntry, ItemMeaning, ItemBytes, WfItem;
    forall k | 0 <= k < |items|
      ensures ItemEntryAsWritten(ChildEntries(ItemMeanings(items))[k], 2, ItemTexts(items)[k])
    {
      assert items[k] in items;
      ItemEntryWritten(2, items[k]);
    }
  }

  lemma MultiEntriesWritten(digits: seq<Byte>, items: seq<Item>)
    requires WfWord(Multi(digits, items))
    ensures EntriesAsWritten(ValueEntries(Meaning(Multi(digits, items))), WordBytes(Multi(digits, items)))
  {
    hide IsMultiText, IsBulkText, ItemEntryAsWritten, DecimalValue, ChildEntries, ItemTexts, ItemMeanings;
    MultiSpelled(digits, items);
    ChildEntriesWritten(items);
    var t, es, cs := WordBytes(Multi(digits, items)), ValueEntries(Meaning(Multi(digits, items))),
                     ChildEntries(ItemMeanings(items));
    assert digits[0] in digits && t[0] == 42 && t[1] == digits[0];
    assert es[0] == Entry(1, RtMultiBulk, NoData, |items|) && es[1..] == cs;
    forall k | 0 <= k < |items|
      ensures ItemEntryAsWritten(es[k + 1], 2, ItemTexts(items)[k])
    {
      assert es[k + 1] == cs[k];
    }
  }

  lemma EntriesWritten(w: Word)
    requires WfWord(w)
    ensures EntriesAsWritten(ValueEntries(Meaning(w)), WordBytes(w))
  {
    match w
    case Line(kind, text) =>
      assert WordBytes(w) == [Marker(kind)] + text + [13, 10];
    case Single(item) =>
      hide IsBulkText, DecimalValue;
      ItemEntryWritten(1, item);
    case NilMulti =>
    case Multi(digits, items) =>
      MultiEntriesWritten(digits, items);
  }

  /** The entries for reply i of a pass are what its text says, if ws are the first replies. */
  lemma ReadAsWritten(vs: seq<Value>, ws: seq<Word>, i: nat)
    requires WfWords(ws) && Meanings(ws) <= vs && i < |ws|
    ensures var all, from, to := Flatten(vs), |Flatten(Meanings(ws[..i]))|, |Flatten(Meanings(ws[..i + 1]))|;
            from <= to <= |all| && EntriesAsWritten(all[from..to], WordBytes(ws[i]))
  {
    hide ValueEntries, Flatten, EntriesAsWritten, Meaning, WfWord;
    assert Meanings(ws[..i]) == vs[..i] && Meanings(ws[..i + 1]) == vs[..i + 1];
    var all, from, es := Flatten(vs), |Flatten(vs[..i])|, ValueEntries(vs[i]);
    forall j | 0 <= j < |es|
      ensures from + j < |all| && all[from + j] == es[j] && |Flatten(vs[..i + 1])| == from + |es|
    {
      FlattenAt(vs, i, j);
    }
    FlattenAt(vs, i, |es| - 1);
    assert all[from..from + |es|] == es;
    assert ws[i] in ws;
    EntriesWritten(ws[i]);
  }

  /** The entry at position at, if it begins the reply for word i, is what the text of the word says. */
  lemma HeadAsWritten(vs: seq<Value>, at: nat)
    requires at < |Flatten(vs)|
    ensures forall ws: seq<Word>, i | WfWords(ws) && Meanings(ws) <= vs && 0 <= i < |ws|
                                      && |Flatten(Meanings(ws[..i]))| == at ::
              exists rest :: EntriesAsWritten([Flatten(vs)[at]] + rest, WordBytes(ws[i]))
  {
    hide Flatten, EntriesAsWritten, Meanings, WfWords, WordBytes;
    forall ws: seq<Word>, i | WfWords(ws) && Meanings(ws) <= vs && 0 <= i < |ws|
                              && |Flatten(Meanings(ws[..i]))| == at
      ensures exists rest :: EntriesAsWritten([Flatten(vs)[at]] + rest, WordBytes(ws[i]))
    {
      ReadAsWritten(vs, ws, i);
      var to := |Flatten(Meanings(ws[..i + 1]))|;
      EntriesNotEmpty(Flatten(vs)[at..to], WordBytes(ws[i]));
      assert Flatten(vs)[at..to] == [Flatten(vs)[at]] + Flatten(vs)[at + 1..to];
    }
  }

  lemma EntriesNotEmpty(es: seq<Entry>, t: seq<Byte>)
    requires EntriesAsWritten(es, t)
    ensures es != []
  {
  }

  /** Where the iterator stands: before reply i, or inside multibulk reply i with j children delivered. */
  datatype Cursor = Top(i: nat) | Inside(i: nat, j: nat)

  /** A position just after the delivery of a reply or a child. */
  predicate WithinReplies(c: Cursor, vs: seq<Value>) {
    match c
    case Top(i) => 0 < i <= |vs|
    case Inside(i, j) => i < |vs| && vs[i].MultiValue? && 0 < j <= |vs[i].items|
  }

  datatype Move = Ended | MovedTo(c: Cursor)

  /** The next node after a position: the next child or, past the last one, the next reply. */
  function AfterMove(c: Cursor, vs: seq<Value>): (m: Move)
    requires c.Inside? ==> c.i < |vs| && vs[c.i].MultiValue? && c.j <= |vs[c.i].items|
    ensures m.MovedTo? ==> WithinReplies(m.c, vs)
  {
    match c
    case Top(i) => if i < |vs| then MovedTo(Top(i + 1)) else Ended
    case Inside(i, j) =>
      if j < |vs[i].items| then MovedTo(Inside(i, j + 1))
      else if i + 1 < |vs| then MovedTo(Top(i + 2))
      else Ended
  }

  function Offset(c: Cursor, vs: seq<Value>): nat
    requires c.i <= |vs|
  {
    |Flatten(vs[..c.i])| + if c.Top? then 0 else 1 + c.j
  }

  /** What is delivered at a position, and the position after that. */
  function EntryAt(c: Cursor, vs: seq<Value>): Entry
    requires WithinReplies(c, vs)
  {
    match c
    case Top(i) => ValueEntries(vs[i - 1])[0]
    case Inside(i, j) => ItemEntry(2, vs[i].items[j - 1])
  }

  function AfterDelivery(c: Cursor, vs: seq<Value>): Cursor
    requires WithinReplies(c, vs)
  {
    if c.Top? && vs[c.i - 1].MultiValue? then Inside(c.i - 1, 0) else c
  }

  /** Moving and delivering goes through the preorder one entry at a time, and ends at its end. */
  ghost predicate OneEntry(c: Cursor, vs: seq<Value>)
    requires c.i <= |vs|
    requires c.Inside? ==> c.i < |vs| && vs[c.i].MultiValue? && c.j <= |vs[c.i].items|
  {
    match AfterMove(c, vs)
    case Ended => Offset(c, vs) == |Flatten(vs)|
    case MovedTo(d) =>
      && Offset(c, vs) < |Flatten(vs)| && Flatten(vs)[Offset(c, vs)] == EntryAt(d, vs)
      && Offset(AfterDelivery(d, vs), vs) == Offset(c, vs) + 1
  }

  lemma PassStepTop(i: nat, vs: seq<Value>)
    requires i <= |vs|
    ensures OneEntry(Top(i), vs)
  {
    hide Flatten;
    if i < |vs| {
      FlattenAt(vs, i, 0);
    } else {
      assert vs[..i] == vs;
    }
  }

  lemma PassStepInside(i: nat, j: nat, vs: seq<Value>)
    requires i < |vs| && vs[i].MultiValue? && j <= |vs[i].items|
    ensures OneEntry(Inside(i, j), vs)
  {
    hide Flatten;
    if j < |vs[i].items| {
      FlattenAt(vs, i, j + 1);
    } else {
      FlattenAt(vs, i, 0);
      PassStepTop(i + 1, vs);
    }
  }

  lemma PassStep(c: Cursor, vs: seq<Value>)
    requires c.i <= |vs|
    requires c.Inside? ==> c.i < |vs| && vs[c.i].MultiValue? && c.j <= |vs[c.i].items|
    ensures OneEntry(c, vs)
  {
    match c
    case Top(i) => PassStepTop(i, vs);
    case Inside(i, j) => PassStepInside(i, j, vs);
  }

  /** The queue, the two buffers and the stack of a new batch, which share nothing. */
  method NewParts() returns (queue: ReplyQueue, r: Buffer, w: Buffer, stack: array<ListHead>)
    ensures queue.Valid() && queue.head.elems == [] && {queue, queue.head} <= queue.Repr
    ensures r.Filling() && r.Contents() == [] && r.capacity >= 8 && r in r.Repr()
    ensures w.Filling() && w.Contents() == [] && w in w.Repr()
    ensures stack[..] == [queue.head, queue.head, queue.head, queue.head]
    ensures fresh(queue.Repr) && fresh(r.Repr()) && fresh(w.Repr()) && fresh(stack)
    ensures r.Repr() !! w.Repr() && queue.Repr !! r.Repr() && queue.Repr !! w.Repr()
    ensures stack !in queue.Repr && stack !in r.Repr() && stack !in w.Repr()
  {
    hide ReplyQueue.Valid;
    queue := new ReplyQueue();
    r := new Buffer(DEFAULT_READ_BUFF_SIZE);
    w := new Buffer(DEFAULT_WRITE_BUFF_SIZE);
    stack := new ListHead[] [queue.head, queue.head, queue.head, queue.head];
  }

  class Batch {
    var numCommands: nat
    const replyQueue: ReplyQueue
    const writeBuffer: Buffer
    const readBuffer: Buffer
    var currentReplySp: nat
    const currentReply: array<ListHead>
    var error: Buffer?

    ghost var Repr: set<object>
    ghost var values: seq<Value>     // the replies, in the order they were added
    ghost var received: seq<Byte>    // the contents of the read buffer
    ghost var message: seq<Byte>     // the text of the error
    ghost var outDone: seq<Byte>     // the write buffer up to its position
    ghost var outLeft: seq<Byte>     // the write buffer from its position to its limit
    ghost var cursor: Cursor         // the position of the iterator

    ghost function From(): Sources
      reads this
    {
      Sources(readBuffer, received, error, message)
    }

    ghost predicate BuffersValid()
      reads this, Repr
    {
      && this in Repr && currentReply in Repr && currentReply.Length == 2 * STACK_SIZE
      && readBuffer in Repr && readBuffer.Repr() <= Repr && readBuffer.Filling() && readBuffer.capacity >= 8
      && writeBuffer in Repr && writeBuffer.Repr() <= Repr && writeBuffer.Valid()
      && readBuffer.Repr() !! writeBuffer.Repr()
      && received == readBuffer.Contents()
      && outDone == writeBuffer.Contents() && outLeft == writeBuffer.Pending()
    }

    ghost predicate ErrorValid()
      requires readBuffer in Repr && writeBuffer in Repr
      reads this, Repr
    {
      error != null ==>
        && error in Repr && error.Repr() <= Repr && error.Valid()
        && error.Repr() !! readBuffer.Repr() && error.Repr() !! writeBuffer.Repr()
        && message == error.Contents()
    }

    ghost predicate QueueValid()
      reads this, Repr
    {
      && replyQueue in Repr && replyQueue.Repr <= Repr && this !in replyQueue.Repr && currentReply !in replyQueue.Repr
      && readBuffer in Repr && readBuffer.Repr() !! replyQueue.Repr
      && writeBuffer in Repr && writeBuffer.Repr() !! replyQueue.Repr
      && (error != null ==> error in Repr && error.Repr() !! replyQueue.Repr)
      && replyQueue.head in replyQueue.Repr
      && replyQueue.Valid() && replyQueue.Says(values, From())
    }

    ghost predicate Valid()
      reads this, Repr
    {
      BuffersValid() && ErrorValid() && QueueValid()
    }

    /** The iterator has not started. */
    ghost predicate AtStart()
      reads this`cursor, this`currentReplySp, currentReply
    {
      && currentReply.Length == 2 * STACK_SIZE && cursor == Top(0)
      && currentReplySp == 0 && currentReply[0] == replyQueue.head && currentReply[1] == replyQueue.head
    }

    constructor ()
      ensures Valid() && fresh(Repr) && AtStart()
      ensures numCommands == 0 && values == [] && error == null && received == []
      ensures outDone == [] && writeBuffer.Filling()
    {
      hide Buffer.Contents, Buffer.Pending, ReplyQueue.Valid, ReplyQueue.Says, ListHead.IsList;
      hide Valid, BuffersValid, ErrorValid, QueueValid, Buffer.Repr;
      numCommands := 0;
      var queue, r, w, stack := NewParts();
      replyQueue, readBuffer, writeBuffer := queue, r, w;
      currentReplySp, currentReply := 0, stack;
      error := null;
      values, received, message, cursor := [], [], [], Top(0);
      Repr := {this, stack} + queue.Repr + r.Repr() + w.Repr();
      new;
      outDone, outLeft := [], writeBuffer.Pending();
      NewIsValid();
    }

    lemma NewIsValid()
      requires replyQueue.Valid() && replyQueue.head.elems == [] && replyQueue.head in replyQueue.Repr
      requires readBuffer.Filling() && readBuffer.capacity >= 8 && writeBuffer.Valid() && error == null
      requires Repr == {this, currentReply} + replyQueue.Repr + readBuffer.Repr() + writeBuffer.Repr()
      requires replyQueue in replyQueue.Repr && {this, currentReply} !! replyQueue.Repr
      requires readBuffer.Repr() !! writeBuffer.Repr()
      requires readBuffer.Repr() !! replyQueue.Repr && writeBuffer.Repr() !! replyQueue.Repr
      requires currentReply.Length == 2 * STACK_SIZE && values == [] && received == readBuffer.Contents()
      requires outDone == writeBuffer.Contents() && outLeft == writeBuffer.Pending()
      ensures Valid()
    {
      replyQueue.SaysNothing(From());
    }

    lemma Within()
      requires Valid()
      ensures this in Repr && currentReply in Repr && currentReply.Length == 2 * STACK_SIZE
      ensures replyQueue in Repr && replyQueue.Repr <= Repr && this !in replyQueue.Repr
      ensures readBuffer in Repr && readBuffer.Repr() <= Repr && writeBuffer in Repr && writeBuffer.Repr() <= Repr
    {
    }

    lemma ReadBufferFacts()
      requires Valid()
      ensures readBuffer.Valid() && readBuffer.position == |received| && readBuffer.Contents() == received
      ensures readBuffer in Repr && readBuffer.data in Repr
    {
    }

    /** Batch_write */
    method Write(bytes: seq<Byte>, commands: nat)
      requires Valid() && writeBuffer.Filling()
      modifies this`numCommands, this`Repr, this`outDone, this`outLeft, writeBuffer, writeBuffer.data
      ensures Valid() && writeBuffer.Filling() && fresh(Repr - old(Repr))
      ensures writeBuffer.data == old(writeBuffer.data) || fresh(writeBuffer.data)
      ensures outDone == old(outDone) + bytes
      ensures numCommands == old(numCommands) + commands
    {
      hide ReplyQueue.Valid, ReplyQueue.Says, Buffer.Contents, Buffer.Pending;
      if |bytes| > 0 {
        writeBuffer.Write(bytes);
        Repr := Repr + writeBuffer.Repr();
        outDone, outLeft := writeBuffer.Contents(), writeBuffer.Pending();
      } else {
        assert outDone + bytes == outDone;
      }
      numCommands := numCommands + commands;
    }

    /** Batch_write_decimal */
    method WriteDecimal(n: int)
      requires Valid() && writeBuffer.Filling()
      modifies this`numCommands, this`Repr, this`outDone, this`outLeft, writeBuffer, writeBuffer.data
      ensures Valid() && writeBuffer.Filling() && fresh(Repr - old(Repr))
      ensures writeBuffer.data == old(writeBuffer.data) || fresh(writeBuffer.data)
      ensures outDone == old(outDone) + PrintInt(n) && numCommands == old(numCommands)
    {
      Write(PrintInt(n), 0);
    }

    /** Batch_has_command */
    predicate HasCommand()
      reads this
    {
      numCommands > 0
    }

    /** Batch_add_reply */
    method AddReply(n: ListHead, ghost foot: set<object>, ghost v: Value)
      requires Valid() && HasCommand()
      requires Owns(n, foot) && foot !! Repr && Means(n, v, From())
      modifies this`numCommands, this`values, this`Repr
      modifies replyQueue.Repr, n`next, n`prev
      ensures Valid() && Repr == old(Repr) + foot && replyQueue.Repr == old(replyQueue.Repr) + foot
      ensures values == old(values) + [v] && numCommands == old(numCommands) - 1
      ensures AtStart() == old(AtStart())
    {
      hide ReplyQueue.Valid, ReplyQueue.Says, Means, Owns, ListHead.IsList;
      numCommands := numCommands - 1;
      replyQueue.Add(n, foot, v, values, From());
      values := values + [v];
      Repr := Repr + foot;
    }

    /** Buffer_flip on the write buffer: everything written so far is what will be sent. */
    method FlipWriteBuffer()
      requires Valid()
      modifies this`outDone, this`outLeft, writeBuffer
      ensures Valid() && outDone == [] && outLeft == old(outDone)
    {
      hide ReplyQueue.Valid, ReplyQueue.Says;
      writeBuffer.Flip();
      outDone, outLeft := writeBuffer.Contents(), writeBuffer.Pending();
    }

    /** Buffer_remaining of the write buffer. */
    method Remaining() returns (n: nat)
      requires Valid()
      ensures n == |outLeft|
    {
      n := writeBuffer.Remaining();
    }

    /** Buffer_send on the write buffer. */
    method Send(peer: Endpoint) returns (res: int, again: bool)
      requires Valid() && outLeft != [] && peer !in Repr
      modifies this`outDone, this`outLeft, writeBuffer`position, peer
      ensures Valid()
      ensures if res == -1
              then outDone == old(outDone) && outLeft == old(outLeft) && peer.sent == old(peer.sent)
              else 0 < res <= |old(outLeft)| && outLeft == old(outLeft)[res..]
                   && outDone == old(outDone) + old(outLeft)[..res]
                   && peer.sent == old(peer.sent) + old(outLeft)[..res]
      ensures peer.received == old(peer.received) && peer.eof == old(peer.eof)
      ensures peer.sockets == old(peer.sockets) && peer.patience == old(peer.patience)
      ensures old(peer.moments) <= peer.moments && peer.Now() in peer.moments
      ensures peer.troubles == old(peer.troubles) + (if res == -1 && !again then 1 else 0)
      ensures peer.full == old(peer.full) + (if res == -1 && again then 1 else 0)
      ensures peer.dry == old(peer.dry) && peer.pending == old(peer.pending)
    {
      hide ReplyQueue.Valid, ReplyQueue.Says;
      res, again := writeBuffer.Send(peer);
      outDone, outLeft := writeBuffer.Contents(), writeBuffer.Pending();
    }

    /** Buffer_recv on the read buffer: earlier replies keep their meaning. */
    method Recv(peer: Endpoint) returns (res: int, again: bool)
      requires Valid() && peer !in Repr
      modifies this`received, this`Repr, readBuffer, readBuffer.data, peer
      ensures Valid() && fresh(Repr - old(Repr))
      ensures old(received) <= received && peer.received == old(peer.received) + received[|old(received)|..]
      ensures res >= -1
      ensures if res == -1 then received == old(received) else |received| == |old(received)| + res
      ensures res == 0 ==> peer.eof
      ensures res != 0 ==> peer.eof == old(peer.eof)
      ensures peer.sent == old(peer.sent) && peer.sockets == old(peer.sockets)
      ensures peer.patience + (if res > 0 then 1 else 0) <= old(peer.patience)
      ensures old(peer.moments) <= peer.moments && peer.Now() in peer.moments
      ensures peer.troubles == old(peer.troubles) + if (res == -1 && !again) || res == 0 then 1 else 0
      ensures peer.dry == old(peer.dry) + (if res == -1 && again then 1 else 0)
      ensures peer.full == old(peer.full) && peer.pending == old(peer.pending)
    {
      hide ReplyQueue.Valid, ReplyQueue.Says;
      res, again := readBuffer.Recv(peer);
      received := readBuffer.Contents();
      Repr := Repr + readBuffer.Repr();
      replyQueue.SaysMore(values, old(From()), From());
    }

    /** The first half of Batch_abort: the error text, with its terminating zero. */
    method SetError(text: seq<Byte>)
      requires Valid() && error == null
      modifies this`Repr, this`error, this`message
      ensures Valid() && fresh(Repr - old(Repr))
      ensures error != null && message == text + [0]
    {
      hide ReplyQueue.Valid, ReplyQueue.Says;
      var length := |text| + 1;
      var e := new Buffer(length);
      e.Write(text + [0]);
      error, message := e, text + [0];
      Repr := Repr + e.Repr();
      replyQueue.SaysError(values, old(From()), From());
    }

    lemma ErrorsSnoc(n: nat, text: seq<Byte>)
      ensures Errors(n, text) + [LineValue(ErrorLine, text)] == Errors(n + 1, text)
    {
    }

    /** One error reply. */
    method AddError(length: nat)
      requires Valid() && HasCommand() && error != null && length == |message|
      modifies this`numCommands, this`values, this`Repr
      modifies replyQueue.Repr
      ensures Valid() && fresh(Repr - old(Repr)) && fresh(replyQueue.Repr - old(replyQueue.Repr))
      ensures values == old(values) + [LineValue(ErrorLine, message)] && numCommands == old(numCommands) - 1
      ensures AtStart() == old(AtStart())
    {
      hide ReplyQueue.Valid, ReplyQueue.Says, ListHead.IsList;
      var n := NewReply(RtError, error, 0, length);
      assert Owns(n, {n, n.reply.children}) by {
        NewOwns(n);
      }
      AddReply(n, {n, n.reply.children}, LineValue(ErrorLine, message));
    }

    /** Batch_abort: every command that has no reply yet gets the error as its reply. */
    method Abort(text: seq<Byte>)
      requires Valid() && error == null
      modifies this`numCommands, this`values, this`Repr, this`error, this`message
      modifies replyQueue.Repr
      ensures Valid() && fresh(Repr - old(Repr)) && fresh(replyQueue.Repr - old(replyQueue.Repr))
      ensures numCommands == 0 && error != null && message == text + [0]
      ensures values == old(values) + Errors(old(numCommands), message)
      ensures AtStart() == old(AtStart())
    {
      hide Valid, Errors;
      SetError(text);
      ghost var done := 0;
      assert values == old(values) + Errors(0, message);
      while HasCommand()
        invariant Valid() && fresh(Repr - old(Repr)) && fresh(replyQueue.Repr - old(replyQueue.Repr))
        invariant error != null && message == text + [0]
        invariant done + numCommands == old(numCommands) && values == old(values) + Errors(done, message)
        invariant AtStart() == old(AtStart())
        decreases numCommands
      {
        Within();
        AddError(|text| + 1);
        ErrorsSnoc(done, message);
        done := done + 1;
      }
    }

    // ----- The iterator -----

    /** The stack of the iterator is what its position says. */
    ghost predicate IterValid()
      requires Valid()
      reads this, Repr
    {
      var head, es := replyQueue.head, replyQueue.head.elems;
      && cursor.i <= |es| == |values|
      && currentReply.Length == 2 * STACK_SIZE && currentReply[1] == head
      && match cursor
         case Top(i) =>
           currentReplySp == 0 && currentReply[0] == (if i == 0 then head else es[i - 1])
         case Inside(i, j) =>
           && i < |es| && values[i].MultiValue? && j <= |values[i].items|
           && currentReplySp == 2
           && currentReply[0] == (if i + 1 < |es| then es[i + 1] else head)
           && es[i].reply.InReply? && es[i].reply.children in Repr
           && var kids := es[i].reply.children;
              && |kids.elems| == |values[i].items|
              && currentReply[2] == (if j == 0 then kids else kids.elems[j - 1])
              && currentReply[3] == kids
    }

    /** How many results the current pass has delivered. */
    ghost function Position(): nat
      requires Valid() && IterValid()
      reads this, Repr
    {
      Offset(cursor, values)
    }

    static lemma InContents(s: seq<Byte>, n: nat, from: nat, to: nat)
      requires from <= to <= n <= |s|
      ensures s[from..to] == s[..n][from..to]
    {
    }

    /** Reply_data, as far as len. */
    method ReplyData(n: ListHead, ghost v: seq<Byte>) returns (d: Data)
      requires BuffersValid() && ErrorValid() && n.reply.InReply?
      requires (n.reply.buffer == readBuffer && Selects(received, n.reply.offset, n.reply.len, v))
               || (error != null && n.reply.buffer == error && Selects(message, n.reply.offset, n.reply.len, v))
      ensures d == Data(v) && |v| == n.reply.len
    {
      var b := n.reply.buffer;
      var from, to := n.reply.offset, n.reply.offset + n.reply.len;
      assert to <= b.position;
      InContents(b.data[..], b.position, from, to);
      d := Data(b.data[from..to]);
    }

    /** The ring structure the iterator walks on, at the top level. */
    lemma TopRing(i: nat)
      requires Valid() && i <= |values|
      ensures |replyQueue.head.elems| == |values|
      ensures var head, es := replyQueue.head, replyQueue.head.elems;
              (if i == 0 then head else es[i - 1]).next == (if i < |es| then es[i] else head)
              && (i < |es| ==> es[i] != head)
    {
    }

    /** The ring structure inside multibulk reply i. */
    lemma ChildRing(i: nat, j: nat)
      requires Valid() && i < |values| && values[i].MultiValue? && j <= |values[i].items|
      ensures |replyQueue.head.elems| == |values|
      ensures var n := replyQueue.head.elems[i];
              n.reply.InReply? && n.reply.children in Repr && |n.reply.children.elems| == |values[i].items|
      ensures var kids := replyQueue.head.elems[i].reply.children;
              (if j == 0 then kids else kids.elems[j - 1]).next == (if j < |kids.elems| then kids.elems[j] else kids)
              && (j < |kids.elems| ==> kids.elems[j] != kids)
    {
      assert replyQueue.Owned(i) && Means(replyQueue.head.elems[i], values[i], From());
    }

    /** Moving the iterator changes nothing else. */
    twostate lemma StackMoved()
      requires old(Valid())
      requires Repr == old(Repr) && values == old(values) && received == old(received)
      requires outDone == old(outDone) && outLeft == old(outLeft)
      requires message == old(message) && error == old(error)
      requires forall o | o in Repr && o != this && o != currentReply :: unchanged(o)
      ensures Valid()
      ensures replyQueue.head.elems == old(replyQueue.head.elems)
    {
      hide ReplyQueue.Valid, ReplyQueue.Says;
    }

    /** The first half of Batch_next_reply: move to the next node, leaving a level if it is exhausted. */
    method Advance() returns (current: ListHead?)
      requires Valid() && IterValid()
      modifies this`currentReplySp, this`cursor, currentReply
      ensures Valid() && IterValid()
      ensures match AfterMove(old(cursor), values)
              case Ended => current == null && AtStart()
              case MovedTo(c) => cursor == c && current == NodeAt(c)
    {
      hide ReplyQueue.Valid, ReplyQueue.Says, ReplyQueue.Owned, Valid, ListHead.IsList;
      ghost var i := cursor.i;
      if cursor.Top? {
        TopRing(i);
      } else {
        ChildRing(i, cursor.j);
        TopRing(i + 1);
      }
      current := currentReply[currentReplySp].next;
      if current == currentReply[currentReplySp + 1] {
        currentReply[currentReplySp] := current;
        if currentReplySp > 0 {
          currentReplySp := currentReplySp - 2;
          current := currentReply[currentReplySp];
          if current == currentReply[currentReplySp + 1] {
            cursor := Top(0);
            current := null;
          } else {
            cursor := Top(i + 2);
          }
        } else {
          cursor := Top(0);
          current := null;
        }
      } else {
        currentReply[currentReplySp] := current;
        cursor := if cursor.Top? then Top(cursor.i + 1) else Inside(cursor.i, cursor.j + 1);
      }
      StackMoved();
    }

    /** The node the iterator has just moved to. */
    ghost function NodeAt(c: Cursor): ListHead
      requires Valid() && |replyQueue.head.elems| == |values|
      requires WithinReplies(c, values)
      reads this, Repr
    {
      ElemsOwned();
      match c
      case Top(i) => replyQueue.head.elems[i - 1]
      case Inside(i, j) => replyQueue.head.elems[i].reply.children.elems[j - 1]
    }

    lemma ElemsOwned()
      requires Valid()
      ensures |replyQueue.head.elems| == |values|
      ensures forall k | 0 <= k < |values| ::
        var n := replyQueue.head.elems[k];
        n.reply.InReply? && n.reply.children in Repr
        && (values[k].MultiValue? ==> |n.reply.children.elems| == |values[k].items|)
    {
      assert forall k | 0 <= k < |values| :: replyQueue.Owned(k) && Means(replyQueue.head.elems[k], values[k], From());
    }

    /** What a node means is what its position says. */
    lemma NodeMeans(c: Cursor)
      requires Valid() && |replyQueue.head.elems| == |values| && WithinReplies(c, values)
      ensures NodeAt(c).reply.InReply?
      ensures match c
              case Top(i) => Means(NodeAt(c), values[i - 1], From())
              case Inside(i, j) => Means(NodeAt(c), ItemValue(values[i].items[j - 1]), From())
    {
      ElemsOwned();
      match c
      case Top(i) => assert replyQueue.Owned(i - 1);
      case Inside(i, j) =>
        var n := replyQueue.head.elems[i];
        assert replyQueue.Owned(i) && Means(n, values[i], From());
        assert ItemDenotes(n.reply.children.elems[j - 1], values[i].items[j - 1], readBuffer, received)
          || ItemDenotes(n.reply.children.elems[j - 1], values[i].items[j - 1], error, message);
    }

    /** Into the children of the multibulk reply just delivered; the saved position is already past it. */
    method Descend(n: ListHead)
      requires Valid() && IterValid() && WithinReplies(cursor, values) && n == NodeAt(cursor)
      requires cursor.Top? && values[cursor.i - 1].MultiValue?
      modifies this`currentReplySp, this`cursor, currentReply
      ensures Valid() && IterValid() && cursor == AfterDelivery(old(cursor), values)
    {
      hide ReplyQueue.Valid, ReplyQueue.Says, ReplyQueue.Owned, Valid, ListHead.IsList;
      TopRing(cursor.i);
      ElemsOwned();
      currentReply[currentReplySp] := n.next;
      currentReplySp := currentReplySp + 2;
      assert currentReplySp <= STACK_SIZE * 2;
      currentReply[currentReplySp] := n.reply.children;
      currentReply[currentReplySp + 1] := n.reply.children;
      cursor := Inside(cursor.i - 1, 0);
      StackMoved();
    }

    /** The second half of Batch_next_reply: what the current node holds. */
    method Deliver(n: ListHead) returns (level: nat, rtype: ReplyType, data: Data, len: nat)
      requires Valid() && IterValid() && WithinReplies(cursor, values) && n == NodeAt(cursor)
      modifies this`currentReplySp, this`cursor, currentReply
      ensures Valid() && IterValid() && cursor == AfterDelivery(old(cursor), values)
      ensures level > 0 && Entry(level, rtype, data, len) == EntryAt(old(cursor), values)
    {
      hide ReplyQueue.Valid, ReplyQueue.Says, ReplyQueue.Owned, ListHead.IsList;
      hide ItemsDenote, Selects, BuffersValid, ErrorValid, AtStart;
      NodeMeans(cursor);
      level := currentReplySp / 2 + 1;
      rtype := n.reply.rtype;
      data := NoData;
      if rtype == RtOk || rtype == RtError || rtype == RtBulk || rtype == RtInteger {
        ghost var d := EntryAt(cursor, values).data;
        data := ReplyData(n, d.bytes);
      } else if rtype == RtMultiBulk {
        Descend(n);
      }
      len := n.reply.len;
    }

    lemma CursorBounds()
      requires Valid() && IterValid()
      ensures cursor.i <= |values|
      ensures cursor.Inside? ==>
        cursor.i < |values| && values[cursor.i].MultiValue? && cursor.j <= |values[cursor.i].items|
    {
      hide Valid;
    }

    /** Batch_next_reply */
    method NextReply() returns (level: nat, rtype: ReplyType, data: Data, len: nat)
      requires Valid() && IterValid()
      modifies this`currentReplySp, this`cursor, currentReply
      ensures Valid() && IterValid()
      ensures if old(Position()) < |Flatten(values)|
              then Entry(level, rtype, data, len) == Flatten(values)[old(Position())]
                   && level > 0 && Position() == old(Position()) + 1
              else level == 0 && rtype == RtNone && data == NoData && len == 0 && AtStart()
      // Byte by byte, if the first replies are those for ws.
      ensures old(Position()) < |Flatten(values)| ==>
        forall ws: seq<Word>, i | WfWords(ws) && Meanings(ws) <= values && 0 <= i < |ws|
                                  && |Flatten(Meanings(ws[..i]))| == old(Position()) ::
          exists rest :: EntriesAsWritten([Entry(level, rtype, data, len)] + rest, WordBytes(ws[i]))
    {
      hide Valid, IterValid, AtStart, Flatten, Offset, EntryAt, AfterDelivery, EntriesAsWritten, Meanings, WfWords;
      hide WordBytes;
      if Position() < |Flatten(values)| {
        HeadAsWritten(values, Position());
      }
      CursorBounds();
      PassStep(cursor, values);
      var n := Advance();
      if n == null {
        return 0, RtNone, NoData, 0;
      }
      level, rtype, data, len := Deliver(n);
    }

    /** A fresh iterator is at the start of a pass. */
    lemma StartOfPass()
      requires Valid() && AtStart()
      ensures IterValid() && Position() == 0
    {
      TopRing(0);
      assert values[..0] == [];
    }

    /** A whole pass over the replies, as a caller makes it; it can be repeated. */
    method ReadAll() returns (es: seq<Entry>)
      requires Valid() && AtStart()
      modifies this`currentReplySp, this`cursor, currentReply
      ensures Valid() && AtStart() && es == Flatten(values)
    {
      hide Valid, IterValid, Flatten, Offset;
      Within();
      StartOfPass();
      ghost var all := Flatten(values);
      es := [];
      var level, rtype, data, len := NextReply();
      while level > 0
        invariant Valid() && IterValid() && currentReply.Length == 2 * STACK_SIZE
        invariant all == Flatten(values) && |es| <= |all| && es == all[..|es|]
        invariant level > 0 ==> Position() == |es| + 1 <= |all| && Entry(level, rtype, data, len) == all[|es|]
        invariant level == 0 ==> AtStart() && |es| == |all|
        decreases |all| - |es|, level
      {
        es := es + [Entry(level, rtype, data, len)];
        level, rtype, data, len := NextReply();
      }
    }
  }
}
