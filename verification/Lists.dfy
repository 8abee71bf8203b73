/**
 The intrusive circular doubly linked lists, and the replies that are their members.

 A ListHead is the two-pointer struct of list.h. It is either a bare head or the node embedded in a
 Reply; reply says which, so casting a node back to its Reply (list_entry) is a look at that field.
 The fields of a Reply other than its node never change once it has been made.
 */
module Lists {
  import opened Buffers

  datatype ReplyType = RtNone | RtError | RtOk | RtBulkNil | RtBulk | RtMultiBulkNil | RtMultiBulk | RtInteger

  datatype Embedding =
    | Bare
    | InReply(rtype: ReplyType, buffer: Buffer?, offset: nat, len: nat, children: ListHead)

  class ListHead {
    var next: ListHead?
    var prev: ListHead?
    const reply: Embedding
    ghost var elems: seq<ListHead>   // the members, when this is the head of a list

    /** An uninitialized node. */
    constructor (reply: Embedding)
      ensures this.reply == reply && elems == []
    {
      this.reply := reply;
      next, prev, elems := null, null, [];
    }

    /** The pointers of the head and of all members form one ring, in the order of elems. */
    ghost predicate IsList()
      reads this, elems
    {
      var n := |elems|;
      && this !in elems
      && (forall i, j :: 0 <= i < j < n ==> elems[i] != elems[j])
      && next == (if n == 0 then this else elems[0])
      && prev == (if n == 0 then this else elems[n - 1])
      && (forall i {:trigger elems[i].next} :: 0 <= i < n ==>
            elems[i].next == if i + 1 < n then elems[i + 1] else this)
      && (forall i {:trigger elems[i].prev} :: 0 <= i < n ==>
            elems[i].prev == if i > 0 then elems[i - 1] else this)
    }

    /** A ring of which no pointer has changed. */
    twostate lemma Kept()
      requires old(IsList()) && unchanged(this`next, this`prev, this`elems)
      requires forall i | 0 <= i < |elems| :: elems[i].next == old(elems[i].next)
      requires forall i | 0 <= i < |elems| :: elems[i].prev == old(elems[i].prev)
      ensures IsList()
    {
    }

    /** The last member, or the head of an empty list. */
    ghost function Last(): ListHead
      reads this
    {
      if elems == [] then this else elems[|elems| - 1]
    }

    /** INIT_LIST_HEAD */
    method Init()
      modifies this
      ensures IsList() && elems == []
    {
      next, prev := this, this;
      elems := [];
    }

    /** list_empty */
    method IsEmpty() returns (empty: bool)
      requires IsList()
      ensures empty <==> elems == []
    {
      empty := next == this;
    }

    /** list_add_tail; the new node may hold anything in its pointers. */
    method AddTail(node: ListHead)
      requires IsList() && node != this && node !in elems
      modifies this, Last()`next, node`next, node`prev
      ensures IsList() && elems == old(elems) + [node]
    {
      LinkBetween(node, prev, this);
      elems := elems + [node];
    }

    /** list_pop: unlinks the last member. */
    method Pop() returns (entry: ListHead)
      requires IsList() && elems != []
      modifies this, elems
      ensures IsList() && old(elems) == elems + [entry]
      ensures entry.next == null && entry.prev == null
      ensures forall e | e in old(elems) :: e.elems == old(e.elems)
    {
      entry := prev;
      Unlink(entry.prev, entry.next);
      entry.next, entry.prev := null, null;
      elems := elems[..|elems| - 1];
    }
  }

  /** __list_add */
  method LinkBetween(node: ListHead, prev: ListHead, next: ListHead)
    requires node != prev && node != next
    modifies node`next, node`prev, prev`next, next`prev
    ensures prev.next == node && node.next == next && next.prev == node && node.prev == prev
    ensures prev != next ==> prev.prev == old(prev.prev) && next.next == old(next.next)
  {
    next.prev := node;
    node.next := next;
    node.prev := prev;
    prev.next := node;
  }

  /** __list_del */
  method Unlink(prev: ListHead, next: ListHead)
    modifies prev`next, next`prev
    ensures next.prev == prev && prev.next == next
  {
    next.prev := prev;
    prev.next := next;
  }
}

/** Replies: what the nodes of the lists stand for. */
module Replies {
  import opened Bytes
  import opened Grammar
  import opened Buffers
  import opened Lists

  function TypeOf(k: Kind): ReplyType {
    match k
    case OkLine => RtOk
    case ErrorLine => RtError
    case IntegerLine => RtInteger
  }

  /** offset and len select the bytes text in the contents of a buffer. */
  predicate Selects(contents: seq<Byte>, offset: nat, len: nat, text: seq<Byte>) {
    offset + len <= |contents| && contents[offset..offset + len] == text
  }

  /** n is a bulk reply, with its body in the buffer. */
  ghost predicate ItemDenotes(n: ListHead, v: ItemValue, buffer: Buffer, contents: seq<Byte>) {
    && n.reply.InReply?
    && match v
       case NilValue => n.reply.rtype == RtBulkNil && n.reply.len == 0
       case BytesValue(body) =>
         n.reply.rtype == RtBulk && n.reply.buffer == buffer
         && Selects(contents, n.reply.offset, n.reply.len, body)
  }

  ghost predicate ItemsDenote(ns: seq<ListHead>, vs: seq<ItemValue>, buffer: Buffer, contents: seq<Byte>) {
    |ns| == |vs| && forall k :: 0 <= k < |ns| ==> ItemDenotes(ns[k], vs[k], buffer, contents)
  }

  /** n is a reply; its children form a list of their own. */
  ghost predicate WfReply(n: ListHead)
    reads if n.reply.InReply? then {n.reply.children} else {}
    reads if n.reply.InReply? then n.reply.children.elems else []
  {
    n.reply.InReply? && n != n.reply.children && n !in n.reply.children.elems && n.reply.children.IsList()
  }

  /** n has the given meaning; the len of a multibulk reply is its number of children. */
  ghost predicate Denotes(n: ListHead, v: Value, buffer: Buffer, contents: seq<Byte>)
    reads if n.reply.InReply? then {n.reply.children} else {}
  {
    && n.reply.InReply?
    && match v
       case LineValue(kind, text) =>
         n.reply.rtype == TypeOf(kind) && n.reply.buffer == buffer
         && Selects(contents, n.reply.offset, n.reply.len, text)
       case ItemValue(item) => ItemDenotes(n, item, buffer, contents)
       case NilMultiValue => n.reply.rtype == RtMultiBulkNil && n.reply.len == 0
       case MultiValue(items) =>
         n.reply.rtype == RtMultiBulk && n.reply.len == |items|
         && ItemsDenote(n.reply.children.elems, items, buffer, contents)
  }

  lemma ItemsDenoteSnoc(ns: seq<ListHead>, items: seq<Item>, n: ListHead, item: Item, buffer: Buffer,
                        contents: seq<Byte>)
    requires ItemsDenote(ns, ItemMeanings(items), buffer, contents)
    requires ItemDenotes(n, ItemMeaning(item), buffer, contents)
    ensures ItemsDenote(ns + [n], ItemMeanings(items + [item]), buffer, contents)
  {
    hide ItemDenotes, ItemMeaning;
    forall k | 0 <= k <= |ns|
      ensures ItemDenotes((ns + [n])[k], ItemMeanings(items + [item])[k], buffer, contents)
    {
      assert k < |ns| ==> ItemDenotes(ns[k], ItemMeanings(items)[k], buffer, contents);
    }
  }

  /** n is made of the item that begins at position at of the buffer: a body is behind its length. */
  ghost predicate ItemAt(n: ListHead, item: Item, at: int) {
    && n.reply.InReply?
    && n.reply.offset == match item
                         case NilBulk => 0
                         case Bulk(digits, _) => at + 1 + |digits| + 2
  }

  /** The items follow each other from position at on. */
  ghost predicate ItemsAt(ns: seq<ListHead>, items: seq<Item>, at: int) {
    |ns| == |items| && forall k :: 0 <= k < |ns| ==> ItemAt(ns[k], items[k], at + |ItemsBytes(items[..k])|)
  }

  lemma ItemsAtSnoc(ns: seq<ListHead>, items: seq<Item>, n: ListHead, item: Item, at: int)
    requires ItemsAt(ns, items, at) && ItemAt(n, item, at + |ItemsBytes(items)|)
    ensures ItemsAt(ns + [n], items + [item], at)
  {
    hide ItemAt, ItemsBytes;
    forall k | 0 <= k <= |ns|
      ensures ItemAt((ns + [n])[k], (items + [item])[k], at + |ItemsBytes((items + [item])[..k])|)
    {
      assert (items + [item])[..k] == items[..k];
      assert items[..|ns|] == items;
    }
  }

  /** n is made of the word that begins at position at of the buffer. */
  ghost predicate WordAt(n: ListHead, w: Word, at: int)
    reads if n.reply.InReply? then {n.reply.children} else {}
  {
    && n.reply.InReply?
    && match w
       case Line(_, _) => n.reply.offset == at + 1
       case Single(item) => ItemAt(n, item, at)
       case NilMulti => n.reply.offset == 0
       case Multi(digits, items) =>
         n.reply.offset == 0 && ItemsAt(n.reply.children.elems, items, at + 1 + |digits| + 2)
  }

  /** n is what the text t of a one-line reply says. */
  ghost predicate LineAsWritten(n: ListHead, t: seq<Byte>, marker: Byte, contents: seq<Byte>) {
    && n.reply.InReply? && n.reply.offset + n.reply.len <= |contents|
    && IsLineText(t, marker, contents[n.reply.offset..n.reply.offset + n.reply.len])
  }

  /** n is what the text t of a bulk reply says. */
  ghost predicate ItemAsWritten(n: ListHead, t: seq<Byte>, contents: seq<Byte>) {
    && n.reply.InReply?
    && if n.reply.rtype == RtBulkNil then IsNilText(t)
       else n.reply.rtype == RtBulk && n.reply.offset + n.reply.len <= |contents|
            && IsBulkText(t, contents[n.reply.offset..n.reply.offset + n.reply.len])
  }

  /** n is what the text t of a reply says, whose first byte tells of which type it is. */
  ghost predicate AsWritten(n: ListHead, t: seq<Byte>, contents: seq<Byte>)
    reads if n.reply.InReply? then {n.reply.children} else {}
  {
    && |t| >= 2 && n.reply.InReply?
    && var rtype, children := n.reply.rtype, n.reply.children.elems;
       if t[0] == 43 then rtype == RtOk && LineAsWritten(n, t, 43, contents)
       else if t[0] == 45 then rtype == RtError && LineAsWritten(n, t, 45, contents)
       else if t[0] == 58 then rtype == RtInteger && LineAsWritten(n, t, 58, contents)
       else if t[0] == 36 then rtype == (if t[1] == 45 then RtBulkNil else RtBulk) && ItemAsWritten(n, t, contents)
       else if t[0] == 42 && t[1] == 45 then rtype == RtMultiBulkNil && t == [42, 45, 49, 13, 10]
       else
         && t[0] == 42 && rtype == RtMultiBulk && n.reply.len == |children|
         && exists ts :: IsMultiText(t, ts) && ChildrenAsWritten(children, ts, contents)
  }

  ghost predicate ChildrenAsWritten(ns: seq<ListHead>, ts: seq<seq<Byte>>, contents: seq<Byte>) {
    |ns| == |ts| && forall k :: 0 <= k < |ns| ==> ItemAsWritten(ns[k], ts[k], contents)
  }

  lemma ItemWritten(n: ListHead, i: Item, buffer: Buffer, contents: seq<Byte>)
    requires WfItem(i) && ItemDenotes(n, ItemMeaning(i), buffer, contents)
    ensures n.reply.InReply? && n.reply.rtype == if i.NilBulk? then RtBulkNil else RtBulk
    ensures ItemAsWritten(n, ItemBytes(i), contents)
  {
    hide IsBulkText;
    ItemSpelled(i);
  }

  lemma ItemsWritten(ns: seq<ListHead>, items: seq<Item>, buffer: Buffer, contents: seq<Byte>)
    requires WfItems(items) && ItemsDenote(ns, ItemMeanings(items), buffer, contents)
    ensures |ns| == |items| && ChildrenAsWritten(ns, ItemTexts(items), contents)
  {
    hide ItemDenotes, ItemMeaning, ItemAsWritten, ItemBytes, WfItem;
    forall k | 0 <= k < |ns|
      ensures ItemAsWritten(ns[k], ItemTexts(items)[k], contents)
    {
      assert items[k] in items && ItemDenotes(ns[k], ItemMeanings(items)[k], buffer, contents);
      ItemWritten(ns[k], items[k], buffer, contents);
    }
  }

  lemma LineWritten(n: ListHead, kind: Kind, text: seq<Byte>, buffer: Buffer, contents: seq<Byte>)
    requires CR !in text && Denotes(n, LineValue(kind, text), buffer, contents)
    ensures AsWritten(n, WordBytes(Line(kind, text)), contents)
  {
    hide IsMultiText, ItemAsWritten, ItemDenotes, ItemsDenote, ChildrenAsWritten;
    assert WordBytes(Line(kind, text)) == [Marker(kind)] + text + [13, 10];
  }

  lemma SingleWritten(n: ListHead, item: Item, buffer: Buffer, contents: seq<Byte>)
    requires WfItem(item) && ItemDenotes(n, ItemMeaning(item), buffer, contents)
    ensures AsWritten(n, ItemBytes(item), contents)
  {
    hide IsMultiText, ItemAsWritten, ItemDenotes, LineAsWritten, ChildrenAsWritten, DecimalValue;
    ItemWritten(n, item, buffer, contents);
    assert item.Bulk? ==> item.digits[0] in item.digits && ItemBytes(item)[1] == item.digits[0];
  }

  lemma MultiWritten(n: ListHead, digits: seq<Byte>, items: seq<Item>, buffer: Buffer, contents: seq<Byte>)
    requires WfWord(Multi(digits, items)) && Denotes(n, MultiValue(ItemMeanings(items)), buffer, contents)
    ensures AsWritten(n, WordBytes(Multi(digits, items)), contents)
  {
    hide IsMultiText, ItemAsWritten, ItemsDenote, LineAsWritten, ChildrenAsWritten, DecimalValue, ItemsBytes;
    MultiSpelled(digits, items);
    ItemsWritten(n.reply.children.elems, items, buffer, contents);
    var t := WordBytes(Multi(digits, items));
    assert digits[0] in digits && t[0] == 42 && t[1] == digits[0];
    assert IsMultiText(t, ItemTexts(items)) && ChildrenAsWritten(n.reply.children.elems, ItemTexts(items), contents);
  }

  /** A reply with the meaning of a word is what the text of the word says. */
  lemma Written(n: ListHead, w: Word, buffer: Buffer, contents: seq<Byte>)
    requires WfWord(w) && Denotes(n, Meaning(w), buffer, contents)
    ensures AsWritten(n, WordBytes(w), contents)
  {
    match w
    case Line(kind, text) =>
      hide AsWritten;
      LineWritten(n, kind, text, buffer, contents);
    case Single(item) =>
      hide AsWritten;
      SingleWritten(n, item, buffer, contents);
    case NilMulti =>
    case Multi(digits, items) =>
      hide AsWritten;
      MultiWritten(n, digits, items, buffer, contents);
  }

  /** The heap objects that belong to a reply. */
  ghost function Footprint(n: ListHead): set<object>
    requires n.reply.InReply?
    reads n.reply.children
  {
    {n, n.reply.children} + set e | e in n.reply.children.elems
  }

  lemma InFootprint(n: ListHead)
    requires WfReply(n)
    ensures n.reply.InReply? && n in Footprint(n)
  {
  }

  /** foot is the set of heap objects that belong to the reply n. */
  ghost predicate Owns(n: ListHead, foot: set<object>)
    reads if n.reply.InReply? then {n.reply.children} else {}
    reads if n.reply.InReply? then n.reply.children.elems else []
  {
    WfReply(n) && foot == Footprint(n)
  }

  /** A reply without children owns its node and the head of its empty list. */
  lemma NewOwns(n: ListHead)
    requires n.reply.InReply? && n != n.reply.children
    requires n.reply.children.IsList() && n.reply.children.elems == []
    ensures Owns(n, {n, n.reply.children})
  {
  }

  /** Bytes denoted by a reply do not change when its buffer receives more. */
  lemma ItemsDenoteMore(ns: seq<ListHead>, vs: seq<ItemValue>, buffer: Buffer,
                        contents: seq<Byte>, more: seq<Byte>)
    requires ItemsDenote(ns, vs, buffer, contents) && contents <= more
    ensures ItemsDenote(ns, vs, buffer, more)
  {
    assert more[..|contents|] == contents;
    forall k | 0 <= k < |ns|
      ensures ItemDenotes(ns[k], vs[k], buffer, more)
    {
      assert ItemDenotes(ns[k], vs[k], buffer, contents);
    }
  }

  lemma DenotesMore(n: ListHead, v: Value, buffer: Buffer, contents: seq<Byte>, more: seq<Byte>)
    requires Denotes(n, v, buffer, contents) && contents <= more
    ensures Denotes(n, v, buffer, more)
  {
    match v
    case MultiValue(items) => ItemsDenoteMore(n.reply.children.elems, items, buffer, contents, more);
    case ItemValue(item) => ItemsDenoteMore([n], [item], buffer, contents, more);
                            assert ItemDenotes([n][0], [item][0], buffer, more);
    case _ => assert more[..|contents|] == contents;
  }

  /** Reply_new */
  method NewReply(rtype: ReplyType, buffer: Buffer?, offset: nat, len: nat) returns (n: ListHead)
    ensures fresh(n) && n.elems == []
    ensures n.reply.InReply? && n.reply == InReply(rtype, buffer, offset, len, n.reply.children)
    ensures fresh(n.reply.children) && n.reply.children != n
    ensures n.reply.children.IsList() && n.reply.children.elems == []
  {
    var children := new ListHead(Bare);
    children.Init();
    n := new ListHead(InReply(rtype, buffer, offset, len, children));
  }

  /** Where the bytes of the replies of a batch are kept: its read buffer, and its error if it has one. */
  datatype Sources = Sources(read: Buffer, received: seq<Byte>, error: Buffer?, message: seq<Byte>)

  ghost predicate Means(n: ListHead, v: Value, from: Sources)
    reads if n.reply.InReply? then {n.reply.children} else {}
  {
    || Denotes(n, v, from.read, from.received)
    || (from.error != null && Denotes(n, v, from.error, from.message))
  }

  /** A reply stays what it is as long as nothing but its own node is relinked. */
  twostate lemma OwnsKept(n: ListHead, new foot: set<object>)
    requires old(allocated(foot))
    requires old(Owns(n, foot))
    requires forall o | o in foot && o != n :: unchanged(o)
    ensures Owns(n, foot) && n.reply.children.elems == old(n.reply.children.elems)
    ensures forall c | c in n.reply.children.elems :: c in foot
    ensures n in foot && n.reply.children in foot
  {
    hide ListHead.IsList;
    var kids := n.reply.children;
    assert kids in old(Footprint(n)) && kids != n;
    assert unchanged(kids);
    forall i | 0 <= i < |kids.elems|
      ensures kids.elems[i].next == old(kids.elems[i].next) && kids.elems[i].prev == old(kids.elems[i].prev)
    {
      assert kids.elems[i] in old(Footprint(n)) && kids.elems[i] != n;
    }
    kids.Kept();
    assert Footprint(n) == old(Footprint(n));
  }

  /** The list headed by a batch's reply_queue, with everything its members are made of. */
  class ReplyQueue {
    const head: ListHead
    ghost var Repr: set<object>
    ghost var feet: seq<set<object>>   // the objects that make up each reply

    ghost predicate Valid()
      reads this, Repr
    {
      && this in Repr && head in Repr && (forall e | e in head.elems :: e in Repr) && head.IsList()
      && |feet| == |head.elems|
      && (forall k :: 0 <= k < |feet| ==> feet[k] <= Repr && head !in feet[k] && this !in feet[k])
      && (forall j, k :: 0 <= j < k < |feet| ==> feet[j] !! feet[k])
      && (forall k :: 0 <= k < |feet| ==> Owned(k))
    }

    /** Member k is a reply made of feet[k]. */
    ghost predicate Owned(k: nat)
      requires head in Repr && k < |head.elems| == |feet| && feet[k] <= Repr
      reads this, Repr
    {
      var n := head.elems[k];
      n in Repr && n.reply.InReply? && n.reply.children in Repr
      && (forall c | c in n.reply.children.elems :: c in Repr)
      && Owns(n, feet[k])
    }

    /** The members mean vs, in order. */
    ghost predicate Says(vs: seq<Value>, from: Sources)
      requires Valid()
      reads this, Repr
    {
      |vs| == |head.elems| && forall k :: 0 <= k < |vs| ==> Owned(k) && Means(head.elems[k], vs[k], from)
    }

    constructor ()
      ensures Valid() && fresh(Repr) && this in Repr && head in Repr && head.elems == []
    {
      var h := new ListHead(Bare);
      h.Init();
      head := h;
      feet := [];
      Repr := {this, h};
    }

    twostate lemma OwnedKept(k: nat)
      requires old(head in Repr && k < |head.elems| == |feet| && feet[k] <= Repr && Owned(k))
      requires head in Repr && k < |head.elems| == |feet| && feet[k] <= Repr
      requires head.elems[k] == old(head.elems[k]) && feet[k] == old(feet[k])
      requires forall o | o in old(feet[k]) && o != head.elems[k] :: unchanged(o)
      ensures Owned(k)
      ensures head.elems[k].reply.children.elems == old(head.elems[k].reply.children.elems)
    {
      OwnsKept(head.elems[k], feet[k]);
    }

    twostate lemma NewOwned(k: nat, new n: ListHead, new foot: set<object>)
      requires old(allocated(n) && allocated(foot))
      requires old(Owns(n, foot)) && (forall o | o in foot && o != n :: unchanged(o))
      requires head in Repr && k < |head.elems| == |feet| && feet[k] == foot <= Repr && head.elems[k] == n
      ensures Owned(k)
    {
      OwnsKept(n, foot);
    }

    /** Appending a node relinks only the head, the last member and the new node. */
    twostate lemma MembersKept(vs: seq<Value>, new from: Sources)
      requires old(allocated(from))
      requires old(Valid() && Says(vs, from))
      requires head in Repr && old(Repr) <= Repr && |head.elems| == |feet|
      requires old(head.elems) <= head.elems && old(feet) <= feet
      requires forall k :: 0 <= k < |feet| ==> feet[k] <= Repr
      requires forall o | o in old(Repr) && o != this && o != head && o != old(head.Last()) :: unchanged(o)
      ensures forall k :: 0 <= k < |vs| ==> Owned(k) && Means(head.elems[k], vs[k], from)
    {
      forall k | 0 <= k < |vs|
        ensures Owned(k) && Means(head.elems[k], vs[k], from)
      {
        assert old(Owned(|vs| - 1));
        OwnedKept(k);
      }
    }

    /** list_add_tail of a reply. */
    method Add(n: ListHead, ghost foot: set<object>, ghost v: Value, ghost vs: seq<Value>, ghost from: Sources)
      requires Valid() && Says(vs, from)
      requires Owns(n, foot) && foot !! Repr && Means(n, v, from)
      modifies Repr, n`next, n`prev
      ensures Valid() && Repr == old(Repr) + foot
      ensures head.elems == old(head.elems) + [n] && Says(vs + [v], from)
    {
      hide Owned, ListHead.IsList, Means;
      assert n in foot && head !in foot;
      head.AddTail(n);
      feet := feet + [foot];
      Repr := Repr + foot;
      MembersKept(vs, from);
      NewOwned(|vs|, n, foot);
    }

    lemma SaysNothing(from: Sources)
      requires Valid() && head.elems == []
      ensures Says([], from)
    {
    }

    /** Receiving more changes no reply. */
    lemma SaysMore(vs: seq<Value>, from: Sources, more: Sources)
      requires Valid() && Says(vs, from)
      requires more.read == from.read && from.received <= more.received
      requires from.error == more.error && from.message == more.message
      ensures Says(vs, more)
    {
      forall k | 0 <= k < |vs|
        ensures Owned(k) && Means(head.elems[k], vs[k], more)
      {
        MeansMore(head.elems[k], vs[k], from, more);
      }
    }

    /** Nor does the creation of the error. */
    lemma SaysError(vs: seq<Value>, from: Sources, with: Sources)
      requires Valid() && Says(vs, from)
      requires from.error == null && with.read == from.read && with.received == from.received
      ensures Says(vs, with)
    {
      forall k | 0 <= k < |vs|
        ensures Owned(k) && Means(head.elems[k], vs[k], with)
      {
        assert Means(head.elems[k], vs[k], from);
      }
    }
  }

  /** Replies keep their meaning while their buffer receives more. */
  lemma MeansMore(n: ListHead, v: Value, from: Sources, more: Sources)
    requires Means(n, v, from) && more.read == from.read && from.received <= more.received
    requires from.error == more.error && from.message == more.message
    ensures Means(n, v, more)
  {
    if Denotes(n, v, from.read, from.received) {
      DenotesMore(n, v, from.read, from.received, more.received);
    }
  }
}
