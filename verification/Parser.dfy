/** parser.c: the resumable reply parser, and its refinement of the automaton. */
module Parser {
  import opened Bytes
  import opened Grammar
  import opened Machine
  import opened Buffers
  import opened Lists
  import opened Replies

  datatype ParserResult = RprError | RprMore | RprReply

  /** How one turn of the parsing loop ends. */
  datatype Turn = Continue | Return(result: ParserResult)

  function LineState(kind: Kind): nat {
    match kind
    case OkLine => 1
    case ErrorLine => 3
    case IntegerLine => 19
  }

  /** The number the parser uses for a stage. */
  function StateNumber(s: Stage): nat {
    match s
    case AtStart => 0
    case InLine(kind, _) => LineState(kind)
    case LineCr(kind, _) => LineState(kind) + 1
    case Dollar => 5
    case NilMinus => 6
    case NilOne => 7
    case NilCr => 8
    case InCount(_) => 9
    case CountCr(_) => 10
    case InBody(_, _) => 11
    case BodyCr(_, _) => 12
    case Star => 13
    case MultiMinus => 14
    case MultiOne => 15
    case MultiCr => 16
    case InMultiCount(_) => 17
    case MultiCountCr(_) => 18
  }

  /** Skipping n bytes of a body at once is the same as reading them one by one. */
  lemma JumpIsRun(a: Partial, contents: seq<Byte>, p: nat, n: nat, len: nat)
    requires WfPartial(a) && a.stage.InBody? && p + n <= len <= |contents|
    requires |a.stage.body| + n <= DecimalValue(a.stage.digits)
    ensures var b := a.(stage := InBody(a.stage.digits, a.stage.body + contents[p..p + n]));
            && WfPartial(b) && Run(a, contents[p..len]) == Run(b, contents[p + n..len])
            && Consumed(b) == Consumed(a) + contents[p..p + n]
  {
    var chunk := contents[p..p + n];
    RunBody(a.open, a.stage.digits, a.stage.body, chunk);
    Chain(a, chunk, a.(stage := InBody(a.stage.digits, a.stage.body + chunk)), contents[p + n..len]);
    assert contents[p..len] == chunk + contents[p + n..len];
    RunDecodes(a, chunk);
  }

  lemma OpenLength(open: Open)
    requires open.Open?
    ensures |OpenBytes(open)| == 1 + |open.digits| + 2 + |ItemsBytes(open.items)|
  {
  }

  lemma OneByteMore(a: Partial, contents: seq<Byte>, start: nat, p: nat)
    requires start <= p < |contents| && WfPartial(a) && contents[start..p] == Consumed(a)
    ensures Next(a, contents[p]).Go? ==> contents[start..p + 1] == Consumed(Next(a, contents[p]).next)
  {
    hide Consumed;
    NextSound(a, contents[p]);
    assert contents[start..p + 1] == contents[start..p] + [contents[p]];
  }

  lemma NothingMore(a: Partial, contents: seq<Byte>, p: nat)
    requires p <= |contents| && WfPartial(a)
    ensures Run(a, contents[p..p]) == More(a)
  {
  }

  /** A word that began at start has been completed at q. */
  lemma WordBetween(a: Partial, contents: seq<Byte>, start: nat, p: nat, len: nat, q: nat)
    requires start <= p <= len <= |contents| && q <= len && WfPartial(a) && contents[start..p] == Consumed(a)
    requires Run(a, contents[p..len]).Reply? && Run(a, contents[p..len]).rest == contents[q..len]
    ensures start < q && contents[start..q] == WordBytes(Run(a, contents[p..len]).word)
    ensures WfWord(Run(a, contents[p..len]).word)
  {
    hide Consumed, WordBytes, Run, WfWord;
    RunDecodes(a, contents[p..len]);
    var t := WordBytes(Run(a, contents[p..len]).word);
    assert contents[start..len] == contents[start..p] + contents[p..len] == t + contents[q..len];
    assert t == contents[start..len][..|t|];
  }

  class ReplyParser {
    var p: nat
    var cs: nat
    var bulkCount: int
    var multibulkCount: int
    var multibulkReply: ListHead?
    var mark: nat
    ghost var st: Partial          // the derivation in progress
    ghost var start: nat           // where its text begins
    ghost var Repr: set<object>    // the parser and the multibulk reply it is building

    /** The text since mark and the outstanding count are those of the current stage. */
    ghost predicate StageValid(contents: seq<Byte>)
      requires WfPartial(st)
      reads this
    {
      p <= |contents|
      && match st.stage
         case InLine(_, text) => mark <= p && contents[mark..p] == text
         case LineCr(_, text) => mark < p && contents[mark..p - 1] == text
         case InCount(digits) => mark <= p && contents[mark..p] == digits
         case CountCr(digits) => bulkCount == DecimalValue(digits)
         case InBody(digits, body) =>
           mark <= p && contents[mark..p] == body && bulkCount == DecimalValue(digits) - |body|
         case BodyCr(_, body) => mark < p && contents[mark..p - 1] == body && bulkCount == 0
         case InMultiCount(digits) => mark <= p && contents[mark..p] == digits
         case _ => true
    }

    /** The digits and children of the multibulk reply that is being built. */
    ghost function Building(): Open
      reads this
    {
      if st.stage.MultiCountCr? then Open(st.stage.digits, []) else st.open
    }

    /** Children read so far plus multibulkCount make up the declared length. */
    ghost predicate OpenValid(buffer: Buffer, contents: seq<Byte>)
      requires Building().Open? ==> IsNumeral(Building().digits)
      reads this, Repr
    {
      this in Repr && match Building()
      case NoMulti => multibulkReply == null && multibulkCount == 0 && Repr == {this}
      case Open(digits, items) =>
        && multibulkReply != null && multibulkReply.reply.InReply?
        && multibulkReply.reply.children in Repr
        && multibulkReply.reply.rtype == RtMultiBulk
        && multibulkReply.reply.len == DecimalValue(digits) == multibulkCount + |items|
        && multibulkReply.reply.children != multibulkReply
        && Footprint(multibulkReply) <= Repr
        && multibulkReply.reply.children.IsList()
        && multibulkReply !in multibulkReply.reply.children.elems
        && multibulkReply.reply.offset == 0
        && ItemsDenote(multibulkReply.reply.children.elems, ItemMeanings(items), buffer, contents)
        && ItemsAt(multibulkReply.reply.children.elems, items, start + 1 + |digits| + 2)
    }

    /** The fields agree with the derivation. */
    ghost predicate Consistent(buffer: Buffer, contents: seq<Byte>)
      reads this, Repr
    {
      && this in Repr && WfPartial(st) && cs == StateNumber(st.stage) && p <= |contents|
      && StageValid(contents) && OpenValid(buffer, contents)
    }

    /** And what has been read of the current word stands between start and p. */
    ghost predicate Valid(buffer: Buffer, contents: seq<Byte>)
      reads this, Repr
    {
      Consistent(buffer, contents) && start <= p && contents[start..p] == Consumed(st)
    }

    /** Reading a byte outside the multibulk reply's own structure does not disturb what is being built. */
    twostate lemma OpenKept(new buffer: Buffer, contents: seq<Byte>)
      requires old(allocated(buffer))
      requires old((Building().Open? ==> IsNumeral(Building().digits)) && OpenValid(buffer, contents))
      requires Building() == old(Building()) && Repr == old(Repr) && start == old(start)
      requires multibulkReply == old(multibulkReply) && multibulkCount == old(multibulkCount)
      requires forall o | o in Repr && o != this :: unchanged(o)
      ensures OpenValid(buffer, contents)
    {
      hide ItemsDenote, ItemsAt, Selects;
      if Building().Open? {
        var kids := multibulkReply.reply.children;
        assert kids in old(Footprint(multibulkReply)) && unchanged(kids);
        forall k | 0 <= k < |kids.elems|
          ensures kids.elems[k].next == old(kids.elems[k].next) && kids.elems[k].prev == old(kids.elems[k].prev)
        {
          assert kids.elems[k] in old(Footprint(multibulkReply));
        }
      }
    }

    lemma OpenCounts(buffer: Buffer, contents: seq<Byte>)
      requires Consistent(buffer, contents)
      ensures Building().NoMulti? ==> multibulkReply == null && multibulkCount == 0 && Repr == {this}
      ensures st.open.Open? ==> multibulkCount > 0
    {
    }

    /**
     A pending multibulk reply lacks exactly multibulkCount children, and it has only bulk replies;
     nothing is pending between two replies.
     */
    lemma MultibulkAccounting(buffer: Buffer, contents: seq<Byte>)
      requires Valid(buffer, contents)
      ensures cs == 0 && multibulkCount == 0 ==> multibulkReply == null
      ensures multibulkReply != null ==>
        && multibulkReply.reply.InReply? && multibulkReply.reply.rtype == RtMultiBulk && multibulkCount >= 0
        && |multibulkReply.reply.children.elems| + multibulkCount == multibulkReply.reply.len
        && forall n | n in multibulkReply.reply.children.elems ::
             n.reply.InReply? && (n.reply.rtype == RtBulk || n.reply.rtype == RtBulkNil)
    {
      if Building().Open? {
        var kids, items := multibulkReply.reply.children.elems, ItemMeanings(Building().items);
        forall k | 0 <= k < |kids|
          ensures kids[k].reply.InReply? && (kids[k].reply.rtype == RtBulk || kids[k].reply.rtype == RtBulkNil)
        {
          assert ItemDenotes(kids[k], items[k], buffer, contents);
        }
      }
    }

    /** Receiving more does not disturb the parser. */
    lemma ValidMore(buffer: Buffer, contents: seq<Byte>, more: seq<Byte>)
      requires Valid(buffer, contents) && contents <= more
      ensures Valid(buffer, more)
    {
      hide ListHead.IsList, ItemsDenote, ItemsAt, Footprint;
      assert more[..|contents|] == contents;
      if Building().Open? {
        ItemsDenoteMore(multibulkReply.reply.children.elems, ItemMeanings(Building().items), buffer, contents, more);
      }
    }

    /** Between two replies. */
    ghost predicate Idle()
      reads this
    {
      st == Init && start == p && cs == 0 && multibulkReply == null && multibulkCount == 0 && Repr == {this}
    }

    lemma IdleIsValid(buffer: Buffer, contents: seq<Byte>)
      requires Idle() && p <= |contents|
      ensures Valid(buffer, contents)
    {
    }

    constructor ()
      ensures Idle() && p == 0
    {
      p, cs, bulkCount, mark := 0, 0, 0, 0;
      multibulkCount, multibulkReply := 0, null;
      st, start, Repr := Init, 0, {this};
    }

    /** ReplyParser_reset: a partly built multibulk reply is dropped. */
    method Reset()
      modifies this
      ensures Idle() && p == 0
    {
      p, cs, bulkCount, mark := 0, 0, 0, 0;
      multibulkCount, multibulkReply := 0, null;
      st, start, Repr := Init, 0, {this};
    }

    /** What one turn of the loop does, told by the automaton; reply is what was reported, if anything. */
    twostate predicate Turned(t: Turn, new reply: ListHead?, buffer: Buffer, contents: seq<Byte>)
      requires old(WfPartial(st)) && old(p) < |contents|
      reads this, Repr
      reads if reply != null && reply.reply.InReply? then {reply.reply.children} else {}
      reads if reply != null && reply.reply.InReply? then reply.reply.children.elems else []
    {
      match Next(old(st), contents[old(p)])
      case Go(b) => t == Continue && reply == null && st == b && p == old(p) + 1
                    && start == old(start) && Consistent(buffer, contents)
      case Done(w) => t == Return(RprReply) && Idle() && p == old(p) + 1
                      && reply != null && WfReply(reply) && Denotes(reply, Meaning(w), buffer, contents)
                      && WordAt(reply, w, old(start))
      case Bad => t == Return(RprError) && reply == null && st == old(st) && p == old(p)
                  && start == old(start) && Consistent(buffer, contents)
    }

    /** State 0. */
    method Start(c: Byte, buffer: Buffer, ghost contents: seq<Byte>) returns (t: Turn, reply: ListHead?)
      requires Consistent(buffer, contents) && p < |contents| && contents[p] == c
      requires st.stage.AtStart?
      modifies this
      ensures Turned(t, reply, buffer, contents) && fresh(Repr - old(Repr))
      ensures reply == null
    {
      hide OpenValid, WfReply, Denotes;
      OpenCounts(buffer, contents);
      if c == DOLLAR {
        p, cs := p + 1, 5;
        st := st.(stage := Dollar);
        OpenKept(buffer, contents);
        return Continue, null;
      } else if multibulkCount == 0 {
        t, reply := StartOther(c, buffer, contents);
        return;
      }
      return Return(RprError), null;
    }

    /** State 0 with no multibulk reply pending: any reply but a bulk reply. */
    method StartOther(c: Byte, buffer: Buffer, ghost contents: seq<Byte>) returns (t: Turn, reply: ListHead?)
      requires Consistent(buffer, contents) && p < |contents| && contents[p] == c
      requires st.stage.AtStart? && c != DOLLAR && multibulkCount == 0
      modifies this
      ensures Turned(t, reply, buffer, contents) && fresh(Repr - old(Repr))
      ensures reply == null
    {
      hide OpenValid, WfReply, Denotes, WordAt;
      OpenCounts(buffer, contents);
      if c == PLUS {
        p, cs := p + 1, 1;
        mark := p;
        st := st.(stage := InLine(OkLine, []));
      } else if c == MINUS {
        p, cs := p + 1, 3;
        mark := p;
        st := st.(stage := InLine(ErrorLine, []));
      } else if c == STAR {
        p, cs := p + 1, 13;
        st := st.(stage := Star);
      } else if c == COLON {
        p, cs := p + 1, 19;
        mark := p;
        st := st.(stage := InLine(IntegerLine, []));
      } else {
        return Return(RprError), null;
      }
      OpenKept(buffer, contents);
      return Continue, null;
    }

    /** atoi() at mark, where CR follows the digits. */
    method ReadNumber(ghost digits: seq<Byte>, buffer: Buffer, ghost contents: seq<Byte>) returns (n: nat)
      requires mark <= p < |contents| && contents[mark..p] == digits && contents[p] == CR
      requires buffer.Valid() && contents <= buffer.data[..]
      requires IsNumeral(digits)
      ensures n == DecimalValue(digits)
    {
      AtoiReadsNumeral(buffer.data[mark..], digits);
      n := Atoi(buffer.data[mark..]);
    }

    /** States 1, 3 and 19: the text of a one-line reply, up to CR. */
    method LineText(c: Byte, buffer: Buffer, ghost contents: seq<Byte>) returns (t: Turn, reply: ListHead?)
      requires Consistent(buffer, contents) && p < |contents| && contents[p] == c
      requires st.stage.InLine?
      modifies this
      ensures Turned(t, reply, buffer, contents) && fresh(Repr - old(Repr))
      ensures reply == null
    {
      hide OpenValid, WfReply, Denotes;
      OpenCounts(buffer, contents);
      if c == CR {
        p, cs := p + 1, cs + 1;
        st := st.(stage := LineCr(st.stage.kind, st.stage.text));
        OpenKept(buffer, contents);
        return Continue, null;
      } else {
        p := p + 1;
        st := st.(stage := InLine(st.stage.kind, st.stage.text + [c]));
        OpenKept(buffer, contents);
        return Continue, null;
      }
    }

    /** States 2, 4 and 20: the LF that ends a one-line reply. */
    method LineEnd(c: Byte, buffer: Buffer, ghost contents: seq<Byte>) returns (t: Turn, reply: ListHead?)
      requires Valid(buffer, contents) && p < |contents| && contents[p] == c
      requires st.stage.LineCr?
      modifies this
      ensures Turned(t, reply, buffer, contents) && fresh(Repr - old(Repr))
      ensures reply != null ==> this !in Footprint(reply) && fresh(Footprint(reply) - old(Repr))
    {
      hide OpenValid;
      OpenCounts(buffer, contents);
      if c == LF {
        var rtype := if cs == 2 then RtOk else if cs == 4 then RtError else RtInteger;
        p, cs := p + 1, 0;
        reply := NewReply(rtype, buffer, mark, p - mark - 2);
        st, start := Init, p;
        return Return(RprReply), reply;
      }
      return Return(RprError), null;
    }

    /** State 5: after '$'. */
    method BulkStart(c: Byte, buffer: Buffer, ghost contents: seq<Byte>) returns (t: Turn, reply: ListHead?)
      requires Consistent(buffer, contents) && p < |contents| && contents[p] == c
      requires st.stage.Dollar?
      modifies this
      ensures Turned(t, reply, buffer, contents) && fresh(Repr - old(Repr))
      ensures reply == null
    {
      hide OpenValid, WfReply, Denotes;
      OpenCounts(buffer, contents);
      if c == MINUS {
        p, cs := p + 1, 6;
        st := st.(stage := NilMinus);
        OpenKept(buffer, contents);
        return Continue, null;
      } else if IsDigit(c) {
        mark := p;
        p, cs := p + 1, 9;
        assert contents[mark..p] == [c];
        st := st.(stage := InCount([c]));
        OpenKept(buffer, contents);
        return Continue, null;
      }
      return Return(RprError), null;
    }

    /** States 6 and 7: a nil bulk reply, up to CR. */
    method NilText(c: Byte, buffer: Buffer, ghost contents: seq<Byte>) returns (t: Turn, reply: ListHead?)
      requires Consistent(buffer, contents) && p < |contents| && contents[p] == c
      requires st.stage.NilMinus? || st.stage.NilOne?
      modifies this
      ensures Turned(t, reply, buffer, contents) && fresh(Repr - old(Repr))
      ensures reply == null
    {
      hide OpenValid, WfReply, Denotes;
      OpenCounts(buffer, contents);
      if cs == 6 {
        if c == ONE {
          p, cs := p + 1, 7;
          st := st.(stage := NilOne);
          OpenKept(buffer, contents);
          return Continue, null;
        }
      } else if c == CR {
        p, cs := p + 1, 8;
        st := st.(stage := NilCr);
        OpenKept(buffer, contents);
        return Continue, null;
      }
      return Return(RprError), null;
    }

    /** Reply_add_child on the multibulk reply being built. */
    method AddItem(item: ListHead, ghost i: Item, buffer: Buffer, ghost contents: seq<Byte>)
      requires Consistent(buffer, contents) && st.stage.AtStart? && st.open.Open?
      requires ItemDenotes(item, ItemMeaning(i), buffer, contents)
      requires ItemAt(item, i, start + |OpenBytes(st.open)|)
      requires item !in Repr
      modifies this`Repr, multibulkReply.reply.children, multibulkReply.reply.children.elems, item
      ensures Repr == old(Repr) + {item} && Footprint(multibulkReply) <= Repr
      ensures multibulkReply.reply.children.IsList()
      ensures multibulkReply.reply.children.elems == old(multibulkReply.reply.children.elems) + [item]
      ensures ItemsAt(multibulkReply.reply.children.elems, st.open.items + [i], start + 1 + |st.open.digits| + 2)
      ensures ItemsDenote(multibulkReply.reply.children.elems, ItemMeanings(st.open.items + [i]), buffer, contents)
    {
      hide ItemAt, ItemsAt, ItemDenotes, ItemsDenote, ItemMeaning, ItemsBytes, OpenBytes, ListHead.IsList;
      OpenLength(st.open);
      var children := multibulkReply.reply.children;
      children.AddTail(item);
      Repr := Repr + {item};
      ItemsAtSnoc(old(children.elems), st.open.items, item, i, start + 1 + |st.open.digits| + 2);
      ItemsDenoteSnoc(old(children.elems), st.open.items, item, i, buffer, contents);
    }

    /** The end of states 8 and 12 inside a multibulk reply. */
    method FinishChild(item: ListHead, ghost i: Item, buffer: Buffer, ghost contents: seq<Byte>)
      returns (t: Turn, reply: ListHead?)
      requires Consistent(buffer, contents) && st.stage.AtStart? && st.open.Open? && WfItem(i)
      requires ItemDenotes(item, ItemMeaning(i), buffer, contents)
      requires ItemAt(item, i, start + |OpenBytes(st.open)|)
      requires item !in Repr
      modifies this, Repr, item
      ensures p == old(p)
      ensures match Complete(old(st.open), i)
              case Go(b) => t == Continue && st == b && reply == null && Consistent(buffer, contents)
                            && start == old(start) && Repr == old(Repr) + {item}
              case Done(w) => t == Return(RprReply) && Idle() && reply != null
                            && WfReply(reply) && Denotes(reply, Meaning(w), buffer, contents)
                            && WordAt(reply, w, old(start))
                            && Footprint(reply) <= old(Repr) + {item} - {this}
              case Bad => false
    {
      hide ListHead.IsList, ItemDenotes, ItemsDenote, ItemAt, ItemsAt;
      hide ItemsBytes, OpenBytes, IsNumeral, DecimalValue, WfItem;
      ghost var items := st.open.items + [i];
      AddItem(item, i, buffer, contents);
      multibulkCount := multibulkCount - 1;
      if multibulkCount == 0 {
        reply := multibulkReply;
        multibulkReply := null;
        st, start, Repr := Init, p, {this};
        return Return(RprReply), reply;
      } else {
        st := st.(open := Open(st.open.digits, items));
        return Continue, null;
      }
    }

    /** The end of states 8 and 12: an item is delivered, or added to the open multibulk reply. */
    method FinishItem(item: ListHead, ghost i: Item, buffer: Buffer, ghost contents: seq<Byte>)
      returns (t: Turn, reply: ListHead?)
      requires Consistent(buffer, contents) && st.stage.AtStart? && WfItem(i)
      requires ItemDenotes(item, ItemMeaning(i), buffer, contents)
      requires ItemAt(item, i, start + |OpenBytes(st.open)|)
      requires {item, item.reply.children} !! Repr && item.reply.children != item
      requires item.reply.children.IsList() && item.reply.children.elems == []
      modifies this, Repr, item
      ensures p == old(p)
      ensures match Complete(old(st.open), i)
              case Go(b) => t == Continue && st == b && reply == null && Consistent(buffer, contents)
                            && start == old(start) && Repr == old(Repr) + {item}
              case Done(w) => t == Return(RprReply) && Idle() && reply != null
                            && WfReply(reply) && Denotes(reply, Meaning(w), buffer, contents)
                            && WordAt(reply, w, old(start))
                            && Footprint(reply) <= old(Repr) + {item, item.reply.children} - {this}
              case Bad => false
    {
      if multibulkCount > 0 {
        t, reply := FinishChild(item, i, buffer, contents);
      } else {
        st, start := Init, p;
        return Return(RprReply), item;
      }
    }

    /** What the LF that ends an item completes. */
    ghost function Ending(): Item
      requires st.stage.NilCr? || st.stage.BodyCr?
      reads this
    {
      if st.stage.NilCr? then NilBulk else Bulk(st.stage.digits, st.stage.body)
    }

    lemma EndsItem(buffer: Buffer, contents: seq<Byte>)
      requires Consistent(buffer, contents) && (st.stage.NilCr? || st.stage.BodyCr?)
      ensures WfPartial(st) && Next(st, LF) == Complete(st.open, Ending()) && WfItem(Ending())
      ensures st.stage.BodyCr? ==> 0 < p <= |contents| && mark <= p - 1
                                   && contents[mark..p - 1] == st.stage.body && bulkCount == 0
    {
    }

    /** State 8: the LF that ends a nil bulk reply. */
    method NilEnd(c: Byte, buffer: Buffer, ghost contents: seq<Byte>) returns (t: Turn, reply: ListHead?)
      requires Consistent(buffer, contents) && p < |contents| && contents[p] == c
      requires st.stage.NilCr?
      modifies this, Repr
      ensures Turned(t, reply, buffer, contents) && fresh(Repr - old(Repr))
      ensures reply != null ==> this !in Footprint(reply) && fresh(Footprint(reply) - old(Repr))
    {
      hide OpenValid, Idle, WfReply, Denotes, Complete;
      EndsItem(buffer, contents);
      if c == LF {
        p, cs := p + 1, 0;
        var item := NewReply(RtBulkNil, buffer, 0, 0);
        st := st.(stage := AtStart);
        OpenKept(buffer, contents);
        t, reply := FinishItem(item, NilBulk, buffer, contents);
        return;
      }
      return Return(RprError), null;
    }

    /** State 9: the digits of a length. */
    method Count(c: Byte, buffer: Buffer, ghost contents: seq<Byte>) returns (t: Turn, reply: ListHead?)
      requires Consistent(buffer, contents) && p < |contents| && contents[p] == c
      requires buffer.Valid() && contents <= buffer.data[..]
      requires st.stage.InCount?
      modifies this
      ensures Turned(t, reply, buffer, contents) && fresh(Repr - old(Repr))
      ensures reply == null
    {
      hide OpenValid, WfReply, Denotes, DecimalValue, WfItems;
      OpenCounts(buffer, contents);
      if c == CR {
        bulkCount := ReadNumber(st.stage.digits, buffer, contents);
        p, cs := p + 1, 10;
        st := st.(stage := CountCr(st.stage.digits));
        OpenKept(buffer, contents);
        return Continue, null;
      } else if IsDigit(c) {
        p := p + 1;
        st := st.(stage := InCount(st.stage.digits + [c]));
        OpenKept(buffer, contents);
        return Continue, null;
      }
      return Return(RprError), null;
    }

    /** State 10: the LF before the body. */
    method CountEnd(c: Byte, buffer: Buffer, ghost contents: seq<Byte>) returns (t: Turn, reply: ListHead?)
      requires Consistent(buffer, contents) && p < |contents| && contents[p] == c
      requires st.stage.CountCr?
      modifies this
      ensures Turned(t, reply, buffer, contents) && fresh(Repr - old(Repr))
      ensures reply == null
    {
      hide OpenValid, WfReply, Denotes;
      OpenCounts(buffer, contents);
      if c == LF {
        p, cs := p + 1, 11;
        mark := p;
        st := st.(stage := InBody(st.stage.digits, []));
        OpenKept(buffer, contents);
        return Continue, null;
      }
      return Return(RprError), null;
    }

    /** State 12: the LF that ends a bulk reply. */
    method BodyEnd(c: Byte, buffer: Buffer, ghost contents: seq<Byte>) returns (t: Turn, reply: ListHead?)
      requires Valid(buffer, contents) && p < |contents| && contents[p] == c
      requires st.stage.BodyCr?
      modifies this, Repr
      ensures Turned(t, reply, buffer, contents) && fresh(Repr - old(Repr))
      ensures reply != null ==> this !in Footprint(reply) && fresh(Footprint(reply) - old(Repr))
    {
      hide OpenValid, Idle, WfReply, Denotes, Complete, WfItem;
      EndsItem(buffer, contents);
      ghost var i := Ending();
      if c == LF {
        p, cs := p + 1, 0;
        var item := NewReply(RtBulk, buffer, mark, p - mark - 2);
        st := st.(stage := AtStart);
        OpenKept(buffer, contents);
        t, reply := FinishItem(item, i, buffer, contents);
        return;
      }
      return Return(RprError), null;
    }

    /** State 13: after '*'. */
    method MultiStart(c: Byte, buffer: Buffer, ghost contents: seq<Byte>) returns (t: Turn, reply: ListHead?)
      requires Consistent(buffer, contents) && p < |contents| && contents[p] == c
      requires st.stage.Star?
      modifies this
      ensures Turned(t, reply, buffer, contents) && fresh(Repr - old(Repr))
      ensures reply == null
    {
      hide OpenValid, WfReply, Denotes;
      OpenCounts(buffer, contents);
      if c == MINUS {
        p, cs := p + 1, 14;
        st := st.(stage := MultiMinus);
        OpenKept(buffer, contents);
        return Continue, null;
      } else if IsDigit(c) {
        mark := p;
        p, cs := p + 1, 17;
        assert contents[mark..p] == [c];
        st := st.(stage := InMultiCount([c]));
        OpenKept(buffer, contents);
        return Continue, null;
      }
      return Return(RprError), null;
    }

    /** States 14 to 16: a nil multibulk reply. */
    method MultiNil(c: Byte, buffer: Buffer, ghost contents: seq<Byte>) returns (t: Turn, reply: ListHead?)
      requires Consistent(buffer, contents) && p < |contents| && contents[p] == c
      requires st.stage.MultiMinus? || st.stage.MultiOne? || st.stage.MultiCr?
      modifies this
      ensures Turned(t, reply, buffer, contents) && fresh(Repr - old(Repr))
      ensures reply != null ==> this !in Footprint(reply) && fresh(Footprint(reply) - old(Repr))
    {
      hide OpenValid;
      OpenCounts(buffer, contents);
      if cs == 14 {
        if c == ONE {
          p, cs := p + 1, 15;
          st := st.(stage := MultiOne);
          OpenKept(buffer, contents);
          return Continue, null;
        }
      } else if cs == 15 {
        if c == CR {
          p, cs := p + 1, 16;
          st := st.(stage := MultiCr);
          OpenKept(buffer, contents);
          return Continue, null;
        }
      } else if c == LF {
        p, cs := p + 1, 0;
        reply := NewReply(RtMultiBulkNil, null, 0, 0);
        st, start := Init, p;
        return Return(RprReply), reply;
      }
      return Return(RprError), null;
    }

    /** A multibulk reply without children, of which n are to come. */
    ghost predicate EmptyMulti(n: nat)
      reads this, Repr
    {
      && multibulkCount == n && multibulkReply != null
      && multibulkReply.reply.InReply? && multibulkReply.reply.rtype == RtMultiBulk
      && multibulkReply.reply.len == n && multibulkReply.reply.offset == 0
      && multibulkReply.reply.children != multibulkReply
      && Repr == {this, multibulkReply, multibulkReply.reply.children}
      && multibulkReply.reply.children.elems == [] && multibulkReply.reply.children.IsList()
    }

    method NewMulti(n: nat)
      modifies this`multibulkCount, this`multibulkReply, this`Repr
      ensures EmptyMulti(n) && fresh(Repr - {this})
    {
      multibulkCount := n;
      multibulkReply := NewReply(RtMultiBulk, null, 0, n);
      Repr := {this, multibulkReply, multibulkReply.reply.children};
    }

    lemma NothingBuilt(buffer: Buffer, contents: seq<Byte>)
      requires st.stage.MultiCountCr? && IsNumeral(st.stage.digits) && EmptyMulti(DecimalValue(st.stage.digits))
      ensures OpenValid(buffer, contents)
    {
    }

    /** State 17: the digits of a number of children. */
    method MultiCount(c: Byte, buffer: Buffer, ghost contents: seq<Byte>) returns (t: Turn, reply: ListHead?)
      requires Consistent(buffer, contents) && p < |contents| && contents[p] == c
      requires buffer.Valid() && contents <= buffer.data[..]
      requires st.stage.InMultiCount?
      modifies this
      ensures Turned(t, reply, buffer, contents) && fresh(Repr - old(Repr))
      ensures reply == null
    {
      hide OpenValid, WfReply, Denotes, WordAt, EmptyMulti;
      if c == CR {
        var n := ReadNumber(st.stage.digits, buffer, contents);
        NewMulti(n);
        p, cs := p + 1, 18;
        st := st.(stage := MultiCountCr(st.stage.digits));
        NothingBuilt(buffer, contents);
        return Continue, null;
      } else if IsDigit(c) {
        p := p + 1;
        st := st.(stage := InMultiCount(st.stage.digits + [c]));
        OpenKept(buffer, contents);
        return Continue, null;
      }
      return Return(RprError), null;
    }

    /** State 18: the LF before the children, if there are any. */
    method MultiCountEnd(c: Byte, buffer: Buffer, ghost contents: seq<Byte>) returns (t: Turn, reply: ListHead?)
      requires Consistent(buffer, contents) && p < |contents| && contents[p] == c
      requires st.stage.MultiCountCr?
      modifies this
      ensures Turned(t, reply, buffer, contents) && fresh(Repr - old(Repr))
      ensures reply != null ==> this !in Footprint(reply) && fresh(Footprint(reply) - old(Repr))
    {
      if c == LF {
        p, cs := p + 1, 0;
        if multibulkCount == 0 {
          reply := multibulkReply;
          multibulkReply := null;
          st, start, Repr := Init, p, {this};
          return Return(RprReply), reply;
        }
        st := Partial(AtStart, Open(st.stage.digits, []));
        return Continue, null;
      }
      return Return(RprError), null;
    }

    /** State 11 with n bytes of the body at hand: skip them at once. */
    method SkipBody(n: nat, len: nat, buffer: Buffer, ghost contents: seq<Byte>)
      requires Valid(buffer, contents) && 0 < n <= len - p && len <= |contents|
      requires st.stage.InBody? && n <= bulkCount
      modifies this`p, this`bulkCount, this`st
      ensures Valid(buffer, contents) && start == old(start) && p == old(p) + n
      ensures Run(old(st), contents[old(p)..len]) == Run(st, contents[p..len])
    {
      hide OpenValid, Run, Consumed;
      JumpIsRun(st, contents, p, n, len);
      ghost var body := st.stage.body + contents[p..p + n];
      assert contents[mark..p + n] == body;
      assert contents[start..p + n] == contents[start..p] + contents[p..p + n];
      p, bulkCount := p + n, bulkCount - n;
      st := st.(stage := InBody(st.stage.digits, body));
      OpenKept(buffer, contents);
    }

    /** State 11: skips as much of the body as there is, then expects CR. */
    method Body(c: Byte, len: nat, buffer: Buffer, ghost contents: seq<Byte>) returns (t: Turn)
      requires Valid(buffer, contents) && p < len <= |contents| && contents[p] == c
      requires st.stage.InBody?
      modifies this`p, this`cs, this`bulkCount, this`st
      ensures Valid(buffer, contents) && start == old(start)
      ensures t == Continue ==> old(p) < p <= len
                                && Run(old(st), contents[old(p)..len]) == Run(st, contents[p..len])
      ensures t != Continue ==> t == Return(RprError) && st == old(st) && p == old(p) && Next(st, c) == Bad
    {
      hide OpenValid, Consumed;
      OneByteMore(st, contents, start, p);
      var n := if bulkCount < len - p then bulkCount else len - p;
      if n == 0 && c == CR {
        assert contents[p..len][1..] == contents[p + 1..len];
        p, cs := p + 1, 12;
        st := st.(stage := BodyCr(st.stage.digits, st.stage.body));
        OpenKept(buffer, contents);
        return Continue;
      } else if n > 0 {
        SkipBody(n, len, buffer, contents);
        return Continue;
      }
      return Return(RprError);
    }

    /** The switch on the state, for all states but 11. */
    method Dispatch(c: Byte, buffer: Buffer, ghost contents: seq<Byte>) returns (t: Turn, reply: ListHead?)
      requires Valid(buffer, contents) && p < |contents| && contents[p] == c
      requires buffer.Valid() && contents <= buffer.data[..]
      requires !st.stage.InBody?
      modifies this, Repr
      ensures Turned(t, reply, buffer, contents) && fresh(Repr - old(Repr))
      ensures reply != null ==> this !in Footprint(reply) && fresh(Footprint(reply) - old(Repr))
    {
      hide StageValid, OpenValid, Denotes, WfReply, WordAt, Next;
      if cs == 0 { t, reply := Start(c, buffer, contents); }
      else if cs == 1 || cs == 3 || cs == 19 { t, reply := LineText(c, buffer, contents); }
      else if cs == 2 || cs == 4 || cs == 20 { t, reply := LineEnd(c, buffer, contents); }
      else if cs == 5 { t, reply := BulkStart(c, buffer, contents); }
      else if cs == 6 || cs == 7 { t, reply := NilText(c, buffer, contents); }
      else if cs == 8 { t, reply := NilEnd(c, buffer, contents); }
      else if cs == 9 { t, reply := Count(c, buffer, contents); }
      else if cs == 10 { t, reply := CountEnd(c, buffer, contents); }
      else if cs == 12 { t, reply := BodyEnd(c, buffer, contents); }
      else if cs == 13 { t, reply := MultiStart(c, buffer, contents); }
      else if cs == 14 || cs == 15 || cs == 16 { t, reply := MultiNil(c, buffer, contents); }
      else if cs == 17 { t, reply := MultiCount(c, buffer, contents); }
      else { t, reply := MultiCountEnd(c, buffer, contents); }
    }

    /** The outcome of parsing up to len, with the parser now at p, for a word that began at position from. */
    ghost predicate Parsed(v: Verdict, result: ParserResult, reply: ListHead?,
                              buffer: Buffer, contents: seq<Byte>, len: nat, from: int)
      requires v.More? ==> WfPartial(v.state)
      reads this, Repr
      reads if reply != null && reply.reply.InReply? then {reply.reply.children} else {}
      reads if reply != null && reply.reply.InReply? then reply.reply.children.elems else []
    {
      && p <= len <= |contents|
      && match v
         case More(b) => result == RprMore && st == b && p == len && start == from && reply == null
                         && Valid(buffer, contents)
         case Reply(w, rest) => result == RprReply && Idle() && rest == contents[p..len]
                                && reply != null && WfReply(reply) && Denotes(reply, Meaning(w), buffer, contents)
                                && WordAt(reply, w, from)
         case Error(b, rest) => result == RprError && st == b && rest == contents[p..len] && start == from
                                && reply == null && Valid(buffer, contents)
    }

    /** One turn of the loop outside a body. */
    method SingleByte(buffer: Buffer, len: nat, ghost contents: seq<Byte>, ghost v: Verdict)
      returns (t: Turn, reply: ListHead?)
      requires buffer.Valid() && p < len <= |contents| && contents == buffer.Contents()
      requires Valid(buffer, contents) && !st.stage.InBody? && v == Run(st, contents[p..len])
      modifies this, Repr
      ensures fresh(Repr - old(Repr))
      ensures t == Continue ==> old(p) < p <= len && reply == null && Valid(buffer, contents)
                                && start == old(start) && v == Run(st, contents[p..len])
      ensures t.Return? ==> !v.More? && Parsed(v, t.result, reply, buffer, contents, len, old(start))
      ensures reply != null ==> this !in Footprint(reply) && fresh(Footprint(reply) - old(Repr))
    {
      hide StageValid, OpenValid, Denotes, WfReply, WordAt, Consumed, Next;
      var c := buffer.data[p];
      assert contents[p..len][0] == c && contents[p..len][1..] == contents[p + 1..len];
      OneByteMore(st, contents, start, p);
      t, reply := Dispatch(c, buffer, contents);
    }

    /** One turn of the loop. */
    method OneTurn(buffer: Buffer, len: nat, ghost contents: seq<Byte>, ghost v: Verdict)
      returns (t: Turn, reply: ListHead?)
      requires buffer.Valid() && p < len <= |contents| && contents == buffer.Contents()
      requires Valid(buffer, contents) && v == Run(st, contents[p..len])
      modifies this, Repr
      ensures fresh(Repr - old(Repr))
      ensures t == Continue ==> old(p) < p <= len && reply == null && Valid(buffer, contents)
                                && start == old(start) && v == Run(st, contents[p..len])
      ensures t.Return? ==> !v.More? && Parsed(v, t.result, reply, buffer, contents, len, old(start))
      ensures reply != null ==> this !in Footprint(reply) && fresh(Footprint(reply) - old(Repr))
    {
      hide StageValid, OpenValid, Denotes, WfReply, WordAt, Consumed;
      if cs == 11 {
        reply := null;
        assert contents[p..len][0] == contents[p];
        t := Body(buffer.data[p], len, buffer, contents);
      } else {
        t, reply := SingleByte(buffer, len, contents, v);
      }
    }

    /** ReplyParser_execute: parses up to len, or up to the end of the next reply. */
    method Execute(buffer: Buffer, len: nat) returns (result: ParserResult, reply: ListHead?)
      requires buffer.Valid() && p <= len <= buffer.position
      requires Valid(buffer, buffer.Contents())
      requires buffer !in Repr && buffer.data !in Repr
      modifies this, Repr
      ensures buffer.Contents() == old(buffer.Contents())
      ensures Parsed(Run(old(st), buffer.Contents()[old(p)..len]), result, reply, buffer, buffer.Contents(), len,
                     old(start))
      ensures fresh(Repr - old(Repr))
      ensures reply != null ==> this !in Footprint(reply) && fresh(Footprint(reply) - old(Repr))
      // Byte by byte: the reply is what the text between start and p says.
      ensures result == RprReply ==>
        old(start) < p && AsWritten(reply, buffer.Contents()[old(start)..p], buffer.Contents())
    {
      hide StageValid, OpenValid, Denotes, WfReply, WordAt, Consumed, AsWritten, WordBytes, Meaning, Run;
      ghost var contents := buffer.Contents();
      ghost var v := Run(st, contents[p..len]);
      while p < len
        invariant p <= len && Valid(buffer, contents) && start == old(start)
        invariant buffer !in Repr && buffer.data !in Repr
        invariant buffer.Valid() && contents == buffer.Contents()
        invariant v == Run(st, contents[p..len])
        invariant fresh(Repr - old(Repr))
        decreases len - p
      {
        var t;
        ghost var before := Repr;
        t, reply := OneTurn(buffer, len, contents, v);
        if t.Return? {
          if reply != null {
            InFootprint(reply);
            assert Footprint(reply) - old(Repr) <= (Footprint(reply) - before) + (before - old(Repr));
            Reported(reply, buffer, contents, old(st), old(start), old(p), len);
          }
          return t.result, reply;
        }
      }
      NothingMore(st, contents, p);
      return RprMore, null;
    }

    /** A reply is what the text says that the parser has read for it. */
    lemma Reported(reply: ListHead, buffer: Buffer, contents: seq<Byte>, a: Partial, from: nat, at: nat, len: nat)
      requires from <= at <= len <= |contents| && WfPartial(a) && contents[from..at] == Consumed(a)
      requires Parsed(Run(a, contents[at..len]), RprReply, reply, buffer, contents, len, from)
      ensures from < p && AsWritten(reply, contents[from..p], contents)
    {
      hide StageValid, OpenValid, Denotes, WfReply, WordAt, Consumed, AsWritten, WordBytes, Meaning, Run;
      WordBetween(a, contents, from, at, len, p);
      Written(reply, Run(a, contents[at..len]).word, buffer, contents);
    }
  }
}
