/** The multibulk command encoder of the PHP extension, and its inverse, the reply parser. */
module Commands {
  import opened Bytes
  import opened Grammar
  import opened Machine
  import opened Streams
  import opened Batches

  /** A PHP value: a string, or something else. */
  datatype Zval = IsString(bytes: seq<Byte>) | IsOther

  /** The argument as a bulk item. */
  function ArgItem(bytes: seq<Byte>): Item {
    Bulk(Decimal(|bytes|), bytes)
  }

  function ArgItems(args: seq<seq<Byte>>): (items: seq<Item>)
    ensures |items| == |args|
    ensures forall k | 0 <= k < |args| :: items[k] == ArgItem(args[k])
  {
    seq(|args|, k requires 0 <= k < |args| => ArgItem(args[k]))
  }

  /** The derivation whose text a command is. */
  function CommandWord(args: seq<seq<Byte>>): Word {
    Word.Multi(Decimal(|args|), ArgItems(args))
  }

  lemma CommandWordWf(args: seq<seq<Byte>>)
    ensures WfWord(CommandWord(args))
  {
    DecimalRoundTrip(|args|);
    forall k | 0 <= k < |args|
      ensures WfItem(ArgItem(args[k]))
    {
      DecimalRoundTrip(|args[k]|);
    }
  }

  /**
   The text of a command is a multibulk reply with the arguments, byte for byte, as its children; in any
   pipeline of commands each is recovered separately.
   */
  lemma {:induction false} CommandRoundTrip(args: seq<seq<Byte>>, rest: seq<Byte>)
    ensures Run(Init, WordBytes(CommandWord(args)) + rest) == Reply(CommandWord(args), rest)
    ensures Decode(WordBytes(CommandWord(args)) + rest) == [CommandWord(args)] + Decode(rest)
    ensures Meaning(CommandWord(args)) == MultiValue(seq(|args|, k requires 0 <= k < |args| => BytesValue(args[k])))
  {
    CommandWordWf(args);
    ReplyIff(WordBytes(CommandWord(args)) + rest, CommandWord(args), rest);
    DecodeStep(CommandWord(args), rest);
  }

  /** Byte by byte: the number of arguments, and then each argument with its length. */
  lemma CommandSpelled(args: seq<seq<Byte>>)
    ensures exists ts :: |ts| == |args| && IsMultiText(WordBytes(CommandWord(args)), ts)
                         && forall k :: 0 <= k < |args| ==> IsBulkText(ts[k], args[k])
  {
    hide IsMultiText, IsBulkText, WordBytes, WfItem, ItemBytes;
    CommandWordWf(args);
    MultiSpelled(Decimal(|args|), ArgItems(args));
    forall k | 0 <= k < |args|
      ensures IsBulkText(ItemTexts(ArgItems(args))[k], args[k])
    {
      assert ArgItems(args)[k] in ArgItems(args);
      ItemSpelled(ArgItem(args[k]));
    }
  }

  /** No two commands have the same text, and none is the beginning of another. */
  lemma CommandInjective(args: seq<seq<Byte>>, others: seq<seq<Byte>>)
    requires WordBytes(CommandWord(args)) <= WordBytes(CommandWord(others))
    ensures args == others
  {
    CommandWordWf(args);
    CommandWordWf(others);
    Unambiguous(CommandWord(args), CommandWord(others));
    assert |ArgItems(args)| == |ArgItems(others)|;
    forall k | 0 <= k < |args|
      ensures args[k] == others[k]
    {
      assert ArgItems(args)[k] == ArgItems(others)[k];
    }
  }

  predicate AllStrings(args: seq<Zval>) {
    forall a | a in args :: a.IsString?
  }

  function Strings(args: seq<Zval>): (r: seq<seq<Byte>>)
    requires AllStrings(args)
    ensures |r| == |args| && forall k | 0 <= k < |args| :: r[k] == args[k].bytes
  {
    seq(|args|, k requires 0 <= k < |args| => args[k].bytes)
  }

  /** One argument of Batch_cmd. */
  method WriteArgument(batch: Batch, arg: seq<Byte>)
    requires batch.Valid() && batch.writeBuffer.Filling()
    modifies batch`numCommands, batch`Repr, batch`outDone, batch`outLeft, batch.writeBuffer, batch.writeBuffer.data
    ensures batch.Valid() && batch.writeBuffer.Filling() && fresh(batch.Repr - old(batch.Repr))
    ensures batch.writeBuffer.data == old(batch.writeBuffer.data) || fresh(batch.writeBuffer.data)
    ensures batch.outDone == old(batch.outDone) + ItemBytes(ArgItem(arg))
    ensures batch.numCommands == old(batch.numCommands)
  {
    hide Batch.Valid;
    batch.Write([DOLLAR], 0);
    batch.WriteDecimal(|arg|);
    batch.Write([CR, LF], 0);
    batch.Write(arg, 0);
    batch.Write([CR, LF], 0);
    var d := Decimal(|arg|);
    assert old(batch.outDone) + [DOLLAR] + d + [CR, LF] + arg + [CR, LF]
        == old(batch.outDone) + ([DOLLAR] + d + [CR] + [LF] + arg + [CR] + [LF]);
  }

  lemma HeaderWritten(before: seq<Byte>, digits: seq<Byte>, items: seq<Item>)
    ensures before + [STAR] + digits + [CR, LF] == before + MultiHeader(digits) + ItemsBytes(items[..0])
  {
    assert before + [STAR] + digits + [CR, LF] == before + MultiHeader(digits) + [];
  }

  /** Batch_cmd: nothing is written unless all arguments are strings. */
  method Cmd(batch: Batch, args: seq<Zval>) returns (ok: bool)
    requires batch.Valid() && batch.writeBuffer.Filling()
    modifies batch`numCommands, batch`Repr, batch`outDone, batch`outLeft, batch.writeBuffer, batch.writeBuffer.data
    ensures batch.Valid() && batch.writeBuffer.Filling() && fresh(batch.Repr - old(batch.Repr))
    ensures ok <==> AllStrings(args)
    ensures ok ==> batch.outDone == old(batch.outDone) + WordBytes(CommandWord(Strings(args)))
                   && batch.numCommands == old(batch.numCommands) + 1
    ensures !ok ==> batch.outDone == old(batch.outDone) && batch.numCommands == old(batch.numCommands)
    // Byte by byte.
    ensures ok ==> exists t, ts ::
      && batch.outDone == old(batch.outDone) + t && |ts| == |args| && IsMultiText(t, ts)
      && forall k :: 0 <= k < |args| ==> IsBulkText(ts[k], args[k].bytes)
  {
    hide IsMultiText, IsBulkText;
    hide Batch.Valid, ItemsBytes, ItemBytes, Decimal, ArgItems;
    for i := 0 to |args|
      invariant forall k | 0 <= k < i :: args[k].IsString?
    {
      if !args[i].IsString? {
        return false;
      }
    }
    ghost var before, items := batch.outDone, ArgItems(Strings(args));
    batch.Write([STAR], 1);
    batch.WriteDecimal(|args|);
    batch.Write([CR, LF], 0);
    ghost var header := MultiHeader(Decimal(|args|));
    HeaderWritten(before, Decimal(|args|), items);
    for i := 0 to |args|
      invariant batch.Valid() && batch.writeBuffer.Filling() && fresh(batch.Repr - old(batch.Repr))
      invariant batch.outDone == before + header + ItemsBytes(items[..i])
      invariant batch.writeBuffer.data == old(batch.writeBuffer.data) || fresh(batch.writeBuffer.data)
      invariant batch.numCommands == old(batch.numCommands) + 1
    {
      WriteArgument(batch, args[i].bytes);
      ItemsBytesSnoc(items[..i], items[i]);
      assert items[..i] + [items[i]] == items[..i + 1];
      Assoc(before + header, ItemsBytes(items[..i]), ItemBytes(items[i]));
    }
    assert items[..|args|] == items;
    Assoc(before, header, ItemsBytes(items));
    CommandSpelled(Strings(args));
    return true;
  }
}
