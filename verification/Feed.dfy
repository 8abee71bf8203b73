/** parser.c as its callers use it: ReplyParser_execute again and again, while the buffer fills up. */
module Feeding {
  import opened Bytes
  import opened Grammar
  import opened Machine
  import opened Streams
  import opened Buffers
  import opened Lists
  import opened Replies
  import opened Parser

  /** n is the reply for word w, whose text begins at position at of the buffer. */
  ghost predicate Stands(n: ListHead, w: Word, at: int, buffer: Buffer, contents: seq<Byte>)
    reads if n.reply.InReply? then {n.reply.children} else {}
    reads if n.reply.InReply? then n.reply.children.elems else []
  {
    WfReply(n) && Denotes(n, Meaning(w), buffer, contents) && WordAt(n, w, at)
  }

  /** ns are the replies for ws, which follow each other from the beginning of the buffer; they are made of foot. */
  ghost predicate Delivered(ns: seq<ListHead>, ws: seq<Word>, buffer: Buffer, contents: seq<Byte>, foot: set<object>)
    reads foot
  {
    |ns| == |ws| && forall k | 0 <= k < |ns| ::
      && ns[k].reply.InReply? && ns[k].reply.children in foot && Footprint(ns[k]) <= foot
      && Stands(ns[k], ws[k], |WordsBytes(ws[..k])|, buffer, contents)
  }

  twostate lemma DeliveredKept(ns: seq<ListHead>, new ws: seq<Word>, new buffer: Buffer, new contents: seq<Byte>,
                               new foot: set<object>)
    requires old(allocated(buffer) && allocated(foot))
    requires old(Delivered(ns, ws, buffer, contents, foot)) && forall o | o in foot :: unchanged(o)
    ensures Delivered(ns, ws, buffer, contents, foot)
  {
    hide Meaning, WordsBytes;
    forall k | 0 <= k < |ns|
      ensures Stands(ns[k], ws[k], |WordsBytes(ws[..k])|, buffer, contents)
      ensures Footprint(ns[k]) == old(Footprint(ns[k]))
    {
      assert old(Stands(ns[k], ws[k], |WordsBytes(ws[..k])|, buffer, contents));
      OwnsKept(ns[k], old(Footprint(ns[k])));
    }
  }

  /** One more reply. */
  lemma DeliveredSnoc(ns: seq<ListHead>, ws: seq<Word>, n: ListHead, w: Word, buffer: Buffer, contents: seq<Byte>,
                      foot: set<object>)
    requires Delivered(ns, ws, buffer, contents, foot)
    requires Stands(n, w, |WordsBytes(ws)|, buffer, contents) && n.reply.InReply?
    ensures Delivered(ns + [n], ws + [w], buffer, contents, foot + Footprint(n))
  {
    hide Stands, Meaning, WordsBytes;
    forall k | 0 <= k <= |ns|
      ensures Stands((ns + [n])[k], (ws + [w])[k], |WordsBytes((ws + [w])[..k])|, buffer, contents)
    {
      assert (ws + [w])[..k] == ws[..k];
      assert ws[..|ns|] == ws;
    }
  }

  /** What has been parsed of the buffer: the replies ns for the words ws, and a derivation in progress. */
  ghost predicate Fed(parser: ReplyParser, buffer: Buffer, contents: seq<Byte>,
                      ns: seq<ListHead>, ws: seq<Word>, foot: set<object>)
    reads parser, parser.Repr, foot
  {
    && parser.Valid(buffer, contents) && parser.Repr !! foot
    && WfWords(ws) && WordsBytes(ws) == contents[..parser.start]
    && Run(Init, contents[parser.start..parser.p]) == More(parser.st)
    && Delivered(ns, ws, buffer, contents, foot)
  }

  lemma NewStands(n: ListHead, w: Word, at: int, buffer: Buffer, contents: seq<Byte>)
    requires WfReply(n) && Denotes(n, Meaning(w), buffer, contents) && WordAt(n, w, at)
    ensures Stands(n, w, at, buffer, contents) && n.reply.InReply?
  {
  }

  /** One call of ReplyParser_execute. */
  method FeedOnce(parser: ReplyParser, buffer: Buffer, len: nat,
                  ns: seq<ListHead>, ghost ws: seq<Word>, ghost foot: set<object>)
    returns (result: ParserResult, ns': seq<ListHead>, ghost ws': seq<Word>, ghost foot': set<object>)
    requires buffer.Valid() && parser.p <= len <= buffer.position
    requires Fed(parser, buffer, buffer.Contents(), ns, ws, foot)
    requires buffer !in parser.Repr && buffer.data !in parser.Repr
    modifies parser, parser.Repr
    ensures buffer.Contents() == old(buffer.Contents()) && fresh(parser.Repr - old(parser.Repr))
    ensures Fed(parser, buffer, buffer.Contents(), ns', ws', foot') && parser.p <= len
    ensures result == RprReply ==> parser.p > old(parser.p)
    ensures result == RprMore ==> parser.p == len
    ensures result == RprError ==> Stuck(parser.st, buffer.Contents(), parser.p, len)
  {
    hide Delivered, WordsBytes, Stands, Consumed, Run, Denotes, WfReply, WordAt, Meaning;
    ghost var contents, start, p, st := buffer.Contents(), parser.start, parser.p, parser.st;
    ghost var v := Run(st, contents[p..len]);
    RunFrom(contents, start, p, len, st);
    RunDecodes(st, contents[p..len]);
    ns', ws', foot' := ns, ws, foot;
    var reply;
    result, reply := parser.Execute(buffer, len);
    DeliveredKept(ns, ws, buffer, contents, foot);
    match result
    case RprMore =>
      assert contents[start..parser.p] == contents[start..len];
    case RprError =>
      StuckAt(contents, p, len, parser.p, st);
      RunFrom(contents, start, p, parser.p, st);
    case RprReply =>
      WordRead(contents, ws, start, len, parser.p, v.word);
      NewStands(reply, v.word, start, buffer, contents);
      DeliveredSnoc(ns, ws, reply, v.word, buffer, contents, foot);
      ns', ws', foot' := ns + [reply], ws + [v.word], foot + Footprint(reply);
      NothingRead(contents, parser.p);
      parser.IdleIsValid(buffer, contents);
  }

  function LastOf(lens: seq<nat>): nat {
    if lens == [] then 0 else lens[|lens| - 1]
  }

  /** What the parser knows once it has read len bytes, and the answer it gave last. */
  ghost predicate LeftBehind(result: ParserResult, parser: ReplyParser, contents: seq<Byte>, len: nat)
    reads parser
  {
    parser.p <= len <= |contents|
    && match result
       case RprReply => false
       case RprMore => parser.p == len && Leftover(contents[..len]) == More(parser.st)
       case RprError => Leftover(contents[..len]) == Error(parser.st, contents[parser.p..len])
  }

  /** All replies that are complete in the first len bytes. */
  method FeedUpTo(parser: ReplyParser, buffer: Buffer, len: nat,
                  ns: seq<ListHead>, ghost ws: seq<Word>, ghost foot: set<object>)
    returns (result: ParserResult, ns': seq<ListHead>, ghost ws': seq<Word>, ghost foot': set<object>)
    requires buffer.Valid() && parser.p <= len <= buffer.position
    requires Fed(parser, buffer, buffer.Contents(), ns, ws, foot)
    requires buffer !in parser.Repr && buffer.data !in parser.Repr
    modifies parser, parser.Repr
    ensures buffer.Contents() == old(buffer.Contents()) && fresh(parser.Repr - old(parser.Repr))
    ensures Fed(parser, buffer, buffer.Contents(), ns', ws', foot') && parser.p <= len
    ensures ws' == Decode(buffer.Contents()[..len])
    ensures LeftBehind(result, parser, buffer.Contents(), len)
  {
    hide Fed, ReplyParser.Valid, Stuck, LeftBehind;
    ghost var contents := buffer.Contents();
    result, ns', ws', foot' := FeedOnce(parser, buffer, len, ns, ws, foot);
    while result == RprReply
      invariant buffer.Valid() && buffer.Contents() == contents && parser.p <= len
      invariant fresh(parser.Repr - old(parser.Repr)) && buffer !in parser.Repr && buffer.data !in parser.Repr
      invariant Fed(parser, buffer, contents, ns', ws', foot')
      invariant result == RprMore ==> parser.p == len
      invariant result == RprError ==> Stuck(parser.st, contents, parser.p, len)
      decreases result == RprReply, len - parser.p
    {
      result, ns', ws', foot' := FeedOnce(parser, buffer, len, ns', ws', foot');
    }
    FedDecoded(parser, buffer, contents, ns', ws', foot', len, result);
  }

  lemma FedDecoded(parser: ReplyParser, buffer: Buffer, contents: seq<Byte>, ns: seq<ListHead>, ws: seq<Word>,
                   foot: set<object>, len: nat, result: ParserResult)
    requires Fed(parser, buffer, contents, ns, ws, foot) && parser.p <= len <= |contents|
    requires match result
             case RprReply => false
             case RprMore => parser.p == len
             case RprError => Stuck(parser.st, contents, parser.p, len)
    ensures ws == Decode(contents[..len]) && LeftBehind(result, parser, contents, len)
  {
    hide Delivered, WordsBytes, Decode, Leftover;
    RunFrom(contents, parser.start, parser.p, len, parser.st);
    Decoded(contents, ws, parser.start, len);
  }

  /**
   However the stream arrives, and whatever len is at each call: the replies delivered are those of the
   stream so far, each at the offsets where its text is, and the parser is left with what follows them.
   */
  method FeedAll(parser: ReplyParser, buffer: Buffer, lens: seq<nat>)
    returns (result: ParserResult, ns: seq<ListHead>, ghost foot: set<object>)
    requires buffer.Valid() && parser.Idle() && parser.p == 0
    requires forall i | 0 <= i < |lens| :: lens[i] <= buffer.position
    requires forall i | 0 < i < |lens| :: lens[i - 1] <= lens[i]
    modifies parser
    ensures buffer.Contents() == old(buffer.Contents()) && parser.Valid(buffer, buffer.Contents())
    ensures LastOf(lens) <= |buffer.Contents()|
    ensures Delivered(ns, Decode(buffer.Contents()[..LastOf(lens)]), buffer, buffer.Contents(), foot)
    ensures LeftBehind(result, parser, buffer.Contents(), LastOf(lens))
  {
    hide Fed, Delivered, ReplyParser.Valid, Stuck, LeftBehind;
    ghost var contents := buffer.Contents();
    ghost var ws := [];
    result, ns, foot := RprMore, [], {};
    NothingFed(parser, buffer, contents);
    for i := 0 to |lens|
      invariant buffer.Valid() && buffer.Contents() == contents
      invariant fresh(parser.Repr - {parser}) && buffer !in parser.Repr && buffer.data !in parser.Repr
      invariant parser.p <= LastOf(lens[..i]) && Fed(parser, buffer, contents, ns, ws, foot)
      invariant ws == Decode(contents[..LastOf(lens[..i])])
      invariant LeftBehind(result, parser, contents, LastOf(lens[..i]))
    {
      assert LastOf(lens[..i]) == (if i == 0 then 0 else lens[i - 1]) <= lens[i] == LastOf(lens[..i + 1]);
      result, ns, ws, foot := FeedUpTo(parser, buffer, lens[i], ns, ws, foot);
    }
    assert lens[..|lens|] == lens;
    FedFacts(parser, buffer, contents, ns, ws, foot);
  }

  lemma NothingFed(parser: ReplyParser, buffer: Buffer, contents: seq<Byte>)
    requires parser.Idle() && parser.p == 0
    ensures Fed(parser, buffer, contents, [], [], {})
    ensures [] == Decode(contents[..0]) && LeftBehind(RprMore, parser, contents, 0)
  {
    parser.IdleIsValid(buffer, contents);
  }

  lemma FedFacts(parser: ReplyParser, buffer: Buffer, contents: seq<Byte>, ns: seq<ListHead>, ws: seq<Word>,
                 foot: set<object>)
    requires Fed(parser, buffer, contents, ns, ws, foot)
    ensures parser.Valid(buffer, contents) && Delivered(ns, ws, buffer, contents, foot)
  {
  }
}
