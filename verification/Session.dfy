/**
 Batches executed one after the other on a connection: every reply answers its own command.

 A Record is what one execution leaves behind. Chained says how executions on one connection follow
 each other, and that what they count as sent and received did cross the wire (proved of the code by
 ExecuteInTurn); Served is the one assumption on the server, about the wire alone: it answers each
 command it has received in full, once and in order. NoStaleReplies is the conclusion.
 */
module Sessions {
  import opened Bytes
  import opened Grammar
  import opened Streams
  import opened Batches
  import opened Environment
  import opened Connections

  datatype Record = Record(
    cmds: seq<seq<Byte>>,         // the commands written into the batch
    socket: nat,                  // the number of its socket, or 0 if it got none
    sockets: nat,                 // how many sockets there had been at its end
    sentBefore: seq<Byte>,        // what its socket had sent and received before
    receivedBefore: seq<Byte>,
    sent: seq<Byte>,              // what was sent and received for this batch
    received: seq<Byte>,
    words: seq<Word>,             // the replies parsed
    troubles: int,                // how many calls on its socket failed for good, or reported the end of the stream
    interrupted: bool,            // the clock or poll() put an end to it
    aborted: bool,                // the connection was given up
    values: seq<Value>)           // the replies in the batch

  /** The state of its socket at the end of an execution. */
  function Final(r: Record): Moment {
    Moment(r.socket, r.sentBefore + r.sent, r.receivedBefore + r.received)
  }

  /** How many commands at the front of the text are complete in its first n bytes. */
  function CompleteIn(cmds: seq<seq<Byte>>, n: nat): (m: nat)
    ensures m <= |cmds|
    decreases |cmds|
  {
    if cmds == [] then 0
    else if |Joined(cmds)| <= n then |cmds|
    else CompleteIn(cmds[..|cmds| - 1], n)
  }

  /** No call on its socket failed or reported the end of the stream, and it was not interrupted. */
  predicate Undisturbed(r: Record) {
    r.troubles == 0 && !r.interrupted
  }

  /** One execution, by itself; moments is what has been seen on the wire. */
  ghost predicate Executed(r: Record, moments: set<Moment>) {
    && r.sent <= Joined(r.cmds)
    && WfWords(r.words) && |r.words| <= |r.cmds| && WordsBytes(r.words) <= r.received
    && (r.aborted <==> |r.words| < |r.cmds|)
    && (if r.aborted
        then r.words == Decode(r.received) && (!Undisturbed(r) || Leftover(r.received).Error?)
        else Undisturbed(r))
    && (exists message :: r.values == Answers(r.words, |r.cmds|, message))
    && if r.socket > 0 then r.socket == r.sockets && Final(r) in moments
       else r.aborted && r.sentBefore == r.sent == [] && r.receivedBefore == r.received == []
  }

  /** A batch either goes on where the last one ended, or gets a new socket after an abort. */
  ghost predicate Chained(rs: seq<Record>, moments: set<Moment>) {
    && (forall k | 0 <= k < |rs| :: Executed(rs[k], moments))
    && (|rs| > 0 ==> rs[0].sentBefore == [] && rs[0].receivedBefore == [])
    && (forall k | 0 < k < |rs| :: Follows(rs[k - 1], rs[k]))
  }

  predicate Follows(p: Record, r: Record) {
    if p.aborted
    then r.sentBefore == [] && r.receivedBefore == [] && r.sockets == p.sockets + if r.socket == 0 then 0 else 1
    else r.sentBefore == p.sentBefore + p.sent && r.receivedBefore == p.receivedBefore + p.received
         && r.socket == p.socket && r.sockets == p.sockets
  }

  /** The commands, and the server's answers, on the socket of execution k before execution k. */
  function EarlierCmds(rs: seq<Record>, k: nat): seq<seq<Byte>>
    requires k < |rs|
  {
    if k == 0 || rs[k - 1].aborted then [] else EarlierCmds(rs, k - 1) + rs[k - 1].cmds
  }

  function EarlierAnswers(rs: seq<Record>, answers: seq<seq<Word>>, k: nat): seq<Word>
    requires k < |rs| == |answers|
  {
    if k == 0 || rs[k - 1].aborted then [] else EarlierAnswers(rs, answers, k - 1) + answers[k - 1]
  }

  /** answers[k] has one reply for each command of batch k. */
  ghost predicate AnswerEach(rs: seq<Record>, answers: seq<seq<Word>>) {
    |answers| == |rs| && forall k | 0 <= k < |rs| :: |answers[k]| == |rs[k].cmds| && WfWords(answers[k])
  }

  /** At this moment no more than answers to the commands sent in full has come back; cmds are all so far. */
  ghost predicate InOrder(m: Moment, cmds: seq<seq<Byte>>, replies: seq<Word>) {
    var n := CompleteIn(cmds, |m.sent|);
    n <= |replies| && m.received <= WordsBytes(replies[..n])
  }

  /**
   The server: whenever a socket carried commands of the batches up to k, what came back was no more than
   the answers to those it had in full, in order.
   */
  ghost predicate Served(rs: seq<Record>, answers: seq<seq<Word>>, moments: set<Moment>)
    requires AnswerEach(rs, answers)
  {
    forall k, m | 0 <= k < |rs| && m in moments ::
      m.socket == rs[k].socket && m.sent <= Joined(EarlierCmds(rs, k) + rs[k].cmds) ==>
        InOrder(m, EarlierCmds(rs, k) + rs[k].cmds, EarlierAnswers(rs, answers, k) + answers[k])
  }

  lemma {:induction false} EarlierLength(rs: seq<Record>, answers: seq<seq<Word>>, k: nat)
    requires k < |rs| && AnswerEach(rs, answers)
    ensures |EarlierAnswers(rs, answers, k)| == |EarlierCmds(rs, k)| && WfWords(EarlierAnswers(rs, answers, k))
  {
    if k > 0 && !rs[k - 1].aborted {
      EarlierLength(rs, answers, k - 1);
    }
  }

  lemma {:induction false} WordsBytesMonotone(ws: seq<Word>, m: nat)
    requires m <= |ws|
    ensures WordsBytes(ws[..m]) <= WordsBytes(ws)
  {
    assert ws == ws[..m] + ws[m..];
    WordsBytesConcat(ws[..m], ws[m..]);
  }

  /** Words at the front of a text of words are the first of those words. */
  lemma {:induction false} PrefixOfWords(ws: seq<Word>, vs: seq<Word>)
    requires WfWords(ws) && WfWords(vs) && WordsBytes(ws) <= WordsBytes(vs)
    ensures ws <= vs
  {
    DecodeIsPrefix(ws, WordsBytes(vs));
    PipelinedRoundTrip(vs);
  }

  lemma {:induction false} CompleteMeansAll(cmds: seq<seq<Byte>>, n: nat)
    requires CompleteIn(cmds, n) == |cmds|
    ensures |Joined(cmds)| <= n
  {
  }

  lemma PrefixUnder<T>(x: seq<T>, y: seq<T>, z: seq<T>)
    ensures x + y <= x + z <==> y <= z
  {
    if x + y <= x + z {
      assert (x + y)[|x|..] == y && (x + z)[|x|..] == z;
    }
  }

  /** Execution k is in step with the server: earlier batches left nothing unsent and nothing unread. */
  ghost predicate InStep(rs: seq<Record>, answers: seq<seq<Word>>, k: nat)
    requires k < |rs| && AnswerEach(rs, answers)
  {
    && rs[k].sentBefore == Joined(EarlierCmds(rs, k))
    && rs[k].receivedBefore == WordsBytes(EarlierAnswers(rs, answers, k))
  }

  /** The replies of execution k are the server's answers to its own commands. */
  ghost predicate Answered(r: Record, answers: seq<Word>) {
    && r.words <= answers && r.received <= WordsBytes(answers)
    && (!r.aborted ==> r.words == answers && r.sent == Joined(r.cmds) && r.received == WordsBytes(answers))
  }

  lemma PrefixTransitive<T>(x: seq<T>, y: seq<T>, z: seq<T>)
    requires x <= y && y <= z
    ensures x <= z
  {
  }

  /** Words read from what is received after e are the first of the words a that the server owes. */
  lemma {:induction false} WordsInStep(e: seq<Word>, a: seq<Word>, ws: seq<Word>, received: seq<Byte>, m: nat)
    requires WfWords(e) && WfWords(a) && WfWords(ws) && m <= |e| + |a|
    requires WordsBytes(ws) <= received && WordsBytes(e) + received <= WordsBytes((e + a)[..m])
    ensures ws <= a
  {
    hide WordsBytes;
    var due := (e + a)[..m];
    WordsBytesConcat(e, ws);
    WordsBytesMonotone(e + a, m);
    PrefixUnder(WordsBytes(e), WordsBytes(ws), received);
    PrefixTransitive(WordsBytes(e + ws), WordsBytes(e) + received, WordsBytes(due));
    PrefixTransitive(WordsBytes(e + ws), WordsBytes(due), WordsBytes(e + a));
    PrefixOfWords(e + ws, e + a);
    PrefixUnder(e, ws, a);
  }

  /** What is received after e is the beginning of the text of a. */
  lemma {:induction false} TextInStep(e: seq<Word>, a: seq<Word>, received: seq<Byte>, m: nat)
    requires m <= |e| + |a| && WordsBytes(e) + received <= WordsBytes((e + a)[..m])
    ensures received <= WordsBytes(a)
  {
    hide WordsBytes;
    WordsBytesMonotone(e + a, m);
    WordsBytesConcat(e, a);
    PrefixTransitive(WordsBytes(e) + received, WordsBytes((e + a)[..m]), WordsBytes(e + a));
    PrefixUnder(WordsBytes(e), received, WordsBytes(a));
  }

  /** The beginning of a text of replies is not mistaken for anything else. */
  lemma {:induction false} NoError(received: seq<Byte>, ws: seq<Word>)
    requires WfWords(ws) && received <= WordsBytes(ws)
    ensures !Leftover(received).Error?
  {
    PipelinedRoundTrip(ws);
    var rest := WordsBytes(ws)[|received|..];
    assert WordsBytes(ws) == received + rest;
    ResumeReads(received, rest);
  }

  /** If all words that the server owes have been read, it had all the commands, and sent no more. */
  lemma {:induction false} AllWordsInStep(e: seq<Word>, a: seq<Word>, received: seq<Byte>, m: nat)
    requires WfWords(e) && WfWords(a) && m <= |e| + |a|
    requires WordsBytes(a) <= received && WordsBytes(e) + received <= WordsBytes((e + a)[..m])
    ensures m == |e| + |a| && received == WordsBytes(a)
  {
    hide WordsBytes;
    var due := (e + a)[..m];
    WordsBytesConcat(e, a);
    PrefixUnder(WordsBytes(e), WordsBytes(a), received);
    PrefixTransitive(WordsBytes(e + a), WordsBytes(e) + received, WordsBytes(due));
    PrefixOfWords(e + a, due);
    assert due == e + a;
    PrefixUnder(WordsBytes(e), received, WordsBytes(a));
  }

  lemma AnsweredInStep(rs: seq<Record>, answers: seq<seq<Word>>, moments: set<Moment>, k: nat)
    requires AnswerEach(rs, answers) && k < |rs| && Executed(rs[k], moments)
    requires Served(rs, answers, moments) && InStep(rs, answers, k)
    ensures Answered(rs[k], answers[k])
  {
    hide WordsBytes, CompleteIn, EarlierCmds, EarlierAnswers;
    var r := rs[k];
    if r.socket == 0 {
      PrefixOfWords(r.words, answers[k]);
      assert [] <= WordsBytes(answers[k]);
      return;
    }
    var cmds, e := EarlierCmds(rs, k), EarlierAnswers(rs, answers, k);
    EarlierLength(rs, answers, k);
    JoinedConcat(cmds, r.cmds);
    PrefixUnder(Joined(cmds), r.sent, Joined(r.cmds));
    assert InOrder(Final(r), cmds + r.cmds, e + answers[k]);
    var m := CompleteIn(cmds + r.cmds, |Final(r).sent|);
    WordsInStep(e, answers[k], r.words, r.received, m);
    TextInStep(e, answers[k], r.received, m);
    if !r.aborted {
      assert r.words == answers[k];
      AllWordsInStep(e, answers[k], r.received, m);
      CompleteMeansAll(cmds + r.cmds, |Final(r).sent|);
    }
  }

  /** A batch that was answered leaves the next one in step. */
  lemma NextInStep(rs: seq<Record>, answers: seq<seq<Word>>, k: nat)
    requires AnswerEach(rs, answers) && 0 < k < |rs| && !rs[k - 1].aborted && Follows(rs[k - 1], rs[k])
    requires InStep(rs, answers, k - 1) && Answered(rs[k - 1], answers[k - 1])
    ensures InStep(rs, answers, k)
  {
    hide Joined, WordsBytes;
    JoinedConcat(EarlierCmds(rs, k - 1), rs[k - 1].cmds);
    WordsBytesConcat(EarlierAnswers(rs, answers, k - 1), answers[k - 1]);
  }

  lemma {:induction false} StaysInStep(rs: seq<Record>, answers: seq<seq<Word>>, moments: set<Moment>, k: nat)
    requires Chained(rs, moments) && AnswerEach(rs, answers) && Served(rs, answers, moments) && k < |rs|
    ensures InStep(rs, answers, k) && Answered(rs[k], answers[k])
  {
    hide Served, Executed, Answered;
    if k > 0 {
      assert Follows(rs[k - 1], rs[k]);
      if !rs[k - 1].aborted {
        StaysInStep(rs, answers, moments, k - 1);
        NextInStep(rs, answers, k);
      }
    }
    AnsweredInStep(rs, answers, moments, k);
  }

  /**
   No stale replies: reply i of batch k is the server's answer to command i of batch k for the first n
   commands, and the error of an abort for the others; there are others exactly if a call on the socket had
   failed or reported the end of the stream, or the clock or poll() had put an end to it; and then all the
   replies that had come were passed on.
   */
  lemma NoStaleReplies(rs: seq<Record>, answers: seq<seq<Word>>, moments: set<Moment>, k: nat)
    returns (n: nat, message: seq<Byte>)
    requires Chained(rs, moments) && AnswerEach(rs, answers) && Served(rs, answers, moments) && k < |rs|
    ensures n <= |rs[k].cmds| == |rs[k].values| && (n < |rs[k].cmds| <==> rs[k].aborted)
    ensures rs[k].aborted <==> !Undisturbed(rs[k])
    ensures rs[k].aborted ==> n == |Decode(rs[k].received)|
    ensures forall i | 0 <= i < n :: rs[k].values[i] == Meaning(answers[k][i])
    ensures forall i | n <= i < |rs[k].cmds| :: rs[k].values[i] == LineValue(ErrorLine, message)
  {
    hide Meaning, Served, Decode, Leftover, WordsBytes;
    StaysInStep(rs, answers, moments, k);
    var r := rs[k];
    assert Executed(r, moments);
    NoError(r.received, answers[k]);
    message :| r.values == Answers(r.words, |r.cmds|, message);
    n := |r.words|;
  }

  /** The same for a batch of one command. */
  lemma OwnAnswer(rs: seq<Record>, answers: seq<seq<Word>>, moments: set<Moment>, k: nat) returns (message: seq<Byte>)
    requires Chained(rs, moments) && AnswerEach(rs, answers) && Served(rs, answers, moments)
    requires k < |rs| && |rs[k].cmds| == 1
    ensures rs[k].values == [if rs[k].aborted then LineValue(ErrorLine, message) else Meaning(answers[k][0])]
    ensures rs[k].aborted <==> !Undisturbed(rs[k])
  {
    hide Meaning, Served, Chained;
    var n;
    n, message := NoStaleReplies(rs, answers, moments, k);
  }

  // ----- The code produces chained records -----

  ghost function RecordOf(c: Connection, b: Batch, cmds: seq<seq<Byte>>): Record
    reads c, c.peer, b
  {
    Record(cmds, c.wire, c.peer.sockets, c.sentBefore, c.receivedBefore, b.outDone, b.received, c.words,
           c.peer.troubles - c.troublesBefore, c.interrupted, c.state == CsAborted, b.values)
  }

  /** The connection is where the last record left it, and all records are true of its wire. */
  ghost predicate Continues(c: Connection, rs: seq<Record>)
    reads c, c.peer
  {
    && Chained(rs, c.peer.moments)
    && if rs == [] then c.state == CsClosed || c.state == CsAborted
       else
         var r := rs[|rs| - 1];
         && r.sockets == c.peer.sockets
         && if r.aborted then c.state == CsAborted
            else c.state == CsConnected && Final(r) == c.peer.Now()
  }

  /** A finished pair has been executed in the sense of Executed. */
  lemma {:induction false} FinishedIsExecuted(e: Executor, c: Connection, b: Batch, cmds: seq<seq<Byte>>)
    requires e.Finished(c, b) && c.total == |cmds| && c.text == Joined(cmds) && |cmds| > 0
    ensures Executed(RecordOf(c, b, cmds), c.peer.moments)
    ensures c.Ready() && c.Separate(b) && b.Valid() && b.AtStart()
    ensures c.state == CsAborted || c.state == CsConnected
    ensures c.wire > 0 ==> Final(RecordOf(c, b, cmds)) == c.peer.Now()
    ensures c.Numbered()
    ensures c.wire == 0 ==> c.state == CsAborted
  {
    hide Batch.Valid, Decode, Leftover, Connection.Delivered, Connection.Excused, Connection.Undisturbed;
    var message := e.FinishedReplies(c, b);
    assert b.values == Answers(c.words, c.total, message);
  }

  /** An execution adds its record. */
  twostate lemma Recorded(c: Connection, new e: Executor, new b: Batch, new cmds: seq<seq<Byte>>, new rs: seq<Record>)
    requires old(allocated(e) && allocated(b))
    requires old(c.Ready() && Continues(c, rs)) && |cmds| > 0
    requires old(b.numCommands == |cmds| && b.outDone == Joined(cmds))
    requires e.Began(c, b) && e.Finished(c, b)
    ensures Continues(c, rs + [RecordOf(c, b, cmds)])
    ensures c.Ready() && c.Separate(b) && b.Valid() && b.AtStart()
  {
    hide Batch.Valid, Chained, Executed, Executor.Finished;
    FinishedIsExecuted(e, c, b, cmds);
    ChainedMore(rs, old(c.peer.moments), c.peer.moments);
    ChainedSnoc(rs, RecordOf(c, b, cmds), c.peer.moments);
  }

  lemma ChainedMore(rs: seq<Record>, moments: set<Moment>, more: set<Moment>)
    requires Chained(rs, moments) && moments <= more
    ensures Chained(rs, more)
  {
    hide Follows;
    forall k | 0 <= k < |rs|
      ensures Executed(rs[k], more)
    {
      assert Executed(rs[k], moments);
    }
  }

  lemma ChainedSnoc(rs: seq<Record>, r: Record, moments: set<Moment>)
    requires Chained(rs, moments) && Executed(r, moments)
    requires if rs == [] then r.sentBefore == [] && r.receivedBefore == [] else Follows(rs[|rs| - 1], r)
    ensures Chained(rs + [r], moments)
  {
    hide Executed, Follows;
    var ss := rs + [r];
    forall k | 0 <= k < |ss|
      ensures Executed(ss[k], moments)
    {
      assert k < |rs| ==> Executed(rs[k], moments);
    }
    forall k | 0 < k < |ss|
      ensures Follows(ss[k - 1], ss[k])
    {
      assert k < |rs| ==> Follows(rs[k - 1], rs[k]);
    }
  }

  /** One batch on one connection, with an executor of its own, as Connection._execute_simple does it. */
  method ExecuteOne(c: Connection, b: Batch, ghost cmds: seq<seq<Byte>>, ghost rs: seq<Record>)
    returns (ghost r: Record)
    requires c.Ready() && c.Fresh(b) && c.Separate(b) && Continues(c, rs)
    requires |cmds| > 0 && b.numCommands == |cmds| && b.outDone == Joined(cmds)
    modifies c.Foot(b)
    ensures c.Ready() && c.Separate(b) && fresh(c.Foot(b) - old(c.Foot(b)))
    ensures r == RecordOf(c, b, cmds) && r.cmds == cmds && r.values == b.values && Continues(c, rs + [r])
    ensures b.Valid() && b.AtStart()
  {
    hide Connection.Separate, Connection.Fresh, Connection.Ready, Batch.AtStart;
    hide Batch.Valid, Connection.Ok, Continues, Executor.Finished, Executor.Began;
    var patience: nat := *;
    var clock := new Clock(patience);
    var executor := new Executor();
    var added := executor.Add(c, b);
    ghost var foot := c.Foot(b);
    assert executor.Startable(c, b, executor.fds[0], foot);
    label Added:
    var result;
    ghost var now;
    result, now := executor.Execute(clock, [foot]);
    Recorded@Added(c, executor, b, cmds, rs);
    r := RecordOf(c, b, cmds);
  }

  /** A batch that waits for its turn. */
  ghost predicate Pending(c: Connection, b: Batch, cmds: seq<seq<Byte>>, repr: set<object>)
    reads c, c.parser, b, b.Repr, b.currentReply
  {
    && c.Fresh(b) && c.Separate(b) && b.Repr == repr
    && |cmds| > 0 && b.numCommands == |cmds| && b.outDone == Joined(cmds)
  }

  twostate lemma PendingKept(c: Connection, new b: Batch, new cmds: seq<seq<Byte>>, new repr: set<object>)
    requires old(allocated(b) && allocated(repr))
    requires old(Pending(c, b, cmds, repr))
    requires forall o | o in repr :: unchanged(o)
    requires c.parser in c.parser.Repr && {c, c.peer} !! c.parser.Repr && c.parser.Repr !! repr
    ensures Pending(c, b, cmds, repr)
  {
    hide Batch.Valid;
    assert b in repr;
  }

  /** The batches from i on wait for their turn. */
  ghost predicate Waiting(c: Connection, bs: seq<Batch>, i: nat, cmds: seq<seq<seq<Byte>>>, reprs: seq<set<object>>)
    reads c, c.parser, bs, set b | b in bs :: b.currentReply
    reads set b, o | b in bs && o in b.Repr :: o
  {
    && |bs| == |cmds| == |reprs|
    && forall k | i <= k < |bs| :: Pending(c, bs[k], cmds[k], reprs[k])
  }

  lemma WaitingFacts(c: Connection, bs: seq<Batch>, i: nat, cmds: seq<seq<seq<Byte>>>, reprs: seq<set<object>>)
    requires Waiting(c, bs, i, cmds, reprs)
    ensures |bs| == |cmds| == |reprs|
    ensures i < |bs| ==> Pending(c, bs[i], cmds[i], reprs[i])
    ensures forall k | i <= k < |bs| ::
      {c, c.peer} !! reprs[k] && c.parser.Repr !! reprs[k] && bs[k] in reprs[k] && reprs[k] <= Union(reprs)
  {
    forall k | i <= k < |bs|
      ensures {c, c.peer} !! reprs[k] && c.parser.Repr !! reprs[k] && bs[k] in reprs[k]
    {
      PendingFacts(c, bs[k], cmds[k], reprs[k]);
    }
  }

  /** Batch i has been executed; the batches behind it do not notice. */
  twostate lemma WaitingOn(c: Connection, new bs: seq<Batch>, new i: nat, new cmds: seq<seq<seq<Byte>>>,
                           new reprs: seq<set<object>>)
    requires old(allocated(bs) && allocated(reprs))
    requires i < |bs| && old(Waiting(c, bs, i, cmds, reprs)) && Disjoint(reprs)
    requires c.parser in c.parser.Repr && {c, c.peer} !! c.parser.Repr
    requires fresh(c.parser.Repr - old(c.parser.Repr) - reprs[i])
    requires forall k, o | i < k < |bs| && o in reprs[k] :: unchanged(o)
    ensures Waiting(c, bs, i + 1, cmds, reprs)
  {
    forall k | i < k < |bs|
      ensures Pending(c, bs[k], cmds[k], reprs[k])
    {
      assert old(Pending(c, bs[k], cmds[k], reprs[k]));
      PendingKept(c, bs[k], cmds[k], reprs[k]);
    }
  }

  /** Batch i is executed; the others do not notice. */
  method ExecuteNext(c: Connection, bs: seq<Batch>, i: nat, ghost cmds: seq<seq<seq<Byte>>>,
                     ghost reprs: seq<set<object>>, ghost rs: seq<Record>)
    returns (ghost r: Record)
    requires i < |bs| && c.Ready() && Continues(c, rs)
    requires Waiting(c, bs, i, cmds, reprs) && Disjoint(reprs)
    requires forall k | 0 <= k < i :: bs[k] in reprs[k] && bs[k] !in c.parser.Repr
    modifies c, c.peer, c.parser.Repr, reprs[i]
    ensures Waiting(c, bs, i + 1, cmds, reprs)
    ensures forall k | 0 <= k <= i :: bs[k] in reprs[k] && bs[k] !in c.parser.Repr
    ensures forall k | 0 <= k < i :: bs[k].values == old(bs[k].values)
    ensures c.Ready() && fresh(c.parser.Repr - old(c.parser.Repr) - reprs[i])
    ensures r.cmds == cmds[i] && r.values == bs[i].values && Continues(c, rs + [r])
  {
    hide Waiting, Pending, Continues, Connection.Ready, Connection.Fresh, Batch.Valid, Batch.AtStart, RecordOf;
    hide Disjoint, Union;
    WaitingFacts(c, bs, i, cmds, reprs);
    PendingFacts(c, bs[i], cmds[i], reprs[i]);
    ApartFrom(reprs, i);
    r := ExecuteOne(c, bs[i], cmds[i], rs);
    WaitingOn(c, bs, i, cmds, reprs);
  }

  lemma ApartFrom(reprs: seq<set<object>>, i: nat)
    requires i < |reprs| && Disjoint(reprs)
    ensures forall k | 0 <= k < |reprs| && k != i :: reprs[k] !! reprs[i]
  {
  }

  /** Any number of batches, one after the other, on a connection with any history. */
  method ExecuteInTurn(c: Connection, bs: seq<Batch>, ghost cmds: seq<seq<seq<Byte>>>, ghost reprs: seq<set<object>>,
                       ghost before: seq<Record>)
    returns (ghost rs: seq<Record>)
    requires c.Ready() && Continues(c, before)
    requires Waiting(c, bs, 0, cmds, reprs) && Disjoint(reprs)
    modifies c, c.peer, c.parser.Repr, Union(reprs)
    ensures c.Ready() && Continues(c, before + rs) && |rs| == |bs|
    ensures forall k | 0 <= k < |bs| :: rs[k].cmds == cmds[k] && rs[k].values == bs[k].values
  {
    hide Waiting, Pending, Continues, Union, Disjoint;
    WaitingFacts(c, bs, 0, cmds, reprs);
    ghost var all := c.parser.Repr + Union(reprs);
    rs := [];
    assert before + [] == before;
    var i := 0;
    while i < |bs|
      invariant 0 <= i <= |bs| && |rs| == i
      invariant c.Ready() && fresh(c.parser.Repr - all) && Continues(c, before + rs)
      invariant Waiting(c, bs, i, cmds, reprs)
      invariant forall k | 0 <= k < i :: rs[k].cmds == cmds[k] && rs[k].values == bs[k].values
      invariant forall k | 0 <= k < i :: bs[k] in reprs[k] && bs[k] !in c.parser.Repr
    {
      ghost var r := ExecuteNext(c, bs, i, cmds, reprs, before + rs);
      assert before + rs + [r] == before + (rs + [r]);
      rs := rs + [r];
      i := i + 1;
    }
  }

  lemma {:induction false} PendingFacts(c: Connection, b: Batch, cmds: seq<seq<Byte>>, repr: set<object>)
    requires Pending(c, b, cmds, repr)
    ensures c.Fresh(b) && c.Separate(b) && b.Repr == repr
    ensures |cmds| > 0 && b.numCommands == |cmds| && b.outDone == Joined(cmds)
  {
  }
}
