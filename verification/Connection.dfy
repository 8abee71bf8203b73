/** connection.c: the connection state machine and the poll loop that drives many of them. */
module Connections {
  import opened Bytes
  import opened Grammar
  import opened Machine
  import opened Streams
  import opened Environment
  import opened Lists
  import opened Replies
  import opened Parser
  import opened Batches

  datatype ConnectionState = CsClosed | CsConnecting | CsConnected | CsAborted

  datatype Event = Io(read: bool, write: bool) | Timeout | Failure

  /**
   An execution of a batch: its commands; whether it continues on an open socket, and what that socket had
   sent and received before; how many sockets there had been, and all states of the wire until then; how many
   calls had failed, and how many times write() had said EAGAIN.
   */
  datatype Execution = Execution(
    total: nat, text: seq<Byte>,
    continued: bool, sentBefore: seq<Byte>, receivedBefore: seq<Byte>,
    socketsBefore: nat, momentsBefore: set<Moment>, troublesBefore: nat, fullBefore: nat)

  function Armed(f: PollFd): nat {
    (if f.wantIn then 1 else 0) + (if f.wantOut then 1 else 0)
  }

  /** The replies of a batch of total commands: those parsed, then the error for all the others. */
  function Answers(words: seq<Word>, total: nat, message: seq<Byte>): seq<Value>
    requires |words| <= total
  {
    Meanings(words) + Errors(total - |words|, message)
  }

  class Connection {
    var sockfd: int
    var state: ConnectionState
    var currentBatch: Batch?
    var currentExecutor: Executor?
    const parser: ReplyParser
    const peer: Endpoint

    // The execution of the current or last batch:
    ghost var total: nat                    // how many commands it had
    ghost var text: seq<Byte>               // what was written into it
    ghost var words: seq<Word>              // the replies parsed for it
    ghost var continued: bool               // it uses the socket of earlier batches
    ghost var sentBefore: seq<Byte>         // sent on that socket for earlier batches
    ghost var receivedBefore: seq<Byte>     // received on that socket for earlier batches
    ghost var socketsBefore: nat            // how many sockets there had been
    ghost var momentsBefore: set<Moment>    // the states of the wire until then
    ghost var troublesBefore: nat           // how many calls on its sockets had failed
    ghost var fullBefore: nat               // how many times write() had said EAGAIN
    ghost var interrupted: bool             // the clock or poll() has put an end to it
    ghost var wire: nat                     // the number of its socket, or 0 if it has got none

    ghost predicate Separate(b: Batch)
      reads parser, b
    {
      && parser in parser.Repr && b in b.Repr && b.currentReply in b.Repr
      && {this, peer} !! b.Repr && {this, peer} !! parser.Repr && parser.Repr !! b.Repr
    }

    /** Nothing has happened to the batch yet. */
    ghost predicate Untouched(b: Batch)
      requires b.Valid()
      reads this, parser, b, b.Repr
    {
      && b.numCommands == total && b.values == [] && words == [] && b.received == []
      && b.error == null && b.outDone == []
      && parser.Idle() && parser.p == 0
    }

    /** Replies and the parser account for every byte received, up to where the parser is. */
    ghost predicate Parsing(b: Batch)
      requires b.Valid()
      reads this, parser, parser.Repr, b, b.Repr
    {
      && b.values == Meanings(words) && |words| + b.numCommands == total && b.error == null
      && parser.Valid(b.readBuffer, b.received) && parser.p <= |b.received|
      && Between(parser.start, parser.p, parser.st, b)
    }

    /** The words parsed end at start, and reading on from there to p leads to state st. */
    ghost predicate Between(start: nat, p: nat, st: Partial, b: Batch)
      reads this, b
    {
      && start <= p <= |b.received| && WordsBytes(words) == b.received[..start]
      && Run(Init, b.received[start..p]) == More(st)
    }

    /** What crossed the wire for this batch is in its buffers. */
    ghost predicate Logged(b: Batch)
      requires b.Valid()
      reads this, peer, b, b.Repr
    {
      && peer.sent == sentBefore + b.outDone
      && peer.received == receivedBefore + b.received
      && 0 < wire == peer.sockets && peer.Now() in peer.moments
    }

    /** What was sent and received for this batch, if it has got a socket, is what crossed that socket. */
    ghost predicate OnWire(b: Batch)
      requires b.Valid()
      reads this, peer, b, b.Repr
    {
      if wire == 0 then b.outDone == [] && b.received == [] && sentBefore == [] && receivedBefore == []
      else Logged(b)
    }

    /** Its socket is the one of earlier batches or a new one, and nothing seen on the wire is forgotten. */
    ghost predicate Numbered()
      reads this, peer
    {
      && momentsBefore <= peer.moments && fullBefore <= peer.full
      && if continued then wire == peer.sockets == socketsBefore
         else if wire == 0 then peer.sockets == socketsBefore
         else wire == peer.sockets == socketsBefore + 1
    }

    /** There are commands without a reply, if there were any commands. */
    ghost predicate Owing(b: Batch)
      reads this, b
    {
      b.numCommands > 0 || total == 0
    }

    /** No call on its socket has failed, and neither the clock nor poll() has put an end to it. */
    ghost predicate Undisturbed()
      reads this, peer
    {
      peer.troubles == troublesBefore && !interrupted
    }

    /** Every reply that has been received in full has been parsed for the batch. */
    ghost predicate Delivered(b: Batch)
      reads this, b
    {
      words == Decode(b.received)
    }

    /** There is nothing to be done: it is not connected yet, or all is sent, or write() has said EAGAIN. */
    ghost predicate Stalled(b: Batch)
      reads this, peer, b
    {
      peer.pending || b.outLeft == [] || peer.full > fullBefore
    }

    /**
     What alone may end an execution before all replies are there: a call on its socket that failed for good or
     reported the end of the stream, something that is not a reply, or the clock or poll() while it was stalled.
     */
    ghost predicate Excused(b: Batch)
      reads this, peer, b
    {
      peer.troubles > troublesBefore || Leftover(b.received).Error? || (interrupted && Stalled(b))
    }

    /** The batch, the parser, the words and the wire agree. */
    ghost predicate Sound(b: Batch)
      reads this, peer, parser, parser.Repr, b, b.Repr, b.currentReply
    {
      && Separate(b) && b.Valid() && b.AtStart()
      && WfWords(words) && |words| <= total && WordsBytes(words) <= b.received
      && b.outDone + b.outLeft == text && OnWire(b) && Numbered()
      && match state
         case CsClosed => Untouched(b) && sentBefore == [] && receivedBefore == [] && !continued
         case CsConnecting => Untouched(b) && sockfd > 0 && wire > 0
         case CsConnected => sockfd > 0 && wire > 0 && Parsing(b)
         case CsAborted => b.numCommands == 0 && b.error != null
                           && b.values == Answers(words, total, b.message) && (total > 0 ==> |words| < total)
    }

    /** And it goes on undisturbed, or was given up with an excuse and with all replies delivered. */
    ghost predicate Ok(b: Batch)
      reads this, peer, parser, parser.Repr, b, b.Repr, b.currentReply
    {
      Sound(b) && if state == CsAborted then Delivered(b) && Excused(b) else Undisturbed()
    }

    ghost function Foot(b: Batch): set<object>
      reads parser, b
    {
      {this, peer} + parser.Repr + b.Repr
    }

    constructor (peer: Endpoint)
      ensures state == CsClosed && sockfd == 0 && this.peer == peer
      ensures currentBatch == null && currentExecutor == null && fresh(parser.Repr) && parser.Idle()
    {
      sockfd, state := 0, CsClosed;
      currentBatch, currentExecutor := null, null;
      parser := new ReplyParser();
      this.peer := peer;
      total, text, words, wire := 0, [], [], 0;
      continued, sentBefore, receivedBefore, socketsBefore, momentsBefore := false, [], [], 0, {};
      troublesBefore, fullBefore, interrupted := 0, 0, false;
    }

    /** Connection_close */
    method Close()
      modifies this`sockfd
      ensures sockfd <= 0
    {
      if sockfd > 0 {
        sockfd := 0;
      }
    }

    /** Every command of the batch that has no reply gets an error, of any text. */
    method FailAll(b: Batch)
      requires Separate(b) && b.Valid() && b.AtStart() && b.error == null
      modifies b.Repr
      ensures unchanged(this) && unchanged(peer) && unchanged(parser)
      ensures Separate(b) && this !in b.Repr && fresh(Foot(b) - old(Foot(b)))
      ensures b.Valid() && b.AtStart() && b.numCommands == 0 && b.error != null
      ensures b.outDone == old(b.outDone) && b.outLeft == old(b.outLeft) && b.received == old(b.received)
      ensures b.values == old(b.values) + Errors(old(b.numCommands), b.message)
    {
      hide Batch.Valid, Errors, Batch.AtStart;
      b.Within();
      var message: seq<Byte> := *;
      b.Abort(message);
      b.Within();
    }

    /** All commands without a reply get an error; the socket is given up. */
    method GiveUp(ghost b: Batch)
      requires Sound(b) && state != CsAborted && currentBatch == b && Owing(b) && Delivered(b) && Excused(b)
      modifies this`sockfd, this`state, this`currentBatch, this`currentExecutor
      modifies b.Repr
      ensures Ok(b) && state == CsAborted && fresh(Foot(b) - old(Foot(b)))
      ensures sockfd <= 0 && currentBatch == null && currentExecutor == null
    {
      hide Batch.Valid, ReplyParser.Valid, Ok, Sound, Separate, Foot, Batch.AtStart, Errors, Owing, Delivered, Excused;
      hide OnWire, ReplyParser.Idle, Undisturbed, WordsBytes, Run;
      OkFacts(b);
      OkCounts(b);
      FailAll(currentBatch);
      currentBatch := null;
      currentExecutor := null;
      Close();
      state := CsAborted;
      AbortedOk(b);
    }

    /** Connection_abort */
    method Abort(ghost b: Batch)
      requires if state == CsAborted then Ok(b)
               else Sound(b) && currentBatch == b && Owing(b) && Delivered(b) && Excused(b)
      modifies this`sockfd, this`state, this`currentBatch, this`currentExecutor
      modifies b.Repr
      ensures Ok(b) && state == CsAborted && fresh(Foot(b) - old(Foot(b)))
      ensures old(state) == CsAborted ==> unchanged(this) && forall o | o in old(b.Repr) :: unchanged(o)
      ensures old(state) != CsAborted ==> sockfd <= 0 && currentBatch == null && currentExecutor == null
    {
      hide Ok, Sound, Owing, Delivered, Excused;
      if state == CsAborted {
        return;
      }
      GiveUp(b);
    }

    lemma OkCounts(b: Batch)
      requires Sound(b) && state != CsAborted
      ensures b.Valid() && b.AtStart() && b.error == null
    {
      hide Batch.Valid, ReplyParser.Valid;
    }

    /** The batch has been given up, and so has the connection. */
    twostate lemma AbortedOk(b: Batch)
      requires old(Sound(b)) && old(state) != CsAborted && old(Owing(b)) && state == CsAborted
      requires old(Delivered(b)) && old(Excused(b)) && interrupted == old(interrupted)
      requires Current() == old(Current()) && words == old(words) && wire == old(wire) && unchanged(peer)
      requires b.Valid() && b.AtStart() && Separate(b) && b.numCommands == 0 && b.error != null
      requires b.outDone == old(b.outDone) && b.outLeft == old(b.outLeft) && b.received == old(b.received)
      requires b.values == old(b.values) + Errors(old(b.numCommands), b.message)
      ensures Ok(b)
    {
      hide Batch.Valid, ReplyParser.Valid, Decode, Leftover;
      assert old(total == |words| + b.numCommands && b.values == Meanings(words));
    }

    /** The slot of this connection: its pollfd and the executor lie outside its own objects. */
    ghost predicate Slot(e: Executor, b: Batch, ordinal: nat)
      reads parser, b
    {
      ordinal < e.fds.Length && e !in Foot(b) && e.fds !in Foot(b)
    }

    /** An armed pollfd polls the connection's own socket. */
    ghost predicate Polled(f: PollFd)
      reads this
    {
      (f.wantIn || f.wantOut) && state != CsAborted ==> f.fd == sockfd
    }

    /** Everything that can be done for an unfinished batch has been done, and nothing is wrong with it. */
    ghost predicate Attended(b: Batch)
      reads this, peer, b
    {
      b.numCommands > 0 ==>
        && Delivered(b) && Leftover(b.received).More?
        && match state
           case CsConnecting => peer.pending
           case CsConnected => b.outLeft != [] ==> peer.full > fullBefore
           case _ => false
    }

    /** Between two polls an unfinished batch waits for exactly what it needs. */
    ghost predicate Waiting(f: PollFd, e: Executor, b: Batch)
      reads this, peer, b
    {
      Attended(b) &&
      (b.numCommands > 0 ==>
        && currentBatch == b && currentExecutor == e
        && match state
           case CsConnecting => f.wantOut && !f.wantIn && f.fd == sockfd
           case CsConnected => f.wantIn && (b.outLeft != [] ==> f.wantOut) && f.fd == sockfd
           case _ => false)
    }

    /** A new connection to a server that refuses it is given up, with nothing armed. */
    ghost predicate Hopeless(f: PollFd)
      reads this
    {
      peer.script.Refusing? && !Current().continued ==> state == CsAborted && !f.wantIn && !f.wantOut
    }

    /** A new connection that takes its time is waited for. */
    ghost predicate Pends(f: PollFd)
      reads this
    {
      peer.script.Slow? && !Current().continued ==> f.wantOut && state == CsConnecting
    }

    ghost function Current(): Execution
      reads this
    {
      Execution(total, text, continued, sentBefore, receivedBefore, socketsBefore, momentsBefore,
                troublesBefore, fullBefore)
    }

    /** The execution is still that of the same batch. */
    twostate predicate SameRun()
      reads this
    {
      Current() == old(Current())
    }

    /** Connection_create_socket */
    method CreateSocket(ghost b: Batch) returns (ok: bool)
      requires Ok(b) && state == CsClosed && wire == 0 && currentBatch == b
      modifies this`sockfd, this`state, this`currentBatch, this`currentExecutor, this`wire, peer
      modifies b.Repr
      ensures Ok(b) && fresh(Foot(b) - old(Foot(b)))
      ensures ok ==> state == CsClosed && sockfd > 0 && wire > 0
                     && currentBatch == b && currentExecutor == old(currentExecutor)
      ensures !ok ==> state == CsAborted
      ensures peer.script.Slow? ==> ok
      ensures peer.patience == old(peer.patience) && peer.full == old(peer.full) && peer.dry == old(peer.dry)
    {
      hide Batch.Valid, ReplyParser.Valid, ReplyParser.Idle, Ok, Sound, Undisturbed, Delivered, Excused;
      OkFacts(b);
      UntouchedFacts(b);
      b.Within();
      var resolved, fd, configured := peer.Create();
      if !resolved {
        NoSocket(b);
        Abort(b);
        return false;
      }
      sockfd := fd;
      if sockfd == -1 {
        NoSocket(b);
        Abort(b);
        return false;
      }
      wire := peer.sockets;
      NewSocket(b);
      if !configured {
        Abort(b);
        return false;
      }
      return true;
    }

    /** A batch to which nothing has happened. */
    lemma UntouchedFacts(b: Batch)
      requires Sound(b) && (state == CsClosed || state == CsConnecting)
      ensures b.Valid() && b.AtStart() && b.error == null && Owing(b) && Delivered(b)
      ensures Leftover(b.received).More?
    {
      hide Batch.Valid, ReplyParser.Valid;
    }

    /** There is no socket yet. */
    twostate lemma NoSocket(b: Batch)
      requires old(Ok(b)) && old(state) == CsClosed && old(wire) == 0 && state == CsClosed && wire == 0
      requires Current() == old(Current()) && words == old(words) && peer.Now() == old(peer.Now())
      requires peer.moments == old(peer.moments) && peer.full == old(peer.full)
      requires peer.troubles > old(peer.troubles)
      requires unchanged(parser) && unchanged(b) && b.Valid() && b.AtStart()
      ensures Sound(b) && Owing(b) && Delivered(b) && Excused(b)
    {
      hide Batch.Valid, ReplyParser.Valid;
    }

    /** The batch has got a new socket, which may be of no use. */
    twostate lemma NewSocket(b: Batch)
      requires old(Ok(b)) && old(state) == CsClosed && old(wire) == 0 && state == CsClosed
      requires Current() == old(Current()) && words == old(words) && interrupted == old(interrupted)
      requires wire == peer.sockets == old(peer.sockets) + 1 && peer.sent == [] && peer.received == []
      requires old(peer.moments) <= peer.moments && peer.Now() in peer.moments && peer.full == old(peer.full)
      requires unchanged(parser) && unchanged(b) && b.Valid() && b.AtStart()
      ensures Sound(b) && Owing(b) && Delivered(b)
      ensures peer.troubles > old(peer.troubles) ==> Excused(b)
      ensures peer.troubles == old(peer.troubles) ==> Ok(b)
    {
      hide Batch.Valid, ReplyParser.Valid;
    }

    /** What connect() has brought an untouched batch, or what has become of it. */
    twostate lemma SocketOpened(b: Batch)
      requires old(Ok(b)) && old(state == CsClosed || state == CsConnecting)
      requires state == CsConnecting || state == CsConnected || state == old(state)
      requires sockfd > 0 && 0 < wire == old(wire) && Current() == old(Current()) && words == old(words)
      requires interrupted == old(interrupted) && peer.Now() == old(peer.Now())
      requires peer.moments == old(peer.moments) && peer.full == old(peer.full)
      requires unchanged(parser) && unchanged(b) && b.Valid() && b.AtStart()
      ensures Sound(b) && Owing(b) && Delivered(b) && Leftover(b.received).More?
      ensures peer.troubles > old(peer.troubles) ==> Excused(b)
      ensures peer.troubles == old(peer.troubles) ==> Ok(b)
    {
      hide Batch.Valid, ReplyParser.Valid;
      parser.IdleIsValid(b.readBuffer, b.received);
      NothingRead(b.received, 0);
    }

    /** The CS_CLOSED part of Connection_write_data: a new socket starts to connect. */
    method BeginConnect(ordinal: nat, ghost e: Executor, ghost b: Batch)
      requires Ok(b) && state == CsClosed && wire == 0
      requires currentBatch == b && currentExecutor == e && Slot(e, b, ordinal)
      requires !e.fds[ordinal].wantIn && !e.fds[ordinal].wantOut
      modifies this`sockfd, this`state, this`currentBatch, this`currentExecutor, this`wire, peer
      modifies b.Repr, e`numevents, e.fds
      ensures Ok(b) && fresh(Foot(b) - old(Foot(b))) && e.OnlySlot(ordinal)
      ensures peer.patience == old(peer.patience) && peer.full == old(peer.full) && peer.dry == old(peer.dry)
      ensures state != CsClosed
      ensures state != CsAborted ==> currentBatch == b && currentExecutor == e
      ensures state == CsConnecting ==> Waiting(e.fds[ordinal], e, b)
      ensures state != CsConnecting ==> e.fds[ordinal] == old(e.fds[ordinal])
      ensures peer.script.Refusing? ==> state == CsAborted
      ensures peer.script.Slow? ==> state == CsConnecting && e.fds[ordinal].wantOut
      ensures state != CsAborted ==> Owing(b) && Delivered(b) && Leftover(b.received).More?
      ensures Polled(e.fds[ordinal])
    {
      hide Batch.Valid, ReplyParser.Valid, Ok, Sound, Owing, Delivered, Excused, Leftover, Waiting;
      OkFacts(b);
      var ok := CreateSocket(b);
      OkFacts(b);
      if ok {
        StartConnect(ordinal, e, b);
      }
    }

    /** connect() on the new socket. */
    method StartConnect(ordinal: nat, ghost e: Executor, ghost b: Batch)
      requires Ok(b) && state == CsClosed && wire > 0 && sockfd > 0
      requires currentBatch == b && currentExecutor == e && Slot(e, b, ordinal)
      requires !e.fds[ordinal].wantIn && !e.fds[ordinal].wantOut
      modifies this`sockfd, this`state, this`currentBatch, this`currentExecutor, peer`troubles, peer`pending
      modifies b.Repr, e`numevents, e.fds
      ensures Ok(b) && fresh(Foot(b) - old(Foot(b))) && e.OnlySlot(ordinal)
      ensures state != CsClosed
      ensures state != CsAborted ==> currentBatch == b && currentExecutor == e
      ensures state == CsConnecting ==> Waiting(e.fds[ordinal], e, b)
      ensures state != CsConnecting ==> e.fds[ordinal] == old(e.fds[ordinal])
      ensures peer.script.Refusing? ==> state == CsAborted
      ensures peer.script.Slow? ==> state == CsConnecting && e.fds[ordinal].wantOut
      ensures state != CsAborted ==> Owing(b) && Delivered(b) && Leftover(b.received).More?
      ensures Polled(e.fds[ordinal])
    {
      hide Batch.Valid, ReplyParser.Valid, Ok, Sound, Owing, Delivered, Excused, Leftover;
      OkFacts(b);
      OkCounts(b);
      var r := peer.Connect();
      match r
      case InProgress =>
        state := CsConnecting;
        SocketOpened(b);
        currentExecutor.NotifyEvent(this, false, true, ordinal);
      case Refused =>
        SocketOpened(b);
        Abort(b);
      case Connected =>
        state := CsConnected;
        SocketOpened(b);
    }

    /** The CS_CONNECTING part: the outcome of the connect. */
    method FinishConnect(ordinal: nat, ghost e: Executor, ghost b: Batch)
      requires Ok(b) && state == CsConnecting && currentBatch == b && currentExecutor == e && Slot(e, b, ordinal)
      requires !e.fds[ordinal].wantIn && !e.fds[ordinal].wantOut
      modifies this`sockfd, this`state, this`currentBatch, this`currentExecutor, peer
      modifies b.Repr, e`numevents, e.fds
      ensures Ok(b) && fresh(Foot(b) - old(Foot(b))) && e.OnlySlot(ordinal)
      ensures peer.patience == old(peer.patience) && peer.full == old(peer.full) && peer.dry == old(peer.dry)
      ensures state == CsAborted || (state == CsConnected && Owing(b) && Delivered(b) && Leftover(b.received).More?)
      ensures state == CsConnected ==>
        currentBatch == b && currentExecutor == e
        && e.fds[ordinal].wantIn && !e.fds[ordinal].wantOut && e.fds[ordinal].fd == sockfd
      ensures Polled(e.fds[ordinal])
    {
      hide Batch.Valid, ReplyParser.Valid, Ok, Sound, Owing, Delivered, Excused, Leftover;
      OkFacts(b);
      OkCounts(b);
      var failed := peer.PendingError();
      if failed {
        SocketOpened(b);
        Abort(b);
      } else {
        state := CsConnected;
        SocketOpened(b);
        currentExecutor.NotifyEvent(this, true, false, ordinal);
      }
    }

    /** One Buffer_send of the write buffer. */
    method SendSome(ghost b: Batch) returns (res: int, again: bool)
      requires Ok(b) && state == CsConnected && currentBatch == b && b.outLeft != []
      modifies b.Repr, peer
      ensures Sound(b) && fresh(Foot(b) - old(Foot(b))) && peer.patience == old(peer.patience)
      ensures if res == -1 && !again then Excused(b) else Ok(b)
      ensures peer.full == old(peer.full) + (if res == -1 && again then 1 else 0) && peer.dry == old(peer.dry)
      ensures b.numCommands == old(b.numCommands) && b.received == old(b.received)
      ensures res == -1 || |b.outLeft| < old(|b.outLeft|)
    {
      hide Batch.Valid, ReplyParser.Valid, Ok, Sound, Excused, Parsing, Logged;
      OkFacts(b);
      OkParsing(b);
      b.Within();
      res, again := currentBatch.Send(peer);
      SentOk(b, if res == -1 then 0 else res);
    }

    /** n more bytes of the batch have been sent, or the socket is of no more use. */
    twostate lemma SentOk(b: Batch, new n: nat)
      requires old(Ok(b)) && old(state) == CsConnected && unchanged(this) && unchanged(parser)
      requires b.Valid() && b.AtStart()
      requires n <= old(|b.outLeft|) && b.outLeft == old(b.outLeft)[n..]
      requires b.outDone == old(b.outDone) + old(b.outLeft)[..n]
      requires peer.sent == old(peer.sent) + old(b.outLeft)[..n] && peer.received == old(peer.received)
      requires peer.sockets == old(peer.sockets) && old(peer.moments) <= peer.moments && peer.Now() in peer.moments
      requires peer.full >= old(peer.full)
      requires b.Repr == old(b.Repr) && b.received == old(b.received) && b.error == old(b.error)
      requires b.values == old(b.values) && b.numCommands == old(b.numCommands)
      requires parser.Valid(b.readBuffer, b.received)
      ensures Sound(b)
      ensures peer.troubles == old(peer.troubles) ==> Ok(b)
      ensures peer.troubles > old(peer.troubles) ==> Excused(b)
    {
      hide Batch.Valid, ReplyParser.Valid, WordsBytes, Run, WfWords, Meanings, Decode, Leftover;
      var left := old(b.outLeft);
      assert left == left[..n] + left[n..];
      Assoc(old(b.outDone), left[..n], left[n..]);
      Assoc(sentBefore, old(b.outDone), left[..n]);
    }

    /** The CS_CONNECTED part: sends until all is sent or the socket takes no more. */
    method FlushWrites(ordinal: nat, ghost e: Executor, ghost b: Batch)
      requires Ok(b) && state == CsConnected && Owing(b) && Delivered(b)
      requires currentBatch == b && currentExecutor == e && Slot(e, b, ordinal)
      requires !e.fds[ordinal].wantOut && Polled(e.fds[ordinal])
      modifies this`sockfd, this`state, this`currentBatch, this`currentExecutor, peer
      modifies b.Repr, e`numevents, e.fds
      ensures Ok(b) && fresh(Foot(b) - old(Foot(b))) && e.OnlySlot(ordinal)
      ensures peer.patience == old(peer.patience) && peer.dry == old(peer.dry)
      ensures state == CsAborted || state == CsConnected
      ensures state == CsConnected ==>
        && currentBatch == b && currentExecutor == e && sockfd == old(sockfd) && b.received == old(b.received)
        && e.fds[ordinal].wantIn == old(e.fds[ordinal].wantIn)
        && (b.outLeft != [] ==> e.fds[ordinal].wantOut && peer.full > old(peer.full))
      ensures Polled(e.fds[ordinal])
    {
      hide Batch.Valid, ReplyParser.Valid, Ok, Sound, Excused, Decode, Batch.AtStart, Numbered, Undisturbed, OnWire;
      hide ReplyParser.Idle, Run;
      OkFacts(b);
      OkCounts(b);
      var remaining := currentBatch.Remaining();
      while remaining > 0
        invariant Ok(b) && state == CsConnected && currentBatch == b && currentExecutor == e && Owing(b)
        invariant fresh(Foot(b) - old(Foot(b))) && Slot(e, b, ordinal) && sockfd == old(sockfd) > 0
        invariant Separate(b) && b.Valid()
        invariant peer.patience == old(peer.patience) && peer.full == old(peer.full) && peer.dry == old(peer.dry)
        invariant remaining == |b.outLeft|
        invariant e.fds[..] == old(e.fds[..]) && e.numevents == old(e.numevents) && b.received == old(b.received)
        decreases remaining
      {
        var res, again := SendSome(b);
        OkFacts(b);
        if res == -1 {
          if again {
            currentExecutor.NotifyEvent(this, false, true, ordinal);
          } else {
            Abort(b);
          }
          return;
        }
        OkCounts(b);
        remaining := currentBatch.Remaining();
      }
    }

    /** Connection_write_data */
    method WriteData(ordinal: nat, ghost e: Executor, ghost b: Batch)
      requires Ok(b) && state != CsAborted && (state == CsClosed ==> wire == 0)
      requires state == CsConnected ==> Owing(b) && Delivered(b) && Leftover(b.received).More?
      requires currentBatch == b && currentExecutor == e && Slot(e, b, ordinal)
      requires !e.fds[ordinal].wantOut && Polled(e.fds[ordinal])
      requires state != CsConnected ==> !e.fds[ordinal].wantIn
      modifies this`sockfd, this`state, this`currentBatch, this`currentExecutor, this`wire, peer
      modifies b.Repr, e`numevents, e.fds
      ensures Ok(b) && fresh(Foot(b) - old(Foot(b))) && e.OnlySlot(ordinal)
      ensures peer.patience == old(peer.patience) && peer.dry == old(peer.dry)
      ensures state != CsClosed && Polled(e.fds[ordinal])
      ensures state != CsAborted ==> currentBatch == b && currentExecutor == e
      ensures state == CsConnecting ==> old(state) == CsClosed && Waiting(e.fds[ordinal], e, b)
      ensures old(state) == CsClosed && peer.script.Refusing? ==>
        state == CsAborted && e.fds[ordinal] == old(e.fds[ordinal])
      ensures old(state) == CsClosed && peer.script.Slow? ==> state == CsConnecting && e.fds[ordinal].wantOut
      ensures state == CsConnected ==>
        && e.fds[ordinal].wantIn == (old(e.fds[ordinal].wantIn) || old(state) == CsConnecting)
        && Delivered(b) && Leftover(b.received).More?
        && (b.outLeft != [] ==> e.fds[ordinal].wantOut && peer.full > old(peer.full))
    {
      hide Batch.Valid, ReplyParser.Valid, Ok, Sound, Waiting, Owing, Decode, Leftover;
      OkFacts(b);
      if state == CsClosed {
        BeginConnect(ordinal, e, b);
        if state != CsConnected {
          return;
        }
      }
      if state == CsConnecting {
        FinishConnect(ordinal, e, b);
        if state == CsAborted {
          return;
        }
      }
      OkFacts(b);
      if state == CsConnected {
        FlushWrites(ordinal, e, b);
      }
    }

    /** The parser has just completed word w for the unfinished batch. */
    ghost predicate Delivering(b: Batch, w: Word)
      reads this, peer, parser, b, b.Repr, b.currentReply
    {
      && Separate(b) && b.Valid() && b.AtStart()
      && WfWords(words) && WfWord(w)
      && b.outDone + b.outLeft == text
      && sockfd > 0 && wire > 0 && OnWire(b) && Numbered() && Undisturbed()
      && b.values == Meanings(words) && |words| + b.numCommands == total && b.error == null
      && parser.Idle() && parser.p <= |b.received|
      && WordsBytes(words + [w]) == b.received[..parser.p]
    }

    /** Only the parser has moved, and it is still in step with the batch. */
    twostate lemma StillOk(b: Batch)
      requires old(Ok(b)) && state == CsConnected
      requires unchanged(this) && unchanged(peer) && unchanged(b) && b.Valid() && b.AtStart()
      requires fresh(parser.Repr - old(parser.Repr)) && parser.Valid(b.readBuffer, b.received)
      requires Between(parser.start, parser.p, parser.st, b)
      ensures Ok(b)
    {
      hide Batch.Valid, ReplyParser.StageValid, ReplyParser.OpenValid, Run, Meanings, WfWords;
      hide WordsBytes, WfPartial, Untouched, Batch.AtStart, Between, Decode, Leftover;
    }

    lemma OkParsing(b: Batch)
      requires Sound(b) && state == CsConnected
      ensures Separate(b) && b.Valid() && b.AtStart() && WfWords(words)
      ensures parser.Valid(b.readBuffer, b.received) && parser.p <= |b.received|
      ensures WfPartial(parser.st) && Between(parser.start, parser.p, parser.st, b)
    {
      hide Batch.Valid, Logged, Untouched;
    }

    /** The parser has moved, and has completed a reply. */
    twostate lemma HasReply(b: Batch, new w: Word)
      requires old(Ok(b)) && state == CsConnected
      requires unchanged(this) && unchanged(peer) && unchanged(b) && b.Valid() && b.AtStart()
      requires fresh(parser.Repr - old(parser.Repr)) && parser.Idle() && parser.p <= |b.received| && WfWord(w)
      requires WordsBytes(words + [w]) == b.received[..parser.p]
      ensures Delivering(b, w)
    {
      hide Batch.Valid, ReplyParser.Valid, WfWord, WordsBytes, WordBytes;
    }

    static lemma AtEnd(front: seq<Byte>, rest: seq<Byte>, s: seq<Byte>, start: nat)
      requires start <= |s| && front + rest == Consumed(Init) + s[start..|s|]
      ensures |rest| <= |s| && rest == s[|s| - |rest|..|s|]
    {
      assert front + rest == s[start..];
      assert rest == (front + rest)[|front|..];
    }

    /** What a verdict on the bytes from p on means for those of the current word, which begins at start. */
    lemma {:induction false} Seen(b: Batch, start: nat, p: nat, st: Partial)
      requires WfWords(words) && WfPartial(st) && Between(start, p, st, b)
      ensures match Run(st, b.received[p..])
              case More(a) => Between(start, |b.received|, a, b) && Delivered(b) && Leftover(b.received) == More(a)
              case Reply(w, rest) =>
                |rest| <= |b.received| && WfWord(w)
                && WordsBytes(words + [w]) == b.received[..|b.received| - |rest|]
              case Error(a, rest) =>
                |rest| <= |b.received| && Between(start, |b.received| - |rest|, a, b)
                && Delivered(b) && Leftover(b.received).Error?
    {
      hide WordsBytes, Decode, Leftover, WfWords, WfPartial, Run;
      var received, len := b.received, |b.received|;
      assert received[p..len] == received[p..] && received[..len] == received;
      RunFrom(received, start, p, len, st);
      RunDecodes(Init, received[start..len]);
      match Run(st, received[p..])
      case More(a) =>
        Decoded(received, words, start, len);
      case Reply(w, rest) =>
        AtEnd(WordBytes(w), rest, received, start);
        WordRead(received, words, start, len, len - |rest|, w);
      case Error(a, rest) =>
        AtEnd(Consumed(a), rest, received, start);
        StuckAt(received, p, len, len - |rest|, st);
        RunFrom(received, start, p, len - |rest|, st);
        Decoded(received, words, start, len);
    }

    /** One ReplyParser_execute on the read buffer. */
    method ParseOne(ghost b: Batch) returns (result: ParserResult, reply: ListHead?, ghost w: Word)
      requires Ok(b) && state == CsConnected && currentBatch == b
      modifies parser, parser.Repr
      ensures fresh(parser.Repr - old(parser.Repr))
      ensures b.numCommands == old(b.numCommands) && b.outLeft == old(b.outLeft)
      ensures peer.patience == old(peer.patience)
      ensures result == RprMore ==> Ok(b) && Delivered(b) && Leftover(b.received).More?
      ensures result == RprError ==> Ok(b) && Delivered(b) && Leftover(b.received).Error?
      ensures result == RprReply ==>
        && Delivering(b, w) && reply != null && WfReply(reply) && reply in Footprint(reply)
        && this !in Footprint(reply) && Footprint(reply) !! b.Repr && parser.Repr !! Footprint(reply)
        && peer !in Footprint(reply) && fresh(Footprint(reply) - old(parser.Repr))
        && Denotes(reply, Meaning(w), b.readBuffer, b.received)
    {
      hide Batch.Valid, ReplyParser.Valid, ReplyParser.StageValid, ReplyParser.OpenValid;
      hide Denotes, WfReply, WfWords, WfWord, Ok, Sound, Delivering, WordsBytes, WordBytes, Consumed, Meaning;
      hide Run, Footprint, Between, Decode, Leftover;
      OkFacts(b);
      OkParsing(b);
      b.ReadBufferFacts();
      ghost var p, st, received := parser.p, parser.st, b.received;
      Seen(b, parser.start, p, st);
      ghost var v := Run(st, received[p..]);
      var buffer := currentBatch.readBuffer;
      assert received[p..|received|] == received[p..];
      w := NilMulti;
      result, reply := parser.Execute(buffer, buffer.position);
      assert b.Valid();
      if result == RprReply {
        w := v.word;
        HasReply(b, w);
        assert reply in Footprint(reply) by {
          InFootprint(reply);
        }
      } else {
        StillOk(b);
      }
    }

    lemma {:induction false} AcceptedOk(ws: seq<Word>, w: Word, b: Batch)
      requires Separate(b) && b.Valid() && b.AtStart() && state == CsConnected && sockfd > 0
      requires wire > 0 && OnWire(b) && Numbered() && Undisturbed()
      requires words == ws + [w] && WfWords(ws) && WfWord(w)
      requires b.outDone + b.outLeft == text && b.error == null
      requires b.values == Meanings(ws) + [Meaning(w)] && |words| + b.numCommands == total
      requires parser.Idle() && parser.p <= |b.received|
      requires WordsBytes(words) == b.received[..parser.p]
      ensures Ok(b)
    {
      hide Batch.Valid, ReplyParser.Valid, Meaning, WfWord, Run, Init;
      assert Meanings(words) == Meanings(ws) + [Meaning(w)];
      NothingRead(b.received, parser.p);
      parser.IdleIsValid(b.readBuffer, b.received);
    }

    lemma DeliveringFacts(b: Batch, w: Word)
      requires Delivering(b, w)
      ensures b.Valid() && b.AtStart() && Separate(b) && b.error == null
      ensures b in b.Repr && {this, peer, parser} !! b.Repr
    {
      hide Batch.Valid;
    }

    /** The batch has taken the reply. */
    twostate lemma AddedOk(b: Batch, new w: Word)
      requires old(Delivering(b, w)) && b.Valid() && b.AtStart() && Separate(b) && words == old(words) + [w]
      requires state == CsConnected && sockfd == old(sockfd) && Current() == old(Current()) && wire == old(wire)
      requires interrupted == old(interrupted) && unchanged(peer) && unchanged(parser)
      requires b.outDone == old(b.outDone) && b.outLeft == old(b.outLeft) && b.received == old(b.received)
      requires b.error == null && b.values == old(b.values) + [Meaning(w)] && b.numCommands == old(b.numCommands) - 1
      ensures Ok(b)
    {
      hide Batch.Valid, ReplyParser.Valid, Meaning, WfWord, Run;
      AcceptedOk(old(words), w, b);
    }

    /** The batch has grown by the objects of a reply. */
    twostate lemma Enlarged(b: Batch, new foot: set<object>)
      requires old(Separate(b)) && unchanged(parser) && b.Repr == old(b.Repr) + foot
      requires {this, peer} !! foot && parser.Repr !! foot
      ensures Separate(b) && Foot(b) <= old(Foot(b)) + foot
    {
    }

    /** Batch_add_reply of the reply just parsed. */
    method Accept(reply: ListHead, ghost w: Word, ghost b: Batch)
      requires Delivering(b, w) && b.numCommands > 0 && state == CsConnected && currentBatch == b
      requires WfReply(reply) && this !in Footprint(reply) && peer !in Footprint(reply)
      requires Footprint(reply) !! b.Repr && parser.Repr !! Footprint(reply)
      requires Denotes(reply, Meaning(w), b.readBuffer, b.received)
      modifies this`words, b.Repr, reply`next, reply`prev
      ensures Ok(b) && Foot(b) <= old(Foot(b)) + old(Footprint(reply))
      ensures b.numCommands == old(b.numCommands) - 1 && words == old(words) + [w]
      ensures b.outLeft == old(b.outLeft) && peer.patience == old(peer.patience)
    {
      hide Batch.Valid, ReplyParser.Valid, Denotes, WfReply, Footprint, Meaning, Ok, Delivering, Foot, Separate;
      hide WordsBytes;
      DeliveringFacts(b, w);
      InFootprint(reply);
      b.Within();
      currentBatch.AddReply(reply, Footprint(reply), Meaning(w));
      words := words + [w];
      Enlarged(b, old(Footprint(reply)));
      AddedOk(b, w);
    }

    /** One Buffer_recv into the read buffer. */
    method ReadMore(ghost b: Batch) returns (res: int, again: bool)
      requires Ok(b) && state == CsConnected && currentBatch == b
      modifies b.Repr, peer
      ensures Sound(b) && fresh(Foot(b) - old(Foot(b)))
      ensures if res == 0 || (res == -1 && !again) then Excused(b) else Ok(b)
      ensures b.numCommands == old(b.numCommands) && b.outLeft == old(b.outLeft)
      ensures res >= -1 && peer.patience + (if res > 0 then 1 else 0) <= old(peer.patience)
      ensures res <= 0 ==> b.received == old(b.received)
      ensures peer.dry == old(peer.dry) + (if res == -1 && again then 1 else 0) && peer.full == old(peer.full)
    {
      hide Batch.Valid, ReplyParser.Valid, Ok, Sound, Excused;
      OkFacts(b);
      OkParsing(b);
      b.Within();
      res, again := currentBatch.Recv(peer);
      b.Within();
      parser.ValidMore(b.readBuffer, old(b.received), b.received);
      ReceivedOk(b);
    }

    /** More has been received for the batch, or the socket is of no more use. */
    twostate lemma ReceivedOk(b: Batch)
      requires old(Ok(b)) && old(state) == CsConnected && unchanged(this) && unchanged(parser)
      requires b.Valid() && b.AtStart() && Separate(b) && parser.Valid(b.readBuffer, b.received)
      requires old(b.received) <= b.received && peer.sent == old(peer.sent)
      requires peer.received == old(peer.received) + b.received[|old(b.received)|..]
      requires peer.sockets == old(peer.sockets) && old(peer.moments) <= peer.moments && peer.Now() in peer.moments
      requires peer.full >= old(peer.full)
      requires b.outDone == old(b.outDone) && b.outLeft == old(b.outLeft) && b.error == old(b.error)
      requires b.values == old(b.values) && b.numCommands == old(b.numCommands)
      ensures Sound(b)
      ensures peer.troubles == old(peer.troubles) ==> Ok(b)
      ensures peer.troubles > old(peer.troubles) ==> Excused(b)
    {
      hide Batch.Valid, ReplyParser.Valid, WordsBytes, Run, WfWords, Meanings, Leftover, Decode;
      var before, now := old(b.received), b.received;
      assert now[..|before|] == before && now == before + now[|before|..];
      Assoc(receivedBefore, before, now[|before|..]);
      assert now[..parser.start] == before[..parser.start];
      assert now[parser.start..parser.p] == before[parser.start..parser.p];
    }

    /** The parser needs more: some is received, or POLLIN is armed, or the connection is aborted. */
    method AwaitMore(ordinal: nat, ghost e: Executor, ghost b: Batch) returns (more: bool)
      requires Ok(b) && state == CsConnected && Owing(b) && Delivered(b) && Slot(e, b, ordinal)
      requires currentBatch == b && currentExecutor == e && !e.fds[ordinal].wantIn && Polled(e.fds[ordinal])
      modifies this`sockfd, this`state, this`currentBatch, this`currentExecutor, peer
      modifies b.Repr, e`numevents, e.fds
      ensures Ok(b) && fresh(Foot(b) - old(Foot(b))) && e.OnlySlot(ordinal) && Polled(e.fds[ordinal])
      ensures peer.full == old(peer.full) && peer.dry >= old(peer.dry)
      ensures more ==>
        && state == CsConnected && currentBatch == b && currentExecutor == e && sockfd == old(sockfd)
        && e.fds[..] == old(e.fds[..]) && e.numevents == old(e.numevents)
        && peer.patience < old(peer.patience)
        && b.numCommands == old(b.numCommands) && b.outLeft == old(b.outLeft)
      ensures !more ==>
        || state == CsAborted
        || (state == CsConnected && currentBatch == b && currentExecutor == e && e.fds[ordinal].wantIn
            && e.fds[ordinal].wantOut == old(e.fds[ordinal].wantOut) && b.outLeft == old(b.outLeft)
            && b.received == old(b.received) && peer.dry > old(peer.dry))
    {
      hide Batch.Valid, ReplyParser.Valid, Ok, Sound, Excused, Batch.AtStart, Decode;
      OkFacts(b);
      var res, again := ReadMore(b);
      OkFacts(b);
      if res == -1 {
        if again {
          currentExecutor.NotifyEvent(this, true, false, ordinal);
        } else {
          Abort(b);
        }
        return false;
      } else if res == 0 {
        Abort(b);
        return false;
      }
      return true;
    }

    /** One turn of the loop in Connection_read_data. */
    method ReadStep(ordinal: nat, ghost e: Executor, ghost b: Batch) returns (more: bool)
      requires Ok(b) && state == CsConnected && b.numCommands > 0 && Slot(e, b, ordinal)
      requires currentBatch == b && currentExecutor == e && !e.fds[ordinal].wantIn && Polled(e.fds[ordinal])
      modifies this`sockfd, this`state, this`currentBatch, this`currentExecutor, this`words, peer
      modifies parser.Repr, b.Repr, e`numevents, e.fds
      ensures Ok(b) && fresh(Foot(b) - old(Foot(b))) && e.OnlySlot(ordinal) && Polled(e.fds[ordinal])
      ensures old(words) <= words && peer.full == old(peer.full) && peer.dry >= old(peer.dry)
      ensures more ==>
        && state == CsConnected && currentBatch == b && currentExecutor == e && sockfd == old(sockfd)
        && e.fds[..] == old(e.fds[..]) && e.numevents == old(e.numevents) && b.outLeft == old(b.outLeft)
        && (peer.patience < old(peer.patience)
            || (peer.patience == old(peer.patience) && b.numCommands == old(b.numCommands) - 1))
      ensures !more ==>
        || state == CsAborted
        || (state == CsConnected && currentBatch == b && currentExecutor == e && e.fds[ordinal].wantIn
            && e.fds[ordinal].wantOut == old(e.fds[ordinal].wantOut) && b.outLeft == old(b.outLeft)
            && Delivered(b) && Leftover(b.received).More? && peer.dry > old(peer.dry))
    {
      hide Batch.Valid, ReplyParser.Valid, Ok, Sound, Denotes, WfReply, Footprint, Delivering, Waiting;
      hide Excused, Decode, Leftover, Batch.AtStart, Meaning, WordsBytes, OnWire, Numbered, Undisturbed;
      OkFacts(b);
      var result, reply;
      ghost var w;
      result, reply, w := ParseOne(b);
      assert fresh(Foot(b) - old(Foot(b)));
      match result
      case RprError =>
        Broken(b);
        Abort(b);
        return false;
      case RprMore =>
        more := AwaitMore(ordinal, e, b);
      case RprReply =>
        Accept(reply, w, b);
        return true;
    }

    /** Connection_read_data */
    method ReadData(ordinal: nat, ghost e: Executor, ghost b: Batch)
      requires Ok(b) && (state == CsAborted || state == CsConnected) && Slot(e, b, ordinal)
      requires state == CsConnected ==> currentBatch == b && currentExecutor == e && !e.fds[ordinal].wantIn
      requires Polled(e.fds[ordinal])
      modifies this`sockfd, this`state, this`currentBatch, this`currentExecutor, this`words, peer
      modifies parser.Repr, b.Repr, e`numevents, e.fds
      ensures Ok(b) && fresh(Foot(b) - old(Foot(b))) && e.OnlySlot(ordinal)
      ensures state == CsAborted || (state == CsConnected && old(state) == CsConnected)
      ensures old(words) <= words && Polled(e.fds[ordinal]) && peer.full == old(peer.full)
      ensures state == CsConnected ==>
        && e.fds[ordinal].wantOut == old(e.fds[ordinal].wantOut) && b.outLeft == old(b.outLeft)
        && (b.numCommands > 0 ==>
              && currentBatch == b && currentExecutor == e && e.fds[ordinal].wantIn
              && Delivered(b) && Leftover(b.received).More? && peer.dry > old(peer.dry))
    {
      hide Batch.Valid, ReplyParser.Valid, Ok, Sound, Excused, Decode, Leftover, Delivered;
      if state == CsAborted {
        return;
      }
      OkFacts(b);
      while currentBatch.HasCommand()
        invariant Ok(b) && state == CsConnected && currentBatch == b && currentExecutor == e && Separate(b)
        invariant fresh(Foot(b) - old(Foot(b))) && Slot(e, b, ordinal) && sockfd == old(sockfd)
        invariant e.fds[..] == old(e.fds[..]) && e.numevents == old(e.numevents)
        invariant old(words) <= words && b.outLeft == old(b.outLeft)
        invariant peer.full == old(peer.full) && peer.dry >= old(peer.dry)
        decreases peer.patience, b.numCommands
      {
        var more := ReadStep(ordinal, e, b);
        if !more {
          return;
        }
        OkFacts(b);
      }
    }

    /** What has been received does not begin with replies only. */
    lemma Broken(b: Batch)
      requires Ok(b) && Leftover(b.received).Error?
      ensures Sound(b) && Excused(b)
    {
      hide Sound, Leftover, Delivered;
    }

    /** An event that may be handled: its bits are no longer armed, and what is not armed is in it. */
    ghost predicate Handles(event: Event, f: PollFd, b: Batch)
      reads this, b
    {
      event.Io? ==>
        match state
        case CsConnecting => event.write && !event.read && !f.wantIn && !f.wantOut
        case CsConnected =>
          && (event.read <==> !f.wantIn)
          && (event.write ==> !f.wantOut)
          && (b.outLeft != [] ==> f.wantOut || event.write)
        case _ => false
    }

    /** The clock or poll() puts an end to an execution for which nothing can be done at the moment. */
    ghost method Interrupt(b: Batch)
      requires Ok(b) && b.numCommands > 0 && Attended(b)
      modifies this`interrupted
      ensures Sound(b) && Owing(b) && Delivered(b) && Excused(b)
    {
      hide Batch.Valid, ReplyParser.Valid, Decode, Leftover;
      interrupted := true;
    }

    /** Connection_handle_event */
    method HandleEvent(event: Event, ordinal: nat, ghost e: Executor, ghost b: Batch)
      requires Ok(b) && b.numCommands > 0 && currentBatch == b && currentExecutor == e && Slot(e, b, ordinal)
      requires (state == CsConnecting || state == CsConnected) && Attended(b)
      requires Handles(event, e.fds[ordinal], b) && Polled(e.fds[ordinal])
      modifies this`sockfd, this`state, this`currentBatch, this`currentExecutor, this`words, this`wire, peer
      modifies this`interrupted, parser.Repr, b.Repr, e`numevents, e.fds
      ensures Ok(b) && fresh(Foot(b) - old(Foot(b))) && e.OnlySlot(ordinal)
      ensures old(words) <= words && Polled(e.fds[ordinal])
      ensures Waiting(e.fds[ordinal], e, b)
      ensures state != CsClosed && (!event.Io? ==> state == CsAborted && e.fds[ordinal] == old(e.fds[ordinal]))
      // An event of the socket does not end the execution by itself: all is written, and read, that can be.
      ensures event.Io? ==> interrupted == old(interrupted)
      ensures event.Io? && b.numCommands > 0 ==>
        && (event.write ==> state == CsConnected && (b.outLeft != [] ==> peer.full > old(peer.full)))
        && (event.read ==> peer.dry > old(peer.dry))
    {
      hide Batch.Valid, ReplyParser.Valid, Ok, Sound, Excused, Decode, Leftover, Numbered, Undisturbed, Separate;
      hide OnWire, Batch.AtStart, Delivered, Parsing;
      OkFacts(b);
      if state == CsAborted {
        return;
      }
      match event
      case Failure =>
        Interrupt(b);
        Abort(b);
        OkFacts(b);
      case Timeout =>
        Interrupt(b);
        Abort(b);
        OkFacts(b);
      case Io(read, write) =>
        if write {
          WriteData(ordinal, e, b);
          OkFacts(b);
        }
        if read {
          ReadData(ordinal, e, b);
        }
        OkFacts(b);
    }

    /** A connection to which a new batch may be given. */
    ghost predicate Ready()
      reads this, peer
    {
      && state != CsConnecting
      && (state == CsConnected ==> sockfd > 0 && peer.sockets > 0 && peer.Now() in peer.moments)
    }

    /** A batch that has not been executed. */
    ghost predicate Fresh(b: Batch)
      reads b, b.Repr, b.currentReply
    {
      b.Valid() && b.AtStart() && b.values == [] && b.received == [] && b.error == null
    }

    /** The execution of b if it were to begin now: on the open socket, or else on a new one. */
    ghost function Upcoming(b: Batch): Execution
      reads this, peer, b
    {
      var open := state == CsConnected;
      Execution(b.numCommands, b.outDone,
                open, if open then peer.sent else [], if open then peer.received else [],
                peer.sockets, peer.moments, peer.troubles, peer.full)
    }

    /** The execution that is now the current one. */
    ghost method SetCurrent(run: Execution)
      modifies this`total, this`text, this`continued, this`sentBefore, this`receivedBefore
      modifies this`socketsBefore, this`momentsBefore, this`troublesBefore, this`fullBefore
      ensures Current() == run
    {
      total, text, continued := run.total, run.text, run.continued;
      sentBefore, receivedBefore := run.sentBefore, run.receivedBefore;
      socketsBefore, momentsBefore := run.socketsBefore, run.momentsBefore;
      troublesBefore, fullBefore := run.troublesBefore, run.fullBefore;
    }

    /** A new execution begins. */
    ghost method Begin(batch: Batch)
      modifies this
      ensures state == old(state) && sockfd == old(sockfd)
      ensures Current() == old(Upcoming(batch)) && words == [] && !interrupted
      ensures wire == if state == CsConnected then peer.sockets else 0
    {
      hide Upcoming;
      SetCurrent(Upcoming(batch));
      words, interrupted, wire := [], false, if state == CsConnected then peer.sockets else 0;
    }

    /** The connection and its parser forget the last batch. */
    method Renew(executor: Executor, batch: Batch)
      requires Ready() && this !in parser.Repr && parser in parser.Repr && this !in batch.Repr
      modifies this, parser
      ensures state == (if old(state) == CsAborted then CsClosed else old(state))
      ensures currentBatch == batch && currentExecutor == executor && sockfd == old(sockfd)
      ensures Current() == old(Upcoming(batch)) && words == [] && !interrupted
      ensures wire == if state == CsConnected then peer.sockets else 0
      ensures parser.Idle() && parser.p == 0
    {
      hide Upcoming, Ready;
      Begin(batch);
      currentBatch := batch;
      currentExecutor := executor;
      if state == CsAborted {
        state := CsClosed;
      }
      parser.Reset();
    }

    /** The new batch as the connection's current one; what was written into it is now to be sent. */
    method TakeBatch(executor: Executor, batch: Batch)
      requires Ready() && Fresh(batch) && Separate(batch)
      modifies this, parser, batch`outDone, batch`outLeft, batch.writeBuffer
      ensures Ok(batch) && Foot(batch) <= old(Foot(batch))
      ensures state == (if old(state) == CsAborted then CsClosed else old(state))
      ensures currentBatch == batch && currentExecutor == executor && sockfd == old(sockfd)
      ensures Current() == old(Upcoming(batch)) && Owing(batch) && !interrupted
      ensures Delivered(batch) && Leftover(batch.received).More?
      ensures wire == if state == CsConnected then peer.sockets else 0
    {
      hide Batch.Valid, ReplyParser.Valid, Ok, Parsing, Logged, Fresh, Foot, Separate;
      FreshFacts(batch);
      batch.Within();
      Renew(executor, batch);
      batch.FlipWriteBuffer();
      FootShrinks(batch);
      TakenIsOk(batch);
    }

    lemma FreshFacts(b: Batch)
      requires Fresh(b) && Separate(b)
      ensures b in b.Repr && {this, peer, parser} !! b.Repr && this !in parser.Repr && parser in parser.Repr
      ensures b.Valid() && b.AtStart() && b.values == [] && b.received == [] && b.error == null
    {
      hide Batch.Valid;
    }

    twostate lemma FootShrinks(b: Batch)
      requires old(Separate(b)) && parser.Repr == {parser} && b.Repr == old(b.Repr)
      ensures Foot(b) <= old(Foot(b)) && Separate(b)
    {
    }

    /** A batch that has just been taken, on a connection that is closed or connected. */
    lemma TakenIsOk(b: Batch)
      requires Separate(b) && b.Valid() && b.AtStart() && Untouched(b) && b.outLeft == text
      requires state == CsClosed || (state == CsConnected && sockfd > 0)
      requires Current() == Upcoming(b).(total := total, text := text)
      requires wire == if state == CsConnected then peer.sockets else 0
      requires state == CsConnected ==> peer.sockets > 0 && peer.Now() in peer.moments
      requires !interrupted
      ensures Ok(b) && Delivered(b) && Leftover(b.received).More?
    {
      hide Batch.Valid, ReplyParser.Valid;
      parser.IdleIsValid(b.readBuffer, b.received);
      NothingRead(b.received, 0);
      assert sentBefore + [] == sentBefore && receivedBefore + [] == receivedBefore;
      assert [] + b.outLeft == b.outLeft;
    }

    /** Writing starts, and reading as soon as the connection is there. */
    method KickOff(ordinal: nat, ghost e: Executor, ghost b: Batch)
      requires Ok(b) && Owing(b) && currentBatch == b && currentExecutor == e && Slot(e, b, ordinal)
      requires ((state == CsClosed && wire == 0) || state == CsConnected) && peer.full == fullBefore
      requires Delivered(b) && Leftover(b.received).More?
      requires !e.fds[ordinal].wantIn && !e.fds[ordinal].wantOut
      modifies this`sockfd, this`state, this`currentBatch, this`currentExecutor, this`wire, peer
      modifies b.Repr, e`numevents, e.fds
      ensures Ok(b) && fresh(Foot(b) - old(Foot(b))) && e.OnlySlot(ordinal)
      ensures Polled(e.fds[ordinal]) && Waiting(e.fds[ordinal], e, b)
      ensures state != CsClosed
      ensures old(state) == CsClosed && peer.script.Refusing? ==>
        state == CsAborted && e.fds[ordinal] == old(e.fds[ordinal])
      ensures old(state) == CsClosed && peer.script.Slow? ==> e.fds[ordinal].wantOut && state == CsConnecting
    {
      hide Ok, Sound, Decode, Leftover;
      OkFacts(b);
      WriteData(ordinal, e, b);
      OkFacts(b);
      if state == CsConnected {
        currentExecutor.NotifyEvent(this, true, false, ordinal);
      }
    }

    /** Connection_execute_start */
    method ExecuteStart(executor: Executor, batch: Batch, ordinal: nat)
      requires Ready() && Fresh(batch) && Separate(batch) && Slot(executor, batch, ordinal)
      requires !executor.fds[ordinal].wantIn && !executor.fds[ordinal].wantOut
      modifies this, peer, parser, batch.Repr, executor`numevents, executor.fds
      ensures Ok(batch) && fresh(Foot(batch) - old(Foot(batch))) && executor.OnlySlot(ordinal)
      ensures Current() == old(Upcoming(batch))
      ensures Hopeless(executor.fds[ordinal]) && Pends(executor.fds[ordinal])
      ensures Polled(executor.fds[ordinal]) && Waiting(executor.fds[ordinal], executor, batch)
      ensures state != CsClosed && !interrupted
    {
      hide Batch.Valid, ReplyParser.Valid, Ok, Waiting, Polled, Delivered, Leftover;
      batch.Within();
      TakeBatch(executor, batch);
      KickOff(ordinal, executor, batch);
    }

    lemma OkFacts(b: Batch)
      ensures Ok(b) ==> Sound(b) && (state == CsAborted || Undisturbed())
      ensures Sound(b) ==> Separate(b) && fullBefore <= peer.full
      ensures Sound(b) && (state == CsConnected || state == CsConnecting) ==> sockfd > 0 && wire > 0
      ensures Sound(b) && (state == CsClosed || state == CsConnecting) ==> Owing(b)
      ensures Sound(b) && state == CsAborted ==> b.numCommands == 0
    {
    }
  }

  const MAX_PAIRS := 1024

  datatype Pair = Pair(batch: Batch, connection: Connection)

  /** The number of POLLIN and POLLOUT bits that are armed. */
  function ArmedSum(fs: seq<PollFd>): nat {
    if fs == [] then 0 else ArmedSum(fs[..|fs| - 1]) + Armed(fs[|fs| - 1])
  }

  lemma {:induction false} ArmedSumUpdate(fs: seq<PollFd>, gs: seq<PollFd>, i: nat)
    requires i < |fs| == |gs| && fs[..i] == gs[..i] && fs[i + 1..] == gs[i + 1..]
    ensures ArmedSum(gs) - ArmedSum(fs) == Armed(gs[i]) - Armed(fs[i])
    decreases |fs|
  {
    var n := |fs| - 1;
    if i < n {
      assert fs[n] == fs[i + 1..][n - i - 1] == gs[i + 1..][n - i - 1] == gs[n];
      assert fs[..n][..i] == gs[..n][..i];
      assert fs[..n][i + 1..] == fs[i + 1..][..n - i - 1];
      assert gs[..n][i + 1..] == gs[i + 1..][..n - i - 1];
      ArmedSumUpdate(fs[..n], gs[..n], i);
    }
  }

  lemma ArmedSumSlot(fs: seq<PollFd>, gs: seq<PollFd>, n: nat, i: nat)
    requires i < n <= |fs| == |gs| && fs[..i] == gs[..i] && fs[i + 1..] == gs[i + 1..]
    ensures ArmedSum(gs[..n]) - ArmedSum(fs[..n]) == Armed(gs[i]) - Armed(fs[i])
    ensures forall k | 0 <= k < |fs| && k != i :: fs[k] == gs[k]
  {
    forall k | 0 <= k < |fs| && k != i
      ensures fs[k] == gs[k]
    {
      if k < i {
        assert fs[k] == fs[..i][k] == gs[..i][k] == gs[k];
      } else {
        assert fs[k] == fs[i + 1..][k - i - 1] == gs[i + 1..][k - i - 1] == gs[k];
      }
    }
    assert fs[..n][..i] == gs[..n][..i] && fs[..n][i + 1..] == gs[..n][i + 1..];
    ArmedSumUpdate(fs[..n], gs[..n], i);
  }

  lemma {:induction false} ArmedSumSame(fs: seq<PollFd>, gs: seq<PollFd>)
    requires |fs| == |gs| && forall i | 0 <= i < |fs| :: Armed(fs[i]) == Armed(gs[i])
    ensures ArmedSum(fs) == ArmedSum(gs)
  {
    if fs != [] {
      ArmedSumSame(fs[..|fs| - 1], gs[..|gs| - 1]);
    }
  }

  lemma {:induction false} ArmedSumZero(fs: seq<PollFd>, i: nat)
    requires i < |fs| && ArmedSum(fs) == 0
    ensures Armed(fs[i]) == 0
  {
    var n := |fs| - 1;
    if i < n {
      ArmedSumZero(fs[..n], i);
    }
  }

  class Executor {
    var pairs: seq<Pair>
    var numevents: int
    const fds: array<PollFd>

    /** Executor_new */
    constructor ()
      ensures pairs == [] && numevents == 0 && fresh(fds) && fds.Length == MAX_PAIRS
    {
      pairs, numevents := [], 0;
      fds := new PollFd[MAX_PAIRS];
    }

    /** Executor_add */
    method Add(connection: Connection, batch: Batch) returns (r: int)
      requires fds.Length == MAX_PAIRS && |pairs| <= MAX_PAIRS
      modifies this`pairs, fds
      ensures |pairs| <= MAX_PAIRS
      ensures if |old(pairs)| == MAX_PAIRS then r == -1 && pairs == old(pairs) && fds[..] == old(fds[..])
              else r == 0 && pairs == old(pairs) + [Pair(batch, connection)]
                   && fds[..] == old(fds[..])[|old(pairs)| := PollFd(0, false, false, false, false)]
    {
      if |pairs| >= MAX_PAIRS {
        return -1;
      }
      fds[|pairs|] := PollFd(0, false, false, false, false);
      pairs := pairs + [Pair(batch, connection)];
      return 0;
    }

    /** Executor_notify_event */
    method NotifyEvent(connection: Connection, read: bool, write: bool, ordinal: nat)
      requires ordinal < fds.Length
      requires connection.sockfd != 0 && connection.state != CsAborted
      modifies this`numevents, fds
      ensures fds[..] == old(fds[..])[ordinal := old(fds[ordinal]).(fd := connection.sockfd,
                           wantIn := old(fds[ordinal]).wantIn || read, wantOut := old(fds[ordinal]).wantOut || write)]
      ensures numevents == old(numevents) + (if read then 1 else 0) + (if write then 1 else 0)
      ensures !(read && old(fds[ordinal].wantIn)) && !(write && old(fds[ordinal].wantOut)) ==> OnlySlot(ordinal)
    {
      fds[ordinal] := fds[ordinal].(fd := connection.sockfd);
      if read {
        fds[ordinal] := fds[ordinal].(wantIn := true);
        numevents := numevents + 1;
      }
      if write {
        fds[ordinal] := fds[ordinal].(wantOut := true);
        numevents := numevents + 1;
      }
    }

    /** Only one pollfd changed, and numevents changed with the bits armed in it. */
    twostate predicate OnlySlot(ordinal: nat)
      requires ordinal < fds.Length
      reads this, fds
    {
      && fds[..ordinal] == old(fds[..ordinal]) && fds[ordinal + 1..] == old(fds[ordinal + 1..])
      && numevents - Armed(fds[ordinal]) == old(numevents - Armed(fds[ordinal]))
      && fds[ordinal].gotIn == old(fds[ordinal].gotIn) && fds[ordinal].gotOut == old(fds[ordinal].gotOut)
    }

    /** The state of pair i at the head of the poll loop; foot is what the pair is made of. */
    ghost predicate SlotOk(c: Connection, b: Batch, f: PollFd, foot: set<object>)
      reads c, c.peer, c.parser, c.parser.Repr, b, b.Repr, b.currentReply
    {
      && c.Ok(b) && foot == c.Foot(b) && this !in foot && fds !in foot
      && c.state != CsClosed
      && c.Polled(f) && c.Waiting(f, this, b) && c.Hopeless(f)
    }

    /** Nothing happens to a pair. */
    twostate predicate Still(c: Connection, b: Batch)
      reads c, c.peer, b
    {
      && c.SameRun() && c.state == old(c.state) && c.interrupted == old(c.interrupted)
      && c.peer.full == old(c.peer.full) && c.peer.dry == old(c.peer.dry)
      && b.numCommands == old(b.numCommands) && b.outLeft == old(b.outLeft)
    }

    /** What happens to other pairs does not matter to this one. */
    twostate lemma SlotKept(c: Connection, new b: Batch, new f: PollFd, new foot: set<object>)
      requires old(allocated(b) && allocated(foot))
      requires old(SlotOk(c, b, f, foot))
      requires forall o | o in foot :: unchanged(o)
      ensures SlotOk(c, b, f, foot) && Still(c, b)
    {
      hide Batch.Valid, Connection.Parsing, Connection.Logged, Connection.Untouched;
      assert c in foot && c.peer in foot && c.parser in foot && b in foot && b.currentReply in foot;
      assert old(c.Ok(b)) ==> c.Ok(b);
    }

    /** Nothing happens to a pair whose batch has no command left. */
    twostate predicate Rests(c: Connection, b: Batch)
      reads c, b
    {
      b.numCommands == 0 && c.state == old(c.state)
    }

    /** What poll() has reported for f has been dealt with until the socket could do no more. */
    twostate predicate Heeded(c: Connection, b: Batch, f: PollFd)
      reads c, c.peer, b
    {
      old(b.numCommands) > 0 && b.numCommands > 0 ==>
        && (f.gotOut ==> c.state == CsConnected && (b.outLeft != [] ==> c.peer.full > old(c.peer.full)))
        && (f.gotIn ==> c.peer.dry > old(c.peer.dry))
    }

    /** A pair has been handled in a pass of the loop, in which its pollfd f has become g. */
    twostate predicate Handled(c: Connection, b: Batch, f: PollFd, g: PollFd, pollResult: int)
      reads c, c.peer, b
    {
      && Unreported(g) && (pollResult == 0 && Unreported(f) ==> g == f)
      && c.SameRun()
      && (pollResult <= 0 ==> b.numCommands == 0)
      && (old(b.numCommands) == 0 ==> Rests(c, b))
      && (pollResult > 0 ==> c.interrupted == old(c.interrupted) && Heeded(c, b, f))
    }

    function Disarmed(f: PollFd): PollFd {
      f.(wantIn := f.wantIn && !f.gotIn, wantOut := f.wantOut && !f.gotOut, gotIn := false, gotOut := false)
    }

    /** An event of an unfinished batch can be handled once its bits are disarmed. */
    lemma Due(c: Connection, b: Batch, f: PollFd, foot: set<object>, event: Event)
      requires SlotOk(c, b, f, foot) && b.numCommands > 0 && Contained(f)
      requires event.Io? ==> event == Io(f.gotIn, f.gotOut) && !Unreported(f)
      ensures c.Ok(b) && c.currentBatch == b && c.currentExecutor == this && foot == c.Foot(b) && this !in foot
      ensures (c.state == CsConnecting || c.state == CsConnected) && c.Attended(b)
      ensures c.Handles(event, Disarmed(f), b) && c.Polled(Disarmed(f))
      ensures !c.peer.script.Refusing? || c.Current().continued
    {
      hide Connection.Ok, Decode, Leftover;
    }

    /** Nothing is done for a pair that is finished, or for which nothing is reported. */
    lemma NotDue(c: Connection, b: Batch, f: PollFd, foot: set<object>)
      requires SlotOk(c, b, f, foot) && (b.numCommands == 0 || Unreported(f))
      ensures SlotOk(c, b, Disarmed(f), foot) && foot == c.Foot(b)
    {
      hide Connection.Ok, Decode, Leftover;
    }

    lemma SlotAgain(c: Connection, b: Batch, f: PollFd)
      requires c.Ok(b) && this !in c.Foot(b) && fds !in c.Foot(b) && c.state != CsClosed
      requires c.Polled(f) && c.Waiting(f, this, b) && (!c.peer.script.Refusing? || c.Current().continued)
      ensures SlotOk(c, b, f, c.Foot(b)) && (c.state == CsAborted ==> b.numCommands == 0)
    {
      hide Decode, Leftover, Connection.Waiting;
    }

    /** Reported bits are disarmed and counted down. */
    method Disarm(i: nat) returns (read: bool, write: bool)
      requires i < fds.Length && Contained(fds[i])
      modifies this`numevents, fds
      ensures fds[..i] == old(fds[..i]) && fds[i + 1..] == old(fds[i + 1..])
      ensures numevents - Armed(fds[i]) == old(numevents - Armed(fds[i]))
      ensures read == old(fds[i].gotIn) && write == old(fds[i].gotOut)
      ensures fds[i] == Disarmed(old(fds[i]))
    {
      read, write := false, false;
      if fds[i].gotIn {
        read := true;
        fds[i] := fds[i].(wantIn := false, gotIn := false);
        numevents := numevents - 1;
      }
      if fds[i].gotOut {
        write := true;
        fds[i] := fds[i].(wantOut := false, gotOut := false);
        numevents := numevents - 1;
      }
    }

    /** The body of the poll loop for pair i. */
    method HandleSlot(i: nat, pollResult: int, ghost foot: set<object>)
      requires i < |pairs| <= fds.Length
      requires SlotOk(pairs[i].connection, pairs[i].batch, fds[i], foot) && Contained(fds[i])
      modifies this`numevents, fds, foot
      ensures pairs == old(pairs)
      ensures fds[..i] == old(fds[..i]) && fds[i + 1..] == old(fds[i + 1..])
      ensures numevents - Armed(fds[i]) == old(numevents - Armed(fds[i]))
      ensures fresh(pairs[i].connection.Foot(pairs[i].batch) - foot)
      ensures SlotOk(pairs[i].connection, pairs[i].batch, fds[i], pairs[i].connection.Foot(pairs[i].batch))
      ensures old(pairs[i].batch.numCommands) == 0 && Unreported(old(fds[i])) ==> fds[i] == old(fds[i])
      ensures Handled(pairs[i].connection, pairs[i].batch, old(fds[i]), fds[i], pollResult)
    {
      hide Batch.Valid, ReplyParser.Valid, Connection.Ok, Connection.Sound, Decode, Leftover;
      hide SlotOk, Connection.Waiting, Connection.Attended, Connection.Handles, Connection.Polled;
      var connection, batch := pairs[i].connection, pairs[i].batch;
      SlotFacts(connection, batch, fds[i], foot);
      ghost var f := fds[i];
      var read, write := Disarm(i);
      SlotKept(connection, batch, f, foot);
      var event := if pollResult == 0 then Timeout else if pollResult < 0 then Failure else Io(read, write);
      if event != Io(false, false) && batch.HasCommand() {
        Due(connection, batch, f, foot, event);
        connection.HandleEvent(event, i, this, batch);
        SlotAgain(connection, batch, fds[i]);
      } else {
        NotDue(connection, batch, f, foot);
      }
    }

    lemma SlotFacts(c: Connection, b: Batch, f: PollFd, foot: set<object>)
      requires SlotOk(c, b, f, foot)
      ensures foot == c.Foot(b) && c.Separate(b) && this !in foot && fds !in foot
    {
      hide Decode, Leftover, Connection.Waiting;
    }

    /** Pair i is handled; the others do not notice. */
    method HandleOne(i: nat, pollResult: int, ghost feet: seq<set<object>>) returns (ghost now: seq<set<object>>)
      requires i < |pairs| == |feet| <= fds.Length && Disjoint(feet)
      requires forall k | 0 <= k < |pairs| ::
        SlotOk(pairs[k].connection, pairs[k].batch, fds[k], feet[k]) && this !in feet[k] && fds !in feet[k]
      requires Contained(fds[i]) && numevents == ArmedSum(fds[..|pairs|])
      modifies this`numevents, fds, feet[i]
      ensures pairs == old(pairs) && |now| == |pairs| && now == feet[i := now[i]] && fresh(now[i] - feet[i])
      ensures Disjoint(now) && this !in now[i] && fds !in now[i]
      ensures forall k | 0 <= k < |pairs| :: SlotOk(pairs[k].connection, pairs[k].batch, fds[k], now[k])
      ensures forall k | 0 <= k < |pairs| && k != i ::
        fds[k] == old(fds[k]) && Still(pairs[k].connection, pairs[k].batch)
      ensures Handled(pairs[i].connection, pairs[i].batch, old(fds[i]), fds[i], pollResult)
      ensures numevents == ArmedSum(fds[..|pairs|])
    {
      hide Contained, Connection.Current, SlotOk, ArmedSum, Armed, Unreported;
      ghost var before := fds[..];
      HandleSlot(i, pollResult, feet[i]);
      ArmedSumSlot(before, fds[..], |pairs|, i);
      forall k | 0 <= k < |pairs| && k != i
        ensures SlotOk(pairs[k].connection, pairs[k].batch, fds[k], feet[k])
        ensures fds[k] == old(fds[k]) && Still(pairs[k].connection, pairs[k].batch)
      {
        SlotKept(pairs[k].connection, pairs[k].batch, fds[k], feet[k]);
      }
      now := feet[i := pairs[i].connection.Foot(pairs[i].batch)];
      DisjointGrown(feet, i, now);
    }

    /** One pass of the poll loop over all pairs. */
    method HandleAll(pollResult: int, ghost feet: seq<set<object>>) returns (ghost now: seq<set<object>>)
      requires |feet| == |pairs| <= fds.Length && Disjoint(feet)
      requires forall k | 0 <= k < |pairs| ::
        SlotOk(pairs[k].connection, pairs[k].batch, fds[k], feet[k]) && Contained(fds[k])
      requires numevents == ArmedSum(fds[..|pairs|])
      requires forall k | 0 <= k < |pairs| :: this !in feet[k] && fds !in feet[k]
      modifies this`numevents, fds, Union(feet)
      ensures pairs == old(pairs) && |now| == |pairs| && Disjoint(now)
      ensures forall k | 0 <= k < |pairs| :: fresh(now[k] - feet[k])
      ensures forall k | 0 <= k < |pairs| ::
        SlotOk(pairs[k].connection, pairs[k].batch, fds[k], now[k]) && Unreported(fds[k])
        && Handled(old(pairs[k]).connection, old(pairs[k]).batch, old(fds[k]), fds[k], pollResult)
      ensures pollResult == 0 && (forall k | 0 <= k < |pairs| :: Unreported(old(fds[k]))) ==>
        fds[..|pairs|] == old(fds[..|pairs|])
      ensures numevents == ArmedSum(fds[..|pairs|])
    {
      hide Contained, Connection.Current, Connection.Foot, SlotOk, ArmedSum, Armed, Unreported, Disjoint, Union;
      now := feet;
      var i := 0;
      while i < |pairs|
        invariant pairs == old(pairs) && 0 <= i <= |pairs| && |now| == |pairs| && Disjoint(now)
        invariant forall k | 0 <= k < |pairs| :: fresh(now[k] - feet[k]) && this !in now[k] && fds !in now[k]
        invariant forall k | 0 <= k < |pairs| :: SlotOk(pairs[k].connection, pairs[k].batch, fds[k], now[k])
        invariant forall k | 0 <= k < i ::
          Handled(pairs[k].connection, pairs[k].batch, old(fds[k]), fds[k], pollResult)
        invariant forall k | i <= k < |pairs| ::
          && Contained(fds[k]) && now[k] == feet[k] && fds[k] == old(fds[k])
          && Still(pairs[k].connection, pairs[k].batch)
        invariant numevents == ArmedSum(fds[..|pairs|])
      {
        InUnion(feet, i);
        now := HandleOne(i, pollResult, now);
        i := i + 1;
      }
    }

    /** Pair (c, b) may be executed: an idle connection, an unused batch, and a pollfd with nothing armed. */
    ghost predicate Startable(c: Connection, b: Batch, f: PollFd, foot: set<object>)
      reads c, c.peer, c.parser, b, b.Repr, b.currentReply
    {
      && c.Ready() && c.Fresh(b) && c.Separate(b)
      && foot == c.Foot(b) && this !in foot && fds !in foot
      && Armed(f) == 0 && Unreported(f)
    }

    /** The execution of b on c that began in the old state. */
    twostate predicate Began(c: Connection, b: Batch)
      reads c
    {
      c.Current() == old(c.Upcoming(b))
    }

    twostate predicate NotBegun(c: Connection, b: Batch)
      reads c, b, c.peer
    {
      c.Upcoming(b) == old(c.Upcoming(b))
    }

    twostate lemma StartableKept(c: Connection, new b: Batch, new f: PollFd, new foot: set<object>)
      requires old(allocated(b) && allocated(foot))
      requires old(Startable(c, b, f, foot))
      requires forall o | o in foot :: unchanged(o)
      ensures Startable(c, b, f, foot) && NotBegun(c, b)
    {
      hide Batch.Valid;
      assert c in foot && c.peer in foot && c.parser in foot && b in foot && b.currentReply in foot;
    }

    /** Connection_execute_start for pair i. */
    method StartSlot(i: nat, ghost foot: set<object>)
      requires i < |pairs| <= fds.Length
      requires Startable(pairs[i].connection, pairs[i].batch, fds[i], foot)
      modifies this`numevents, fds, foot
      ensures pairs == old(pairs)
      ensures fds[..i] == old(fds[..i]) && fds[i + 1..] == old(fds[i + 1..])
      ensures numevents - Armed(fds[i]) == old(numevents)
      ensures fresh(pairs[i].connection.Foot(pairs[i].batch) - foot)
      ensures SlotOk(pairs[i].connection, pairs[i].batch, fds[i], pairs[i].connection.Foot(pairs[i].batch))
      ensures Unreported(fds[i]) && Began(pairs[i].connection, pairs[i].batch)
      ensures pairs[i].connection.Pends(fds[i]) && !pairs[i].connection.interrupted
    {
      hide Batch.Valid, ReplyParser.Valid, Connection.Parsing, Connection.Logged, Connection.Untouched;
      pairs[i].connection.ExecuteStart(this, pairs[i].batch, i);
    }

    /** Pair i is started; the others, started or not, do not notice. */
    method StartOne(i: nat, ghost feet: seq<set<object>>) returns (ghost now: seq<set<object>>)
      requires i < |pairs| == |feet| <= fds.Length && Disjoint(feet)
      requires forall k | 0 <= k < |pairs| :: this !in feet[k] && fds !in feet[k]
      requires forall k | 0 <= k < i ::
        SlotOk(pairs[k].connection, pairs[k].batch, fds[k], feet[k]) && Unreported(fds[k])
      requires forall k | i <= k < |pairs| :: Startable(pairs[k].connection, pairs[k].batch, fds[k], feet[k])
      requires numevents == ArmedSum(fds[..|pairs|])
      modifies this`numevents, fds, feet[i]
      ensures pairs == old(pairs) && |now| == |pairs| && now == feet[i := now[i]] && fresh(now[i] - feet[i])
      ensures Disjoint(now) && this !in now[i] && fds !in now[i]
      ensures forall k | 0 <= k <= i ::
        SlotOk(pairs[k].connection, pairs[k].batch, fds[k], now[k]) && Unreported(fds[k])
      ensures forall k | 0 <= k < i :: fds[k] == old(fds[k]) && Still(pairs[k].connection, pairs[k].batch)
      ensures Began(pairs[i].connection, pairs[i].batch) && pairs[i].connection.Pends(fds[i])
      ensures !pairs[i].connection.interrupted
      ensures forall k | i < k < |pairs| ::
        Startable(pairs[k].connection, pairs[k].batch, fds[k], now[k]) && NotBegun(pairs[k].connection, pairs[k].batch)
      ensures numevents == ArmedSum(fds[..|pairs|])
    {
      hide SlotOk, Startable, ArmedSum, Armed, Connection.Upcoming, Connection.Current;
      ghost var before := fds[..];
      NothingArmed(pairs[i].connection, pairs[i].batch, fds[i], feet[i]);
      StartSlot(i, feet[i]);
      ArmedSumSlot(before, fds[..], |pairs|, i);
      forall k | 0 <= k < |pairs| && k != i
        ensures fds[k] == old(fds[k])
        ensures k < i ==> SlotOk(pairs[k].connection, pairs[k].batch, fds[k], feet[k])
                          && Still(pairs[k].connection, pairs[k].batch)
        ensures k > i ==> Startable(pairs[k].connection, pairs[k].batch, fds[k], feet[k])
                          && NotBegun(pairs[k].connection, pairs[k].batch)
      {
        if k < i {
          SlotKept(pairs[k].connection, pairs[k].batch, fds[k], feet[k]);
        } else {
          StartableKept(pairs[k].connection, pairs[k].batch, fds[k], feet[k]);
        }
      }
      now := feet[i := pairs[i].connection.Foot(pairs[i].batch)];
      DisjointGrown(feet, i, now);
    }

    /** The start of Executor_execute. */
    method StartAll(ghost feet: seq<set<object>>) returns (ghost now: seq<set<object>>)
      requires |feet| == |pairs| <= fds.Length && Disjoint(feet)
      requires forall k | 0 <= k < |pairs| :: Startable(pairs[k].connection, pairs[k].batch, fds[k], feet[k])
      requires forall k | 0 <= k < |pairs| :: this !in feet[k] && fds !in feet[k]
      modifies this`numevents, fds, Union(feet)
      ensures pairs == old(pairs) && |now| == |pairs| && Disjoint(now)
      ensures forall k | 0 <= k < |pairs| :: fresh(now[k] - feet[k])
      ensures forall k | 0 <= k < |pairs| ::
        SlotOk(pairs[k].connection, pairs[k].batch, fds[k], now[k]) && Unreported(fds[k])
        && Began(pairs[k].connection, pairs[k].batch) && pairs[k].connection.Pends(fds[k])
        && !pairs[k].connection.interrupted
      ensures numevents == ArmedSum(fds[..|pairs|])
    {
      hide Unreported, Connection.Foot, SlotOk, Startable, ArmedSum, Armed, Connection.Upcoming, Connection.Current;
      hide Disjoint, Union;
      now := feet;
      numevents := 0;
      forall k | 0 <= k < |pairs|
        ensures Startable(pairs[k].connection, pairs[k].batch, fds[k], feet[k])
        ensures NotBegun(pairs[k].connection, pairs[k].batch) && Armed(fds[k]) == 0
      {
        StartableKept(pairs[k].connection, pairs[k].batch, fds[k], feet[k]);
        NothingArmed(pairs[k].connection, pairs[k].batch, fds[k], feet[k]);
      }
      NoArmedSum(fds[..|pairs|]);
      var i := 0;
      while i < |pairs|
        invariant pairs == old(pairs) && 0 <= i <= |pairs| && |now| == |pairs| && Disjoint(now)
        invariant forall k | 0 <= k < |pairs| :: fresh(now[k] - feet[k]) && this !in now[k] && fds !in now[k]
        invariant forall k | 0 <= k < i ::
          SlotOk(pairs[k].connection, pairs[k].batch, fds[k], now[k]) && Unreported(fds[k])
          && Began(pairs[k].connection, pairs[k].batch) && pairs[k].connection.Pends(fds[k])
          && !pairs[k].connection.interrupted
        invariant forall k | i <= k < |pairs| ::
          Startable(pairs[k].connection, pairs[k].batch, fds[k], now[k]) && now[k] == feet[k]
          && NotBegun(pairs[k].connection, pairs[k].batch)
        invariant numevents == ArmedSum(fds[..|pairs|])
      {
        InUnion(feet, i);
        now := StartOne(i, now);
        i := i + 1;
      }
    }

    lemma NothingArmed(c: Connection, b: Batch, f: PollFd, foot: set<object>)
      requires Startable(c, b, f, foot)
      ensures Armed(f) == 0
    {
    }

    /** Reported bits do not matter between two passes. */
    lemma SlotReported(c: Connection, b: Batch, f: PollFd, g: PollFd, foot: set<object>)
      requires SlotOk(c, b, f, foot)
      requires Quiet(f) == Quiet(g)
      ensures SlotOk(c, b, g, foot) && Armed(f) == Armed(g)
    {
    }

    /** The poll() of the loop, or the forced timeout when no time is left. */
    method Wait(clock: Clock, ghost feet: seq<set<object>>) returns (pollResult: int)
      requires |feet| == |pairs| <= fds.Length
      requires forall k | 0 <= k < |pairs| ::
        SlotOk(pairs[k].connection, pairs[k].batch, fds[k], feet[k]) && Unreported(fds[k])
      requires forall k | 0 <= k < |pairs| :: fds !in feet[k] && clock !in feet[k]
      requires numevents == ArmedSum(fds[..|pairs|])
      modifies fds, clock
      ensures forall k | 0 <= k < |pairs| ::
        SlotOk(pairs[k].connection, pairs[k].batch, fds[k], feet[k]) && Contained(fds[k])
        && Still(pairs[k].connection, pairs[k].batch)
      ensures numevents == ArmedSum(fds[..|pairs|])
      ensures clock.timeouts == old(clock.timeouts) + (if pollResult == 0 then 1 else 0)
      ensures clock.errors == old(clock.errors) + (if pollResult < 0 then 1 else 0)
      ensures clock.patience < old(clock.patience) || pollResult == 0
      ensures old(clock.patience) == 0 ==> clock.patience == 0 && pollResult == 0
      ensures pollResult == 0 ==> forall k | 0 <= k < |pairs| :: Unreported(fds[k])
      ensures forall k | 0 <= k < |pairs| :: Quiet(fds[k]) == Quiet(old(fds[k]))
    {
      hide SlotOk, ArmedSum;
      var more := clock.TimeLeft();
      if more {
        pollResult := Poll(fds, |pairs|, clock);
      } else {
        pollResult := 0;
      }
      forall k | 0 <= k < |pairs|
        ensures SlotOk(pairs[k].connection, pairs[k].batch, fds[k], feet[k])
        ensures Still(pairs[k].connection, pairs[k].batch)
        ensures Armed(old(fds[k])) == Armed(fds[k])
      {
        SlotKept(pairs[k].connection, pairs[k].batch, old(fds[k]), feet[k]);
        SlotReported(pairs[k].connection, pairs[k].batch, old(fds[k]), fds[k], feet[k]);
      }
      ArmedSumSame(old(fds[..|pairs|]), fds[..|pairs|]);
    }

    /** An executed batch: every command has its reply, and the connection can be used again. */
    ghost predicate Finished(c: Connection, b: Batch)
      reads c, c.peer, c.parser, c.parser.Repr, b, b.Repr, b.currentReply
    {
      && c.Ok(b) && b.numCommands == 0
      && c.state != CsClosed && (c.state == CsConnecting ==> c.total == 0)
    }

    /** With nothing armed, or with the batch done, there is nothing left to do for a pair. */
    lemma SlotFinished(c: Connection, b: Batch, f: PollFd, foot: set<object>)
      requires SlotOk(c, b, f, foot) && (Armed(f) == 0 || b.numCommands == 0)
      ensures Finished(c, b) && foot == c.Foot(b)
    {
    }

    /**
     What an executed batch holds: one reply for each command, first those at the front of what its socket
     delivered, in order, then errors. There are errors exactly if the connection was given up (or if there was
     no command). It was given up only after all the replies that its socket had delivered, and only if a call
     on the socket had failed or reported the end of the stream, or something that is no reply had come, or time
     was up (or poll() failed) while nothing could be done. All that counts as sent and received did cross its
     socket; without a socket that is nothing.
     */
    lemma FinishedReplies(c: Connection, b: Batch) returns (message: seq<Byte>)
      requires Finished(c, b)
      ensures |b.values| == c.total && c.words <= Decode(b.received) && |c.words| <= c.total
      ensures forall i | 0 <= i < |c.words| :: b.values[i] == Meaning(c.words[i])
      ensures forall i | |c.words| <= i < c.total :: b.values[i] == LineValue(ErrorLine, message)
      ensures c.total > 0 ==> (|c.words| < c.total <==> c.state == CsAborted)
      ensures if c.state == CsAborted
              then c.words == Decode(b.received)
                   && (c.peer.troubles > c.troublesBefore || Leftover(b.received).Error?
                       || (c.interrupted && (c.peer.pending || b.outDone == c.text || c.peer.full > c.fullBefore)))
              else c.peer.troubles == c.troublesBefore && !c.interrupted
      ensures b.outDone <= c.text
      ensures c.wire == 0 ==> c.state == CsAborted && b.outDone == [] && b.received == []
      ensures c.wire > 0 ==>
        && c.peer.sent == c.sentBefore + b.outDone && c.peer.received == c.receivedBefore + b.received
        && c.wire == c.peer.sockets && c.peer.Now() in c.peer.moments
    {
      hide Batch.Valid, ReplyParser.Valid, Decode, Leftover, Meaning;
      DecodeIsPrefix(c.words, b.received);
      message := b.message;
    }

    /** The poll loop: until nothing is armed, or there is a timeout or an error. */
    method PollLoop(clock: Clock, ghost feet: seq<set<object>>) returns (pollResult: int, ghost now: seq<set<object>>)
      requires |feet| == |pairs| <= fds.Length && Disjoint(feet)
      requires forall k | 0 <= k < |pairs| ::
        SlotOk(pairs[k].connection, pairs[k].batch, fds[k], feet[k]) && Unreported(fds[k])
      requires forall k | 0 <= k < |pairs| :: this !in feet[k] && fds !in feet[k] && clock !in feet[k]
      requires numevents == ArmedSum(fds[..|pairs|])
      modifies this`numevents, fds, clock, Union(feet)
      ensures pairs == old(pairs) && |now| == |pairs| && Disjoint(now)
      ensures forall k | 0 <= k < |pairs| :: fresh(now[k] - feet[k])
      ensures forall k | 0 <= k < |pairs| ::
        SlotOk(pairs[k].connection, pairs[k].batch, fds[k], now[k]) && pairs[k].connection.SameRun()
      ensures numevents == ArmedSum(fds[..|pairs|])
      ensures pollResult > 0 ==> numevents == 0
      ensures pollResult <= 0 ==> forall k | 0 <= k < |pairs| :: pairs[k].batch.numCommands == 0
      ensures pollResult == 0 ==> numevents > 0
      ensures clock.timeouts == old(clock.timeouts) + (if pollResult == 0 then 1 else 0)
      ensures clock.errors == old(clock.errors) + (if pollResult < 0 then 1 else 0)
      ensures pollResult > 0 ==>
        forall k | 0 <= k < |pairs| :: pairs[k].connection.interrupted == old(pairs[k].connection.interrupted)
      ensures old(numevents) == 0 ==> pollResult == 1
      ensures old(clock.patience) == 0 ==> 0 <= pollResult && fds[..|pairs|] == old(fds[..|pairs|])
      ensures forall k | 0 <= k < |pairs| ::
        old(pairs[k].batch.numCommands) == 0 ==> Rests(pairs[k].connection, pairs[k].batch)
    {
      hide SlotOk, ArmedSum, Connection.Current;
      now := feet;
      pollResult := 1;
      while numevents > 0 && pollResult > 0
        invariant pairs == old(pairs) && |now| == |pairs| && Disjoint(now)
        invariant forall k | 0 <= k < |pairs| ::
          fresh(now[k] - feet[k]) && this !in now[k] && fds !in now[k] && clock !in now[k]
        invariant forall k | 0 <= k < |pairs| ::
          SlotOk(pairs[k].connection, pairs[k].batch, fds[k], now[k]) && Unreported(fds[k])
          && pairs[k].connection.SameRun()
        invariant pollResult <= 0 ==> forall k | 0 <= k < |pairs| :: pairs[k].batch.numCommands == 0
        invariant numevents == ArmedSum(fds[..|pairs|]) && (pollResult == 0 ==> numevents > 0)
        invariant forall k | 0 <= k < |pairs| ::
          old(pairs[k].batch.numCommands) == 0 ==> Rests(pairs[k].connection, pairs[k].batch)
        invariant clock.timeouts == old(clock.timeouts) + (if pollResult == 0 then 1 else 0)
        invariant clock.errors == old(clock.errors) + (if pollResult < 0 then 1 else 0)
        invariant pollResult > 0 ==>
          forall k | 0 <= k < |pairs| :: pairs[k].connection.interrupted == old(pairs[k].connection.interrupted)
        invariant old(numevents) == 0 ==> numevents == 0 && pollResult == 1
        invariant old(clock.patience) == 0 ==>
          clock.patience == 0 && 0 <= pollResult && fds[..|pairs|] == old(fds[..|pairs|])
        decreases pollResult > 0, clock.patience
      {
        ghost var before := fds[..|pairs|];
        pollResult := Wait(clock, now);
        if pollResult == 0 {
          SameUnreported(before, fds[..|pairs|]);
        }
        now := HandleAll(pollResult, now);
      }
    }

    /** New connections to servers that refuse them leave nothing armed. */
    lemma NothingWaits(feet: seq<set<object>>)
      requires |feet| == |pairs| <= fds.Length
      requires forall k | 0 <= k < |pairs| ::
        SlotOk(pairs[k].connection, pairs[k].batch, fds[k], feet[k])
        && pairs[k].connection.peer.script.Refusing? && !pairs[k].connection.Current().continued
      ensures ArmedSum(fds[..|pairs|]) == 0
    {
      hide Connection.Ok, ArmedSum, Connection.Current, Connection.Polled, Connection.Waiting;
      NoArmedSum(fds[..|pairs|]);
    }

    twostate lemma ContinuedIf(c: Connection, new b: Batch)
      requires old(allocated(b)) && Began(c, b)
      ensures c.Current().continued == old(c.state == CsConnected)
    {
    }

    /** A batch without commands still has none while its connection is being made. */
    twostate lemma NothingYet(c: Connection, new b: Batch, new f: PollFd, new foot: set<object>)
      requires old(allocated(b)) && Began(c, b) && SlotOk(c, b, f, foot)
      ensures c.state == CsConnecting && old(b.numCommands) == 0 ==> b.numCommands == 0
    {
      hide Batch.Valid, Connection.OnWire, Connection.Numbered;
    }

    lemma RefusedAborts(c: Connection, b: Batch, f: PollFd, foot: set<object>)
      requires SlotOk(c, b, f, foot) && c.peer.script.Refusing? && !c.Current().continued
      ensures c.state == CsAborted
    {
      hide Connection.Ok, Connection.Current, Connection.Polled, Connection.Waiting;
    }

    /** All pairs are started; what this means for servers that refuse, or take their time. */
    method Launch(ghost feet: seq<set<object>>) returns (ghost now: seq<set<object>>)
      requires |feet| == |pairs| <= fds.Length && Disjoint(feet)
      requires forall k | 0 <= k < |pairs| :: Startable(pairs[k].connection, pairs[k].batch, fds[k], feet[k])
      requires forall k | 0 <= k < |pairs| :: this !in feet[k] && fds !in feet[k]
      modifies this`numevents, fds, Union(feet)
      ensures pairs == old(pairs) && |now| == |pairs| && Disjoint(now)
      ensures forall k | 0 <= k < |pairs| :: fresh(now[k] - feet[k])
      ensures forall k | 0 <= k < |pairs| ::
        SlotOk(pairs[k].connection, pairs[k].batch, fds[k], now[k]) && Unreported(fds[k])
        && Began(pairs[k].connection, pairs[k].batch)
        && pairs[k].connection.Current().continued == old(pairs[k].connection.state == CsConnected)
        && !pairs[k].connection.interrupted
      ensures forall k | 0 <= k < |pairs| ::
        pairs[k].connection.peer.script.Slow? && old(pairs[k].connection.state) != CsConnected ==>
          && fds[k].wantOut && pairs[k].connection.state == CsConnecting
          && (old(pairs[k].batch.numCommands) == 0 ==> pairs[k].batch.numCommands == 0)
      ensures (forall k | 0 <= k < |pairs| ::
                 pairs[k].connection.peer.script.Refusing? && old(pairs[k].connection.state) != CsConnected) ==>
              numevents == 0
      ensures numevents == ArmedSum(fds[..|pairs|])
    {
      hide SlotOk, Startable, ArmedSum;
      hide Connection.Current, Connection.Upcoming, Disjoint, Unreported, Connection.Foot;
      now := StartAll(feet);
      forall k | 0 <= k < |pairs|
        ensures pairs[k].connection.Current().continued == old(pairs[k].connection.state == CsConnected)
        ensures pairs[k].connection.peer.script.Slow? && old(pairs[k].connection.state) != CsConnected ==>
                  fds[k].wantOut && pairs[k].connection.state == CsConnecting
                  && (old(pairs[k].batch.numCommands) == 0 ==> pairs[k].batch.numCommands == 0)
      {
        ContinuedIf(pairs[k].connection, pairs[k].batch);
        NothingYet(pairs[k].connection, pairs[k].batch, fds[k], now[k]);
      }
      if forall k | 0 <= k < |pairs| ::
           pairs[k].connection.peer.script.Refusing? && !pairs[k].connection.Current().continued {
        NothingWaits(now);
      }
    }

    /** When the poll loop has ended, all batches are finished. */
    lemma Ended(pollResult: int, now: seq<set<object>>)
      requires |now| == |pairs| <= fds.Length && numevents == ArmedSum(fds[..|pairs|])
      requires forall k | 0 <= k < |pairs| :: SlotOk(pairs[k].connection, pairs[k].batch, fds[k], now[k])
      requires pollResult > 0 ==> numevents == 0
      requires pollResult <= 0 ==> forall k | 0 <= k < |pairs| :: pairs[k].batch.numCommands == 0
      ensures forall k | 0 <= k < |pairs| ::
        && Finished(pairs[k].connection, pairs[k].batch)
        && now[k] == pairs[k].connection.Foot(pairs[k].batch)
        && (pairs[k].connection.peer.script.Refusing? && !pairs[k].connection.Current().continued ==>
              pairs[k].connection.state == CsAborted)
    {
      hide SlotOk, ArmedSum, Finished, Connection.Current, Connection.Foot;
      forall k | 0 <= k < |pairs|
        ensures Finished(pairs[k].connection, pairs[k].batch)
        ensures now[k] == pairs[k].connection.Foot(pairs[k].batch)
        ensures pairs[k].connection.peer.script.Refusing? && !pairs[k].connection.Current().continued ==>
                  pairs[k].connection.state == CsAborted
      {
        if pollResult > 0 {
          ArmedSumZero(fds[..|pairs|], k);
        }
        SlotFinished(pairs[k].connection, pairs[k].batch, fds[k], now[k]);
        if pairs[k].connection.peer.script.Refusing? && !pairs[k].connection.Current().continued {
          RefusedAborts(pairs[k].connection, pairs[k].batch, fds[k], now[k]);
        }
      }
    }

    /** Executor_execute */
    method Execute(clock: Clock, ghost feet: seq<set<object>>) returns (pollResult: int, ghost now: seq<set<object>>)
      requires |feet| == |pairs| <= fds.Length && Disjoint(feet)
      requires forall k | 0 <= k < |pairs| :: Startable(pairs[k].connection, pairs[k].batch, fds[k], feet[k])
      requires forall k | 0 <= k < |pairs| :: this !in feet[k] && fds !in feet[k] && clock !in feet[k]
      modifies this`numevents, fds, clock, Union(feet)
      ensures pairs == old(pairs)
      ensures forall k | 0 <= k < |pairs| ::
        Finished(pairs[k].connection, pairs[k].batch) && Began(pairs[k].connection, pairs[k].batch)
      ensures numevents == ArmedSum(fds[..|pairs|])
      ensures pollResult <= 1 && (pollResult == 1 ==> numevents == 0) && (pollResult == 0 ==> numevents > 0)
      // The result is 0 only when time is up, and negative only when poll() has failed; otherwise no execution
      // has been interrupted.
      ensures clock.timeouts == old(clock.timeouts) + (if pollResult == 0 then 1 else 0)
      ensures clock.errors == old(clock.errors) + (if pollResult < 0 then 1 else 0)
      ensures pollResult > 0 ==> forall k | 0 <= k < |pairs| :: !pairs[k].connection.interrupted
      // Servers that refuse every connection: the result is 1, and every batch is aborted.
      ensures (forall k | 0 <= k < |pairs| ::
                 pairs[k].connection.peer.script.Refusing? && old(pairs[k].connection.state) != CsConnected) ==>
              pollResult == 1 && forall k | 0 <= k < |pairs| :: pairs[k].connection.state == CsAborted
      // No time at all: what a new connection to a slow server waits for stays armed, even for an empty batch.
      ensures old(clock.patience) == 0 ==>
        && 0 <= pollResult
        && forall k | 0 <= k < |pairs| ::
             pairs[k].connection.peer.script.Slow? && old(pairs[k].connection.state) != CsConnected ==>
               fds[k].wantOut && (old(pairs[k].batch.numCommands) == 0 ==> pairs[k].connection.state == CsConnecting)
      ensures |now| == |pairs| && Disjoint(now)
      ensures forall k | 0 <= k < |pairs| ::
        fresh(now[k] - feet[k]) && now[k] == pairs[k].connection.Foot(pairs[k].batch)
    {
      hide SlotOk, Startable, ArmedSum, Finished;
      hide Connection.Current, Connection.Upcoming, Disjoint, Unreported, Connection.Foot;
      now := Launch(feet);
      ghost var armed := fds[..|pairs|];
      pollResult, now := PollLoop(clock, now);
      Ended(pollResult, now);
      assert old(clock.patience) == 0 ==> forall k | 0 <= k < |pairs| :: fds[k] == fds[..|pairs|][k] == armed[k];
      if pollResult > 1 {
        pollResult := 1;
      }
    }
  }

  /** With nothing reported before or after, only what was asked for counts. */
  lemma SameUnreported(fs: seq<PollFd>, gs: seq<PollFd>)
    requires |fs| == |gs| && forall k | 0 <= k < |fs| :: Quiet(fs[k]) == Quiet(gs[k])
    requires forall k | 0 <= k < |fs| :: Unreported(fs[k]) && Unreported(gs[k])
    ensures fs == gs
  {
  }

  lemma {:induction false} NoArmedSum(fs: seq<PollFd>)
    requires forall i | 0 <= i < |fs| :: Armed(fs[i]) == 0
    ensures ArmedSum(fs) == 0
  {
    if fs != [] {
      NoArmedSum(fs[..|fs| - 1]);
    }
  }

  /** The pairs share nothing. */
  ghost predicate Disjoint(feet: seq<set<object>>) {
    forall j, k :: 0 <= j < k < |feet| ==> feet[j] !! feet[k]
  }

  /** One of the sets has grown by new objects. */
  twostate lemma DisjointGrown(feet: seq<set<object>>, new i: nat, new now: seq<set<object>>)
    requires Disjoint(feet) && i < |feet| == |now| && now == feet[i := now[i]] && fresh(now[i] - feet[i])
    ensures Disjoint(now)
  {
  }

  lemma InUnion(feet: seq<set<object>>, i: nat)
    requires i < |feet|
    ensures feet[i] <= Union(feet)
  {
  }

  ghost function Union(feet: seq<set<object>>): set<object> {
    set k, o | 0 <= k < |feet| && o in feet[k] :: o
  }
}
