/**
 What the result of Executor_execute says: whether an event is still outstanding (Executor.Execute). Whether a
 batch has been answered is another matter, which depends on whether its connection was given up
 (Executor.FinishedReplies). So a result of 1 may come with batches that hold only errors, and a result of 0
 with batches of which nothing is left to be answered; the latter is not what redis.h says.
 */
module Outcomes {
  import opened Bytes
  import opened Grammar
  import opened Environment
  import opened Batches
  import opened Connections

  /** A new connection to a server of the given kind, and a batch of the commands. */
  method NewPair(script: Script, commands: seq<seq<Byte>>) returns (c: Connection, b: Batch)
    ensures c.Ready() && c.Fresh(b) && c.Separate(b) && fresh(c.Foot(b))
    ensures c.state == CsClosed && c.peer.script == script && b.numCommands == |commands|
  {
    hide Batch.Valid;
    var patience: nat := *;
    var peer := new Endpoint(script, patience);
    c := new Connection(peer);
    b := new Batch();
    b.Within();
    b.Write(Joined(commands), |commands|);
    b.Within();
  }

  /** The pair alone in an executor. */
  method RunAlone(c: Connection, b: Batch, clock: Clock) returns (result: int, e: Executor)
    requires c.Ready() && c.Fresh(b) && c.Separate(b) && c.state == CsClosed && clock !in c.Foot(b)
    modifies clock, c.Foot(b)
    ensures e.Finished(c, b) && c.total == old(b.numCommands)
    ensures result <= 1
    ensures c.peer.script.Refusing? ==> result == 1 && c.state == CsAborted
    ensures c.peer.script.Slow? && old(clock.patience) == 0 ==>
      result == 0 && (old(b.numCommands) == 0 ==> c.state == CsConnecting)
  {
    hide Batch.Valid, Connection.Ok, Executor.Finished;
    e := new Executor();
    var added := e.Add(c, b);
    ghost var foot := c.Foot(b);
    assert e.Startable(c, b, e.fds[0], foot);
    label Added:
    ghost var now;
    result, now := e.Execute(clock, [foot]);
    assert e.Began@Added(c, b) && e.pairs[0] == Pair(b, c);
    if c.peer.script.Slow? && old(clock.patience) == 0 {
      assert e.fds[..1][0].wantOut;
    }
  }

  /** A server refuses the only connection: the result is 1, and the command has an error for a reply. */
  method RefusedRun(command: seq<Byte>) returns (result: int, ghost values: seq<Value>, ghost message: seq<Byte>)
    ensures result == 1 && values == [LineValue(ErrorLine, message)]
  {
    hide Batch.Valid, Connection.Ok, Executor.Finished;
    var time: nat := *;
    var clock := new Clock(time);
    var c, b := NewPair(Refusing, [command]);
    var e;
    result, e := RunAlone(c, b, clock);
    message := e.FinishedReplies(c, b);
    values := b.values;
  }

  /** No time, and a connection that is still being made: the result is 0, though no command is unanswered. */
  method EmptyRun() returns (result: int, left: int, aborted: bool)
    ensures result == 0 && left == 0 && !aborted
  {
    hide Batch.Valid, Connection.Ok;
    var clock := new Clock(0);
    var c, b := NewPair(Slow, []);
    var e;
    result, e := RunAlone(c, b, clock);
    left, aborted := b.numCommands, c.state == CsAborted;
  }
}
