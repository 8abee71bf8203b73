/** redis.py: connections, the connection manager and replies, as Python sees them. */
module Clients {
  import opened Bytes
  import opened Grammar
  import opened Lists
  import opened Environment
  import opened Batches
  import opened Connections
  import opened Sessions

  type Key = seq<Byte>
  type Addr = seq<Byte>

  const SPACE: Byte := 32
  const GET: seq<Byte> := [71, 69, 84]

  // ----- Lines of text, and how a server reads them -----

  predicate EndsLine(c: Byte) {
    c == 13 || c == 10
  }

  /** The words of a line, however many spaces are between them; token is what has been read of the current one. */
  function Tokens(line: seq<Byte>, token: seq<Byte>): seq<seq<Byte>> {
    var read := if token == [] then [] else [token];
    if line == [] || EndsLine(line[0]) then read
    else if line[0] == 32 then read + Tokens(line[1..], [])
    else Tokens(line[1..], token + [line[0]])
  }

  /** A text without spaces and line ends. */
  predicate Unbroken(k: seq<Byte>) {
    13 !in k && 10 !in k && 32 !in k
  }

  /** A key that can be sent in a line of text. */
  predicate Plain(k: Key) {
    k != [] && Unbroken(k)
  }

  lemma {:induction false} TokensArePlain(line: seq<Byte>, token: seq<Byte>)
    requires Unbroken(token)
    ensures forall t | t in Tokens(line, token) :: Plain(t)
    decreases |line|
  {
    if line != [] && !EndsLine(line[0]) {
      TokensArePlain(line[1..], if line[0] == 32 then [] else token + [line[0]]);
    }
  }

  lemma {:induction false} TokenRead(k: Key, rest: seq<Byte>, token: seq<Byte>)
    requires Unbroken(k)
    ensures Tokens(k + rest, token) == Tokens(rest, token + k)
    decreases |k|
  {
    if k == [] {
      assert k + rest == rest && token + k == token;
    } else {
      assert (k + rest)[1..] == k[1..] + rest;
      TokenRead(k[1..], rest, token + [k[0]]);
      assert token + [k[0]] + k[1..] == token + k;
    }
  }

  /** A server reads exactly the key that was written, if and only if it is plain. */
  lemma {:induction false} GetRead(key: Key)
    ensures GetCommand(key) == [71, 69, 84, 32] + key + [13, 10]
    ensures Tokens(GetCommand(key), []) == [[71, 69, 84], key] <==> Plain(key)
  {
    hide Tokens;
    if Plain(key) {
      var rest := [SPACE] + (key + [CR, LF]);
      assert GetCommand(key) == GET + rest && [] + GET == GET;
      TokenRead(GET, rest, []);
      AfterSpace(GET, key + [CR, LF]);
      assert [] + key == key;
      TokenRead(key, [CR, LF], []);
      AtLineEnd(key, [CR, LF]);
    } else {
      TokensArePlain(GetCommand(key), []);
      assert key in [[71, 69, 84], key];
    }
  }

  lemma AfterSpace(token: seq<Byte>, rest: seq<Byte>)
    requires token != []
    ensures Tokens([SPACE] + rest, token) == [token] + Tokens(rest, [])
  {
  }

  lemma AtLineEnd(token: seq<Byte>, line: seq<Byte>)
    requires token != [] && line != [] && EndsLine(line[0])
    ensures Tokens(line, token) == [token]
  {
  }

  /** What is held under a key. */
  datatype Stored = Missing | Holds(value: seq<Byte>)

  function Element(s: Stored): ItemValue {
    match s
    case Missing => NilValue
    case Holds(value) => BytesValue(value)
  }

  /** v is what a server that holds these texts replies to a line, if that is a GET command for one key. */
  predicate AnswersGet(held: Key -> Stored, line: seq<Byte>, v: Value) {
    var ts := Tokens(line, []);
    |ts| == 2 && ts[0] == [71, 69, 84] ==> v == ItemValue(Element(held(ts[1])))
  }

  // ----- Replies -----

  /** A Python value: a string, or the length of a multibulk reply. */
  datatype PyValue = Text(bytes: seq<Byte>) | Count(n: nat)

  predicate HasText(t: ReplyType) {
    t == RtOk || t == RtError || t == RtBulk || t == RtInteger
  }

  /** Replies that stand for a text come with that text. */
  lemma {:induction false} TextHasData(vs: seq<Value>, i: nat)
    requires i < |Flatten(vs)| && HasText(Flatten(vs)[i].rtype)
    ensures Flatten(vs)[i].data.Data?
  {
    var init := vs[..|vs| - 1];
    if i < |Flatten(init)| {
      TextHasData(init, i);
    }
  }

  /** What Reply.from_next makes of an entry: nothing if it raises an exception. */
  predicate Raises(e: Entry) {
    e.rtype != RtOk && e.rtype != RtBulk && e.rtype != RtMultiBulk
  }

  function ValueOf(e: Entry): PyValue {
    if e.rtype == RtMultiBulk then Count(e.len)
    else if e.data.Data? then Text(e.data.bytes)
    else Text([])
  }

  /** Reply.from_next: the next reply, unless it is an error or of a type it does not know. */
  method FromNext(batch: Batch) returns (raised: bool, rtype: ReplyType, value: PyValue)
    requires batch.Valid() && batch.IterValid()
    modifies batch`currentReplySp, batch`cursor, batch.currentReply
    ensures batch.Valid() && batch.IterValid()
    ensures var es, at := Flatten(batch.values), old(batch.Position());
            if at < |es|
            then raised == Raises(es[at]) && batch.Position() == at + 1
                 && (!raised ==> rtype == es[at].rtype && value == ValueOf(es[at]))
                 && (raised <==> es[at].rtype !in {RtOk, RtBulk, RtMultiBulk})
                 && (es[at].rtype == RtMultiBulk ==> value == Count(es[at].len))
                 && (es[at].rtype in {RtOk, RtBulk} ==> es[at].data.Data? && value == Text(es[at].data.bytes))
            else raised
  {
    hide Batch.Valid, Batch.IterValid, Flatten;
    ghost var at := batch.Position();
    var level, data, len;
    level, rtype, data, len := batch.NextReply();
    value := Count(len);
    if rtype == RtOk || rtype == RtBulk {
      TextHasData(batch.values, at);
      value := Text(data.bytes);
      raised := false;
    } else {
      raised := rtype != RtMultiBulk;
    }
  }

  lemma FlattenOne(v: Value)
    ensures Flatten([v]) == ValueEntries(v)
  {
    hide ValueEntries;
    assert [v][..0] == [] && Flatten([]) == [];
    assert Flatten([v]) == [] + ValueEntries(v);
  }

  // ----- Connections -----

  ghost function Own(c: Connection): set<object>
    reads c, c.parser
  {
    {c, c.peer} + c.parser.Repr
  }

  /** A connection that a batch can be given to; rs are the executions there have been on it. */
  ghost predicate Available(c: Connection, own: set<object>, rs: seq<Record>)
    reads c, c.peer, c.parser
  {
    && c.Ready() && c.parser in c.parser.Repr && {c, c.peer} !! c.parser.Repr && own == Own(c)
    && Continues(c, rs)
  }

  method NewConnection() returns (c: Connection)
    ensures Available(c, Own(c), []) && fresh(Own(c))
  {
    var script: Script, patience: nat := *, *;
    var peer := new Endpoint(script, patience);
    c := new Connection(peer);
  }

  /** The value, or the exception, for the first reply of a batch. */
  ghost predicate First(v: Value, raised: bool, value: PyValue) {
    raised == Raises(ValueEntries(v)[0]) && (!raised ==> value == ValueOf(ValueEntries(v)[0]))
  }

  /** _execute_simple: an executor for one batch, and its first reply. */
  method ExecuteSimple(c: Connection, b: Batch, ghost cmds: seq<seq<Byte>>, ghost own: set<object>,
                       ghost rs: seq<Record>)
    returns (raised: bool, value: PyValue, ghost r: Record)
    requires Available(c, own, rs) && c.Fresh(b) && c.Separate(b)
    requires |cmds| > 0 && b.numCommands == |cmds| && b.outDone == Joined(cmds)
    modifies own, b.Repr
    ensures Available(c, Own(c), rs + [r]) && fresh(Own(c) - own - old(b.Repr))
    ensures r.cmds == cmds && |r.values| == |cmds| && First(r.values[0], raised, value)
  {
    hide Batch.Valid, Batch.IterValid, Batch.Position, Flatten;
    hide ValueEntries, Continues, Connection.Fresh, Connection.Ready;
    r := ExecuteOne(c, b, cmds, rs);
    b.StartOfPass();
    LastRecord(c, rs, r);
    FirstEntry(b.values);
    var rtype;
    label Done:
    raised, rtype, value := FromNext(b);
    ContinuesKept@Done(c, rs + [r]);
  }

  lemma FirstEntry(vs: seq<Value>)
    requires vs != []
    ensures Flatten(vs) != [] && Flatten(vs)[0] == ValueEntries(vs[0])[0]
  {
    hide ValueEntries;
    FlattenAt(vs, 0, 0);
    assert vs[..0] == [] && Flatten([]) == [];
  }

  lemma LastRecord(c: Connection, rs: seq<Record>, r: Record)
    requires Continues(c, rs + [r])
    ensures |r.values| == |r.cmds|
  {
    var all := rs + [r];
    assert Executed(all[|rs|], c.peer.moments);
  }

  /** Reading replies does not disturb the connection. */
  twostate lemma ContinuesKept(c: Connection, new rs: seq<Record>)
    requires old(Continues(c, rs)) && unchanged(c) && unchanged(c.peer)
    ensures Continues(c, rs)
  {
  }

  function GetCommand(key: Key): seq<Byte> {
    GET + [SPACE] + key + [CR, LF]
  }

  /**
   get, on a connection with any history: if the server answers what it is sent, in order, then the result
   is the answer to this very command, unless the connection was given up; then there is an exception. If
   held is what the server holds, then a key that can be sent gives the text that is held under it, or an
   exception if there is none.
   */
  method Get(c: Connection, key: Key, ghost own: set<object>, ghost rs: seq<Record>, ghost answers: seq<seq<Word>>,
             ghost held: Key -> Stored)
    returns (raised: bool, value: PyValue, ghost r: Record)
    requires Available(c, own, rs)
    modifies own
    ensures Available(c, Own(c), rs + [r]) && fresh(Own(c) - own) && r.cmds == [GetCommand(key)]
    ensures r.aborted ==> raised
    ensures !r.aborted && AnswerEach(rs + [r], answers) && Served(rs + [r], answers, c.peer.moments) ==>
              First(Meaning(answers[|rs|][0]), raised, value)
    ensures AnswerEach(rs + [r], answers) && Served(rs + [r], answers, c.peer.moments)
            && AnswersGet(held, r.cmds[0], Meaning(answers[|rs|][0])) && Plain(key) && Undisturbed(r) ==>
              match held(key)
              case Missing => raised
              case Holds(text) => !raised && value == Text(text)
  {
    hide Batch.Valid, Continues, AnswerEach, Served, First, Meaning, Connection.Ready, Plain, Undisturbed, AnswersGet;
    var b := new Batch();
    b.Within();
    b.Write(GetCommand(key), 1);
    b.Within();
    OneCommand(GetCommand(key));
    raised, value, r := ExecuteSimple(c, b, [GetCommand(key)], own, rs);
    OwnReply(c, rs, r, answers, raised, value);
    HeldReply(c, rs, r, answers, held, key, raised, value);
  }

  /** What is made of the reply of a server that holds these texts. */
  lemma HeldReply(c: Connection, rs: seq<Record>, r: Record, answers: seq<seq<Word>>, held: Key -> Stored, key: Key,
                  raised: bool, value: PyValue)
    requires r.cmds == [GetCommand(key)]
    requires AnswerEach(rs + [r], answers) && Served(rs + [r], answers, c.peer.moments) && Undisturbed(r) ==>
               First(Meaning(answers[|rs|][0]), raised, value)
    ensures AnswerEach(rs + [r], answers) && Served(rs + [r], answers, c.peer.moments)
            && AnswersGet(held, r.cmds[0], Meaning(answers[|rs|][0])) && Plain(key) && Undisturbed(r) ==>
              match held(key)
              case Missing => raised
              case Holds(text) => !raised && value == Text(text)
  {
    hide Tokens, Plain, Served, Meaning;
    GetRead(key);
    assert AnswerEach(rs + [r], answers) ==> |answers[|rs|]| == |(rs + [r])[|rs|].cmds|;
  }

  lemma OneCommand(cmd: seq<Byte>)
    ensures Joined([cmd]) == cmd && [] + cmd == cmd
  {
    OneJoined(cmd);
  }

  lemma OwnReply(c: Connection, rs: seq<Record>, r: Record, answers: seq<seq<Word>>, raised: bool, value: PyValue)
    requires Continues(c, rs + [r]) && |r.cmds| == 1 == |r.values| && First(r.values[0], raised, value)
    ensures r.aborted ==> raised
    ensures AnswerEach(rs + [r], answers) && Served(rs + [r], answers, c.peer.moments) ==>
              (r.aborted <==> !Undisturbed(r)) && (!r.aborted ==> First(Meaning(answers[|rs|][0]), raised, value))
  {
    hide Served, Meaning;
    var all := rs + [r];
    assert Executed(all[|rs|], c.peer.moments);
    if AnswerEach(all, answers) && Served(all, answers, c.peer.moments) {
      var message := OwnAnswer(all, answers, c.peer.moments, |rs|);
    }
  }

  /** Footprints under different addresses have nothing in common. */
  ghost predicate Apart(feet: map<Addr, set<object>>) {
    forall a, b | a in feet && b in feet && a != b :: feet[a] !! feet[b]
  }

  ghost predicate GrownBy(own: map<Addr, set<object>>, own': map<Addr, set<object>>) {
    forall a | a in own :: a in own' && own'[a] == own[a]
  }

  /** What had been executed on the connection to addr; nothing if there was none. */
  function Prior(history: map<Addr, seq<Record>>, addr: Addr): seq<Record> {
    if addr in history then history[addr] else []
  }

  /** No connection has been replaced, and on none has anything been executed. */
  ghost predicate Kept(connections: map<Addr, Connection>, history: map<Addr, seq<Record>>,
                       connections': map<Addr, Connection>, history': map<Addr, seq<Record>>) {
    && connections.Keys == history.Keys && connections'.Keys == history'.Keys
    && (forall a | a in connections :: a in connections' && connections'[a] == connections[a])
    && forall a | a in connections' :: history'[a] == Prior(history, a)
  }

  lemma KeptWith(connections: map<Addr, Connection>, history: map<Addr, seq<Record>>, addr: Addr, c: Connection)
    requires connections.Keys == history.Keys && addr !in connections
    ensures Kept(connections, history, connections[addr := c], history[addr := []])
  {
  }

  lemma KeptSame(connections: map<Addr, Connection>, history: map<Addr, seq<Record>>)
    requires connections.Keys == history.Keys
    ensures Kept(connections, history, connections, history)
  {
  }

  class ConnectionManager {
    var connections: map<Addr, Connection>

    constructor ()
      ensures connections == map[] && Knows(map[], map[])
    {
      connections := map[];
    }

    /** own[a] is what the connection to a is made of, history[a] what has been executed on it. */
    ghost predicate Knows(own: map<Addr, set<object>>, history: map<Addr, seq<Record>>)
      reads this, connections.Values
      reads set c | c in connections.Values :: c.parser, set c | c in connections.Values :: c.peer
    {
      && own.Keys == connections.Keys == history.Keys && Apart(own)
      && forall a | a in connections :: Available(connections[a], own[a], history[a])
    }

    twostate lemma KnowsKept(new own: map<Addr, set<object>>, new history: map<Addr, seq<Record>>)
      requires old(allocated(own))
      requires old(Knows(own, history)) && unchanged(this)
      requires forall a, o | a in own && o in own[a] :: unchanged(o)
      ensures Knows(own, history)
    {
      hide Continues;
      forall a | a in connections
        ensures Available(connections[a], own[a], history[a])
      {
        var c := connections[a];
        assert old(Available(c, own[a], history[a])) && c in own[a] && c.parser in own[a] && c.peer in own[a];
        assert unchanged(c) && unchanged(c.parser) && unchanged(c.peer);
        ContinuesKept(c, history[a]);
      }
    }

    /** get_connection */
    method GetConnection(addr: Addr, ghost own: map<Addr, set<object>>, ghost history: map<Addr, seq<Record>>)
      returns (connection: Connection, ghost own': map<Addr, set<object>>, ghost history': map<Addr, seq<Record>>)
      requires Knows(own, history)
      modifies this
      ensures Knows(own', history') && addr in connections && connection == connections[addr]
      ensures Kept(old(connections), history, connections, history')
      ensures GrownBy(own, own') && own'.Keys == own.Keys + {addr} && (addr !in own ==> fresh(own'[addr]))
    {
      hide Connection.Ready, Continues, Available, Own, Kept;
      own', history' := own, history;
      KeptSame(connections, history);
      if addr !in connections {
        var c := NewConnection();
        KeptWith(connections, history, addr, c);
        connections := connections[addr := c];
        own', history' := own[addr := Own(c)], history[addr := []];
      }
      connection := connections[addr];
    }
  }
}
