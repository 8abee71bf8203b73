# libredis, modelled and verified

libredis is a pipelined Redis client in C: a poll-driven executor sends batches of commands over many
non-blocking connections at once, a resumable parser reads the replies, each batch keeps its replies in
intrusive lists, and a consistent-hash ring (over MD5) spreads keys over servers. This project models those
parts in the form the C code has (classes whose fields the methods update, heap nodes linked in rings, arrays,
loops) and proves what they are for.

| file | source | content |
|---|---|---|
| `Bytes.dfy` | | bytes, decimals, `atoi`, powers of two |
| `Grammar.dfy`, `Machine.dfy`, `Stream.dfy` | `libredis/parser.c` | the reply language as derivation trees; a byte automaton over partial derivations; streams of replies and chunks |
| `Parser.dfy`, `Feed.dfy` | `libredis/parser.c` | the parser object, refining the automaton; calling it again and again while its buffer fills up |
| `Buffer.dfy` | `libredis/buffer.c` | the growable buffer, refining an append-only byte sequence |
| `Lists.dfy`, `Batch.dfy` | `libredis/list.h`, `libredis/batch.c` | circular lists of heap nodes, replies, the reply queue, the iterator |
| `Environment.dfy` | | sockets, `poll()` and the clock as arbitrary oracles with ghost logs |
| `Connection.dfy` | `libredis/connection.c` | connections and the executor |
| `Outcome.dfy` | `libredis/connection.c` | two runs that show what the result of the executor does not say |
| `Session.dfy` | `libredis/connection.c`, `redis.py` | batches one after the other on one connection |
| `Client.dfy` | `redis.py` | replies as Python values, `get`, the connection manager |
| `Command.dfy` | `php/ext/libredis/libredis.c` | the multibulk command encoder |
| `Md5.dfy` | `libredis/md5.c` | streaming MD5 |
| `Float.dfy`, `Quota.dfy`, `Equal.dfy` | `libredis/ketama.c` | rounding to binary floating point; how many points a server gets in that arithmetic, and servers of equal weight |
| `Ketama.dfy`, `Moves.dfy`, `Drift.dfy` | `libredis/ketama.c` | the hash ring; exactly which keys move when a server is added; that some can move between old servers |
| `Mget.dfy` | `redis.py` | `mget`, from the ring through the executor to the resulting map |

How the pieces fit together:

* **Texts, byte by byte.** What the modules say through names (markers, line ends, digests, command lines) is also
  said once with the bytes themselves: `Replies.Written` and `Batches.ReadAsWritten` for replies,
  `Commands.CommandSpelled` and `Clients.GetRead` for commands, `Md5.Leaves` and `Md5.Writes` for digests,
  `Ketama.RingPointsIff` for points.
* **Grammar and automaton.** `Grammar` says which texts are replies without mentioning states. `Machine.Run`
  reads a text byte by byte. `ReplyIff`, `MoreIff` and `ErrorIff` say for every text which of the three verdicts
  it gets; `RunConcat` and `ChunkIndependence` say that cutting a stream anywhere changes nothing.
* **Parser.** Every method of `ReplyParser` is proved against `Machine.Next` or `Machine.Run`; `Valid` ties the
  C fields (`p`, `cs`, `bulk_count`, `multibulk_count`, `multibulk_reply`, `mark`) to the derivation in progress
  and to where its text begins. State 11 jumps over as much of a body as there is; `JumpIsRun` shows that this is
  the same as going byte by byte. `Feeding.FeedAll` calls `Execute` for any growing sequence of `len` values.
* **Connection and executor.** `Connection.Ok` says that the replies in the batch, the words parsed, the bytes
  received, the bytes sent and the ghost logs of the socket all agree. `Connection.Waiting` is the absence of a
  lost wake-up, `Executor.SlotOk` holds for every pair at every head of the poll loop, and
  `numevents == ArmedSum(...)` is event conservation. `Executor.Execute` puts them together for any number of
  pairs and any behaviour of connect, send, recv, poll and the clock.
* **Reasons for giving up.** An `Endpoint` and the `Clock` keep account of what was said to the code: calls that
  failed for good or met the end of the stream, EAGAIN from `write()` and from `read()`, a connect that is pending,
  time that was up, errors of `poll()`. `Connection.Excused` lists the only reasons for which a connection may be
  given up, `Connection.Delivered` says that every reply received in full is in the batch by then, and
  `Connection.Attended` that between two polls everything that the socket allowed has been done;
  `Executor.Heeded` is what a pass of the loop owes to a reported bit.
* **Sessions.** An `Endpoint` remembers every state of the wire there has been, on all its sockets. `Recorded` and
  `ExecuteInTurn` show that what is executed on a connection is `Chained`: every execution, also one that was
  aborted, counts as sent and received what did cross its socket, and follows the one before. `NoStaleReplies`
  concludes from that, and from one assumption about the server (`Served`: at every moment, on every socket, no
  more has come back than the answers to the commands sent in full, in order), that no batch sees a reply meant
  for another, and that every command gets its own answer unless a call on the socket failed or the clock or
  `poll()` interrupted the execution.
* **get and mget.** `Clients.Get` and `Sharding.Mget` are `get` and the whole of `Redis.mget` over the modelled ring,
  batches, connections and executor, for connections with any history; what they need of the servers is `Served`
  and that the last answer is what the server holds under the keys it reads from the line. `Mget` leaves the manager as it requires it, with the history
  that now includes this call, so that it can be called again.
* **Ring.** `Quotas` computes quotas as the C code does, with the roundings of `float` and `double`, next to the
  exact quotas that they stand for (`NearExact`).

Assumptions about the surroundings, all in `Environment.dfy`: `socket()` returns -1 or a positive descriptor (the
code itself treats 0 as "no socket"); `write()` takes between one byte and all of them, or fails; `read()` delivers
at most the room there is; `poll()` reports only bits that were asked for, and none if its result is 0. A failure
other than EAGAIN or EINPROGRESS, and a `read()` of nothing into a buffer with room, count as trouble. A server
can be fixed in advance as one that refuses, or whose connections take time; everything holds for servers of
which nothing is known.

Where the code and its documentation or its comments differ, the model follows the code:

* `libredis/redis.h:210` says that the result is 1 when all batches complete within the timeout, and
  `libredis/redis.h:211-212` that it is 0 after a timeout. In fact a result that is not negative is 1 exactly if no
  event is outstanding (`Executor.Execute`), and a bit that is armed for a batch that is finished stays armed until
  `poll()` reports it (`Executor.HandleSlot`). So the result can be 0 although every batch was finished before time
  ran out: `Outcomes.EmptyRun` is such a run, with a batch without commands on a connection that is still being made.
  It can happen with other batches too, since nothing disarms POLLOUT when the last reply arrives, or the other bit
  when a connection is aborted. A result of 1, on the other hand, does not say that batches were answered: whether
  one of at least one command was answered in full depends on whether its connection was given up, and exactly on
  that (`Executor.FinishedReplies`); in `Outcomes.RefusedRun` the result is 1 and the only reply is an error.
* `libredis/ketama.c:233` says that there are 160 points per server. The quotas are computed in `float`, and 61
  servers of the same weight get 156 points each (`EqualShares.SixtyOneServers`), because 61 times the `float`
  nearest to 1/61 is too far below 1. As long as the total weight is at most 2 to the 24, it is 160 or 156 according
  to the number of servers alone (`EqualShares.ShortIff`); up to 204 servers only 61 and 122 have 156
  (`EqualShares.EqualQuotaUpTo204`), and so have all their doubles (`EqualShares.ShortDouble`).
* What that means for consistent hashing holds for every compression function, and so for MD5. With equal weights
  a new server takes keys and moves none between the others if there are up to 60 servers in the end
  (`Moves.FewEqualServers`), or more generally if the numbers before and after are both such or both not
  (`Moves.EqualServers`). When a 61st server is added, the hashes at the last four points of every old server do
  move (`Moves.LastPointsMove`), and a key can move from one old server to another only if its point was among
  those (`Moves.MovesWhenQuotasFall`); `Moves.KeepsItsPointIff` is the exact condition for any weights. Which server
  such a key goes to depends on the points, so on MD5, and nothing is claimed about that; that it can be another old
  server is shown for a compression function made for the purpose (`Drift.KeysMoveBetweenOldServers`).
* The allocation of 160 points per server suffices for up to 104000 servers of any weights, and for up to 208000 if
  their total weight is at most 2 to the 24 (`Ketama.RingFits`). It does not for 212529 servers of which 4093 have
  weight 1 and the others 0 (`Ketama.RingMayNotFit`). Between these numbers nothing is known here.
* A batch with no commands leaves the poll loop at once, so that its connection can still be CONNECTING afterwards;
  `Executor.Finished` says that this is the only way.
* An error reply made by an abort has the terminating zero byte of its text included in its length
  (`libredis/batch.c:265-270`); the model keeps it.

## Model

| member | source | states |
|---|---|---|
| `Machine.ReplyIff` | libredis/parser.c:88-404 | A reply is reported for a text if and only if the text starts with a well-formed reply, and then it is that very reply, with everything after it left over |
| `Machine.MoreIff` | libredis/parser.c:400-403 | More is asked for if and only if the text is a proper prefix of some reply |
| `Machine.ErrorIff` | libredis/parser.c:399 | An error is reported at byte n if and only if the text before it can still become a reply and with it no longer can |
| `Machine.StartsWithWordIff` | libredis/parser.c:66-87 | Some reply is reported exactly for the texts that start with one |
| `Machine.Unambiguous` | libredis/parser.c:66-87 | No reply's text is a prefix of another reply's text |
| `Machine.NextSound` | libredis/parser.c:96-398 | One byte keeps the derivation well formed and accounts for exactly that byte |
| `Machine.RunDecodes` | libredis/parser.c:88-404 | What was consumed plus what is left is the text given: no byte is lost or used twice |
| `Machine.RunInverts` | libredis/parser.c:88-404 | Reading the text of any reply recovers its derivation tree, ends at its last byte |
| `Machine.Completable` | libredis/parser.c:66-87 | From every reachable state some continuation completes a reply |
| `Machine.RunConcat` | libredis/parser.c:92-95 | A text may be handed over in two parts, cut at any byte |
| `Streams.ChunkIndependence` | libredis/parser.c:92-95 | Every split of a stream into chunks gives all the same replies, the same final state and the same error position as the whole stream |
| `Streams.PipelinedRoundTrip` | libredis/parser.c:66-87 | The concatenated texts of any list of replies decode to that list, ending in the initial state with nothing left |
| `Streams.DecodePrefix` | libredis/parser.c:66-87 | Replies at the front of a stream are decoded as written whatever follows |
| `Streams.DecodeSound` | libredis/parser.c:88-404 | The decoded replies and the left-over text make up the whole stream |
| `Streams.DecodeIsPrefix` | libredis/parser.c:88-404 | Replies that make up the front of a stream are the first of its decoding |
| `Bytes.PrintIntRoundTrip` | libredis/batch.c:210-215 | Printing any number, negative ones included, and reading it back is the identity |
| `Bytes.AtoiReadsNumeral` | libredis/parser.c:245-245 | `atoi` at the mark reads exactly the digits before CR, whatever is behind them in the buffer |
| `Bytes.PlaceValue` | libredis/parser.c:245-245 | Digits are read place by place: what stands in front counts ten times as much for each digit behind it, and 48 is zero |
| `Parser.JumpIsRun` | libredis/parser.c:265-279 | Skipping n bytes of a body at once leaves the automaton where reading them one by one does |
| `Parser.ReplyParser.Execute` | libredis/parser.c:88-404 | From any reachable state the result, the reply, the new position and the new state are those of the automaton on the bytes up to len; the reply has its meaning in the buffer, and its offset and those of its children are where the word's text puts them. Byte by byte: the text from the start of the word to the new position begins with 43 exactly for an OK reply, 45 for an error, 58 for an integer, 36 for a bulk reply (nil if 45 follows) and 42 for a multibulk reply (likewise), it has the lengths in digits and the line ends where they belong, and the reply and its children hold the bytes between them |
| `Replies.Written` | libredis/parser.c:66-87 | A reply with the meaning of a word is what the bytes of the word say, for every type of reply; no name of the grammar is used in saying that |
| `Feeding.FeedAll` | libredis/parser.c:88-404 | For any growing sequence of len values, calling execute until it asks for more or fails at each of them delivers exactly the replies of the stream up to the last len, each at its own offsets, and leaves the parser with what follows them |
| `Feeding.FeedOnce` | libredis/parser.c:88-95 | One call keeps the account of all replies delivered so far, and what was delivered earlier is not touched |
| `Parser.ReplyParser.Reset` | libredis/parser.c:33-42 | Back to the initial state, with no multibulk reply pending |
| `Parser.ReplyParser.MultibulkAccounting` | libredis/parser.c:222-238 | In every reachable state the children of a pending multibulk reply plus multibulk_count make its declared length, children are bulk or nil, and in state 0 with count 0 none is pending |
| `Parser.ReplyParser.FinishChild` | libredis/parser.c:286-297 | A complete item becomes the next child; the multibulk reply is delivered exactly with the last one |
| `Parser.ReplyParser.SkipBody` | libredis/parser.c:273-277 | The jump in state 11 does not change what the rest of the input will give |
| `Parser.ReplyParser.MultiCount` | libredis/parser.c:347-360 | The declared number of children is the numeral read; the new reply has that length and no children |
| `Parser.ReplyParser.ValidMore` | libredis/parser.c:88-95 | Receiving more does not disturb a suspended parser |
| `Buffers.GrownIsLeast` | libredis/buffer.c:134-136 | The new limit is the least doubling of the old one that suffices |
| `Buffers.Buffer.EnsureRemaining` | libredis/buffer.c:130-151 | Growth keeps the contents and stops at that limit |
| `Buffers.Buffer.Write` | libredis/buffer.c:183-189 | Appends exactly the bytes given |
| `Buffers.Buffer.Recv` | libredis/buffer.c:164-174 | Appends exactly what the socket delivered; earlier bytes stay; a result of 0 is the end of the stream if the capacity is at least 8 |
| `Buffers.Buffer.Send` | libredis/buffer.c:153-162 | The bytes taken by the socket move from pending to done, none skipped or repeated |
| `Buffers.Buffer.Flip` | libredis/buffer.c:176-181 | Everything written becomes pending |
| `Buffers.Buffer.Clear` | libredis/buffer.c:54-66 | Back to the empty original array |
| `Lists.ListHead.Init` | libredis/list.h:29-31 | A head becomes an empty ring |
| `Lists.ListHead.IsEmpty` | libredis/list.h:154-157 | A list is empty if and only if its head points to itself |
| `Lists.ListHead.AddTail` | libredis/list.h:70-73 | The ring stays a ring and gets the new node as its last member |
| `Lists.ListHead.Pop` | libredis/batch.c:91-94 | The last member leaves the ring |
| `Replies.DenotesMore` | libredis/batch.c:101-105 | A reply stored as an offset keeps its meaning when its buffer receives more |
| `Replies.ReplyQueue.Add` | libredis/batch.c:243-249 | The queue means what it meant before, followed by the new reply; no other reply is touched |
| `Batches.Batch.Write` | libredis/batch.c:202-208 | The text is appended and the commands are counted |
| `Batches.Batch.WriteDecimal` | libredis/batch.c:210-215 | The decimal text of the number, with its sign, is appended |
| `Batches.Batch.AddReply` | libredis/batch.c:243-249 | One command fewer, one reply more, at the end; the iterator does not move |
| `Batches.Batch.Abort` | libredis/batch.c:261-272 | Every command without a reply gets the error as its reply, after the replies already there |
| `Batches.Batch.Recv` | libredis/connection.c:372-392 | Receiving into the read buffer leaves all replies as they were |
| `Batches.FlattenAt` | libredis/batch.c:275-348 | Where entry j of reply i is in the preorder |
| `Batches.PassStep` | libredis/batch.c:287-313 | Each move of the iterator is to the next entry of the preorder, and it ends at its end |
| `Batches.Batch.NextReply` | libredis/batch.c:275-348 | Delivers the next entry of the preorder of the replies, or 0 after the last, and is then at its start again; at the beginning of a reply that has been read from the wire, the type, the level, the bytes and the length are those that the text of the reply says, told by its first byte |
| `Batches.ReadAsWritten` | libredis/batch.c:275-348 | The entries for a reply are what its text says, byte by byte: itself at level 1 and its children, in order, at level 2 |
| `Batches.Batch.Descend` | libredis/batch.c:330-337 | The saved position is advanced before the children are entered, and the stack has at most two levels |
| `Batches.Batch.ReadAll` | libredis/batch.c:275-348 | A pass delivers exactly the preorder, and every later pass the same |
| `Connections.Connection.CreateSocket` | libredis/connection.c:177-213 | A new socket that nothing was sent or received on, or an abort, which only a step that failed can cause |
| `Connections.Connection.WriteData` | libredis/connection.c:271-347 | The connection moves on as far as the socket lets it; what is then still unsent has POLLOUT armed, and write() has said EAGAIN |
| `Connections.Connection.SendSome` | libredis/connection.c:331-344 | What is done plus what is left stays the text written into the batch, and the socket's log grows by what was taken |
| `Connections.Connection.FlushWrites` | libredis/connection.c:327-346 | Everything is sent, or write() has said EAGAIN and POLLOUT is armed, or write() has failed and the connection is aborted; no other pollfd changes |
| `Connections.Connection.ReadData` | libredis/connection.c:349-405 | Replies are added in the order received until the batch is done, or read() has said EAGAIN and POLLIN is armed and every reply received in full is there, or the connection is aborted |
| `Connections.Connection.ParseOne` | libredis/connection.c:364-366 | The reply delivered is the next word of the bytes received for this batch; when there is none, the words parsed are all that these bytes begin with, and what is left is unfinished or no reply |
| `Connections.Connection.Accept` | libredis/connection.c:395-399 | The words parsed and the replies in the batch stay in step |
| `Connections.Connection.Abort` | libredis/connection.c:215-241 | All missing replies become errors, the socket is given up, the state is ABORTED; a second abort does nothing. It needs a reason: a call on the socket that failed or met the end of the stream, something that is no reply, or a timeout or error while nothing more could be sent; and all replies received in full must have been passed on |
| `Connections.Connection.HandleEvent` | libredis/connection.c:407-439 | After an event an unfinished batch waits for exactly what it needs; a timeout or error aborts. A reported POLLOUT is used until all is sent or write() says EAGAIN, and a reported POLLIN until the batch is done or read() says EAGAIN; by itself it never ends the execution |
| `Connections.Connection.TakeBatch` | libredis/connection.c:247-255 | The parser is reset and the new batch has nothing sent, received or answered |
| `Connections.Connection.ExecuteStart` | libredis/connection.c:243-269 | The batch is in step with its connection, what can be sent is sent, and it waits for exactly what it needs |
| `Connections.ArmedSumUpdate` | libredis/connection.c:602-619 | Changing one pollfd changes the number of armed bits by the difference in that pollfd |
| `Connections.Executor.Add` | libredis/connection.c:482-501 | A pair with nothing armed is added, or -1 if there are 1024 already |
| `Connections.Executor.NotifyEvent` | libredis/connection.c:602-619 | The bits are armed for the connection's socket and counted; no other pollfd changes |
| `Connections.Executor.HandleSlot` | libredis/connection.c:554-586 | Reported bits are disarmed and counted down, the pair's invariant holds again, and a timeout or error finishes its batch; what was reported has been dealt with until the socket could do no more |
| `Connections.Executor.HandleAll` | libredis/connection.c:554-586 | The same for all pairs: none disturbs another, and numevents is again the number of armed bits |
| `Connections.Executor.StartAll` | libredis/connection.c:532-536 | All pairs are started with the invariant in place and numevents exact |
| `Connections.Executor.SlotFinished` | libredis/connection.c:540-540 | No lost wake-up: a pair with nothing armed has a finished batch |
| `Connections.Executor.FinishedReplies` | libredis/connection.c:521-600 | A finished batch has one reply for each command: first those at the front of what its socket delivered, in order, then errors; there are errors exactly if the connection was given up. Then all replies that came in full are there, and a call on the socket had failed or met the end of the stream, or something came that is no reply, or time was up (or poll() failed) while the connect was pending, or all was sent, or write() had said EAGAIN. If it was not given up, no call failed and nothing interrupted it. What counts as sent and received is what crossed the socket |
| `Connections.Executor.Execute` | libredis/connection.c:521-600 | For any number of pairs and any environment it terminates with every batch finished and numevents equal to the armed bits; a result that is not negative is 1 exactly if none is armed. It is 0 exactly if the clock or poll() said once that time is up, negative exactly if poll() failed, and if it is positive no execution was interrupted; if all servers refuse it is 1 with every batch aborted |
| `Outcomes.RefusedRun` | libredis/connection.c:540-600 | A run in which the result is 1 and the only reply is an error |
| `Outcomes.EmptyRun` | libredis/connection.c:540-600 | A run in which the result is 0, no command is unanswered and nothing was aborted |
| `Sessions.NoStaleReplies` | libredis/connection.c:243-269 | Over any sequence of batches on a connection, with a server that answers in order what reached it, reply i of batch k is the server's answer to command i of batch k or an abort's error. There are errors exactly if there was an abort, and that is exactly if a call on its socket failed or met the end of the stream, or the clock or poll() interrupted it; and then every answer that came in full is there |
| `Sessions.StaysInStep` | libredis/connection.c:215-241 | A finished batch has used up exactly what was sent and received; an aborted one makes the next start on a new socket |
| `Sessions.Recorded` | libredis/connection.c:243-269 | An execution extends the history of its connection by a record of what was sent, received and parsed, of the calls that failed and of interruption, aborted or not, that is true of the wire and follows the one before |
| `Sessions.ExecuteOne` | redis.py:51-54 | One batch on a connection with any history adds its record to that history |
| `Sessions.ExecuteInTurn` | redis.py:46-55 | Any number of batches in turn, on a connection with any history, extend it by their records |
| `Commands.CommandRoundTrip` | php/ext/libredis/libredis.c:392-402 | The text of a command parses to one multibulk reply with the arguments, byte for byte, in any pipeline |
| `Commands.CommandSpelled` | php/ext/libredis/libredis.c:392-402 | Byte by byte: 42, the number of arguments, and for each argument 36, its length and the argument, every part ended by 13 10 |
| `Commands.CommandInjective` | php/ext/libredis/libredis.c:392-402 | Different argument lists have different texts, none the beginning of another |
| `Commands.Cmd` | php/ext/libredis/libredis.c:383-403 | Appends exactly that text, which is also told byte by byte, and counts one command, or nothing at all if some argument is not a string |
| `Md5.CountAfter` | libredis/md5.c:333-337 | The two count words hold 8 times the length modulo 2^64 after any addition, carry included |
| `Md5.OffsetOfCount` | libredis/md5.c:327-327 | The low count word gives the number of buffered bytes |
| `Md5.State.Append` | libredis/md5.c:322-358 | The state accounts for the old message followed by the data |
| `Md5.State.Finish` | libredis/md5.c:360-381 | The digest is that of RFC 1321 sections 3.1 to 3.5 for the message, and no bytes are left over: there is a text that begins with the message, goes on with the byte 128 and zeros, ends with 8 times the length modulo 2^64 in eight bytes, low-order first, and is as short as whole blocks allow; compressed block by block from 67452301, efcdab89, 98badcfe and 10325476 it leaves four registers, and these are the digest, low-order byte first |
| `Md5.PaddedUnique` | libredis/md5.c:372-377 | There is only one such text for a message |
| `Md5.LeavesIff` | libredis/md5.c:360-381 | So the registers described are the fold over the padded message, and nothing else |
| `Md5.DigestOfPieces` | libredis/md5.c:322-381 | Any sequence of appends gives the digest, so described, of the concatenation |
| `Md5.Md5Digest` | libredis/ketama.c:130-137 | The digest of a string is what the registers that MD5 leaves for it write |
| `Quotas.QuotaIsShare` | libredis/ketama.c:224-225 | In the arithmetic of float and double a server gets at most its proportional share of 160 points per server, and less than 4 below it, up to relative errors of 5.1 and 5 units of 2^-24 |
| `Quotas.ShareExact` | libredis/ketama.c:225-225 | The products of doubles are exact: only the floats are rounded |
| `Quotas.ExactIsShare` | libredis/ketama.c:224-225 | In exact arithmetic a server gets at most its proportional share of 160 points per server, and less than 4 below it |
| `Quotas.NearExact` | libredis/ketama.c:224-225 | For up to 80000 servers the quota computed in floats is the exact one, or one more or less |
| `Quotas.ExactEqual` | libredis/ketama.c:224-225 | In exact arithmetic the quota of equal weights is 40, whatever the number of servers |
| `Quotas.QuotaAtMost` | libredis/ketama.c:224-225 | A quota exceeds its share by at most 2.01 units of 2^-24 if the weights are floats, and by at most 4.03 otherwise |
| `EqualShares.EqualQuota` | libredis/ketama.c:224-225 | One of n servers of the same weight has quota 40 if its share reaches 40 to within half a float, and otherwise 39 |
| `EqualShares.ShortIff` | libredis/ketama.c:224-225 | For a total weight of at most 2^24 that depends on n alone: on the remainder of 2^23 times the least power of two that is at least n, divided by n |
| `EqualShares.ShortUpTo204` | libredis/ketama.c:224-225 | Up to 204 servers it fails for 61 and 122 only |
| `EqualShares.ShortDouble` | libredis/ketama.c:224-225 | It fails for 2n servers if and only if it does for n |
| `EqualShares.EqualQuotaUpTo204` | libredis/ketama.c:224-225 | So the quota of equal weights is 39 for 61 and 122 servers, and 40 for all other numbers up to 204 |
| `EqualShares.SixtyOneServers` | libredis/ketama.c:224-225 | The quota is 40 for 60 equal servers and 39 for 61 |
| `Ketama.RingFits` | libredis/ketama.c:217-219 | The points never exceed the allocation of 160 per server for up to 104000 servers of any weights, and for up to 208000 of a total weight of at most 2^24 |
| `Ketama.ExactRingFits` | libredis/ketama.c:217-219 | In exact arithmetic the points fit for any number of servers of any weights, and at least 156 per server are used |
| `Ketama.RingMayNotFit` | libredis/ketama.c:217-219 | For 212529 servers of which 4093 have weight 1 and the others none they do |
| `Ketama.RingIsNotEmpty` | libredis/ketama.c:221-259 | Any positive total weight puts points on the ring: at least 152 per server, and at least 156 for up to 80000 servers |
| `Ketama.LocatedServes` | libredis/ketama.c:173-200 | On a sorted ring the index found is of a nearest point at or above the hash, or of the least point if there is none |
| `Ketama.MinimalDisruption` | libredis/ketama.c:161-201 | If points are only added and all are distinct, a hash keeps its point or moves to an added one |
| `Ketama.AddingServerMovesKeysToIt` | libredis/ketama.c:208-265 | If adding a server changes no other server's quota and points are distinct, a key keeps its server or moves to the new one |
| `Ketama.EqualWeightsQuota` | libredis/ketama.c:224-225 | With equal weights every quota is 40 or every quota is 39, depending on whether the share of one server reaches 40 |
| `Ketama.EqualWeightsMoveKeysToNewServer` | libredis/ketama.c:208-265 | With equal weights a new server only takes keys, if all quotas are 40 before and after or 39 before and after |
| `Moves.KeepsItsPointIff` | libredis/ketama.c:161-265 | For any weights and any compression function, when a server is added a hash keeps its point if and only if its server does not lose that point and the point that serves it now is neither the new server's nor gained by an old one |
| `Moves.MovesBetweenOldServers` | libredis/ketama.c:161-265 | A key that moves from one old server to another had a point that its server loses or has one that the other gains |
| `Moves.MovesWhenQuotasFall` | libredis/ketama.c:161-265 | Equal weights and quotas going from 40 to 39: a hash keeps its point if and only if that was not in its server's last group and the new server has not taken it; only hashes of last groups move between old servers |
| `Moves.MovesWhenQuotasRise` | libredis/ketama.c:161-265 | The same for quotas going from 39 to 40, with the groups gained |
| `Moves.LastPointsMove` | libredis/ketama.c:161-265 | When the quotas fall, the hashes at the last four points of every old server do change their point |
| `Moves.EqualServers` | libredis/ketama.c:161-265 | A condition on the servers alone under which a new server of equal weight only takes keys |
| `Moves.FewEqualServers` | libredis/ketama.c:161-265 | It is met for up to 60 servers after the addition, of a total weight of at most 2^24 |
| `Drift.KeysMoveBetweenOldServers` | libredis/ketama.c:208-265 | A theorem about all compression functions needs that condition: without it there are a compression function and a key that moves from one old server to another |
| `Drift.SixtyServersAndOneMore` | libredis/ketama.c:208-265 | In particular for 60 servers and one more |
| `Ketama.Compare` | libredis/ketama.c:285-288 | The sign of the comparison of the points |
| `Ketama.Qsort` | libredis/ketama.c:262-263 | A sorted permutation, with no promise about equal points |
| `Ketama.Ketama.AddServer` | libredis/ketama.c:96-117 | The list grows by the server, its address followed by a colon and the port and cut to 254 bytes, through any number of doublings; an existing continuum stays |
| `Ketama.Ketama.FillContinuum` | libredis/ketama.c:221-256 | The array holds the points of all servers in order, within bounds if the allocation suffices |
| `Ketama.Ketama.CreateContinuum` | libredis/ketama.c:208-265 | A sorted arrangement of exactly those points; nothing changes if there is a continuum or no server. A point is on the ring if and only if it is one of the four registers that MD5 leaves for the address of its server, a minus sign and a number below the quota, cut to 265 bytes |
| `Ketama.RingPointsIff` | libredis/ketama.c:221-256 | The points of a list of servers are the registers that MD5 leaves for the numbered addresses of each of them |
| `Ketama.Ketama.GetServerOrdinal` | libredis/ketama.c:161-201 | The search ends within bounds with the server of the point that serves the key's hash, duplicates and hash 0 included; -1 without a continuum. Told of the key: if MD5 leaves h for it, the ordinal is that of a nearest point at or above the first register of h, or of a least point if there is none |
| `Ketama.Ketama.OwnerServes` | libredis/ketama.c:139-201 | The owner of a key and its address are those of a point that serves the first register that MD5 leaves for the key |
| `Ketama.KeysMoveToTheNewServer` | libredis/ketama.c:139-265 | For two rings of the library, one with a server more, that change no quota and have distinct points, every key stays at its address or moves to that of the new server |
| `Ketama.Ketama.GetServerAddress` | libredis/ketama.c:150-158 | The address of an ordinal in range, otherwise the empty text |
| `Clients.FromNext` | redis.py:92-107 | The next entry as a Python value, or an exception for errors, nils and the end |
| `Clients.ExecuteSimple` | redis.py:51-55 | The batch is executed, its record is added to the connection's history, and the result is its first reply as a Python value, or an exception |
| `Clients.Get` | redis.py:46-55 | On a connection with any history, and with a server that answers in order, the result is what the server answered to this command, or an exception if the connection was given up. If the server answers a line that is GET and one key with what it holds under that key, a key without spaces and line ends gives exactly the text held, or an exception if there is none, unless a call on the socket failed or time was up |
| `Clients.GetRead` | redis.py:46-49 | The line is the bytes 71 69 84 32, the key, 13 10; a server reads GET and that key from it if and only if the key is not empty and has no space or line end in it |
| `Clients.ConnectionManager.GetConnection` | redis.py:69-72 | The connection known for the address, with its history, or a new one that shares nothing with the others |
| `Sharding.MgetRead` | redis.py:205-213 | A server reads from the line the word 77 71 69 84 and exactly the keys that were written, in order, repeats included, if and only if no key is empty or has a space or a line end in it |
| `Sharding.Distribute` | redis.py:201-209 | One batch for each server that owns a key, with exactly its keys in order |
| `Sharding.KeysForParts` | redis.py:203-209 | The keys of a server are picked one by one, in order, repeats included |
| `Sharding.Enlist` | redis.py:212-215 | Every batch is completed, and paired with the connection to its server, in any order, as long as the executor has room; those it refuses stay as they are |
| `Sharding.Exchange` | redis.py:201-217 | All batches are written and executed, as far as there are pairs; every connection has one line more in its history, and all can be used again |
| `Sharding.ReadShard` | redis.py:222-227 | Succeeds only if the first reply is a multibulk reply, and then exactly if the server holds all keys of the batch, and adds exactly their values |
| `Sharding.Collect` | redis.py:219-228 | The same over all batches, in any order |
| `Sharding.Mget` | redis.py:197-228 | For a manager with any history: success means that there were at most 1024 servers, no call on their sockets failed and nothing was interrupted; if the servers answer in order and with what they hold, mget succeeds exactly if that is so and all keys are present, with a map from exactly the keys to what the server that the ring picks holds; it can be called again |

## Left out

- Integer widths: declared lengths and multibulk counts, positions, command counts, weights and ring sizes are unbounded numbers. The C code uses `int` and `atoi`, which are undefined beyond the range of `int`, and `unsigned long` for weights.
- Floats: exponents are unbounded, and the C expressions are taken to be evaluated in `float` and `double` as written, without extra precision.
- Ketama.Ketama.CreateContinuum: weights that are all zero are excluded (the C code then converts an undefined quotient to an integer), and so are servers whose points exceed the allocation (it then writes beyond it).
- Ketama.Ketama.FillContinuum: the same.
- Drift.KeysMoveBetweenOldServers: the compression function is one made for the purpose, and there are 2 to 999998 servers; for MD5 nothing is claimed about which server a key goes to that has lost its point.
- Drift.SixtyServersAndOneMore: the same.
- Ketama.RingFits: nothing is said for other lists of more than 104000 servers, some of which fit and some do not.
- Quotas.ExactIsShare: about the exact quotas that the floats of the code stand for; `Quotas.NearExact` and `Quotas.QuotaIsShare` are about the code's own.
- Quotas.ExactEqual: the same; `EqualShares.EqualQuota` is about the code's own.
- Ketama.ExactRingFits: the same; `Ketama.RingFits` is about the code's own.
- Md5.State.Finish: the 64 steps of the compression function (section 3.4 of RFC 1321) are a parameter of the model; what is proved is the buffering, the counting and the padding, for every such function.
- `Md5.State.Append` and everything above it need lengths that fit a C `int`, together with what is buffered; a negative length, which the C code ignores, has no counterpart.
- qsort is any sorted permutation: the selection sort in `Ketama.Qsort` stands for it, and nothing else is known of it.
- `realloc` and the growth of the server array are new arrays with the old contents; memory accounting, free lists, out-of-memory paths and the `free` functions are not modelled, nor the reply freeing in `_Reply_free`.
- Error texts: the text of an abort is any text (the code formats errno and addresses into it); module error state is not modelled.
- Address parsing in `Connection_new`, getaddrinfo and the addrinfo list: name resolution is one arbitrary success or failure.
- The POLLERR, POLLHUP and POLLNVAL bits, which the code does not look at either.
- The deadline arithmetic in doubles: the clock only says whether time is left. To have total correctness the clock and each socket have a patience, an arbitrary natural number of further positive answers, fixed at the start.
- Executing a batch or an executor twice, or sharing a connection or a batch between pairs: excluded by `Executor.Startable` and `Connection.Fresh`, as the code does not support it.
- Batch_next_reply with a NULL argument, negative numbers of commands, and Batch_write_get and Batch_write_set.
- Numeric validity of integer replies, and multibulk replies inside multibulk replies: the parser accepts any text for the first and rejects the second, and so does the model.
- Sharding.Mget: a ring that has been built; that the servers answer in order, and the last line with what they hold, is a premise about the wires.
- Strings with zero bytes as addresses, key encodings, and the rest of `redis.py`, of the PHP extension and of the test scripts.
