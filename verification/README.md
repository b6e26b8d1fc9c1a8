# Proofs about the server toolkit

A Dafny model of seven self-contained algorithms of the toolkit, each with the properties it exists for. The code of
each component is modelled as the code is: classes whose methods change their fields, loops with invariants, and, where
threads meet, state machines with one atomic access or one locked section per step. `dafny verify dfyconfig.toml`
checks everything.

| component | files |
|---|---|
| runs of step machines, machine integers, sequences | `Machines.dfy`, `Modular.dfy`, `Sequences.dfy`, `Wrappers.dfy` |
| lock-free queues | `IntrusiveQueue.dfy`, `IntrusiveQueueCode.dfy`, `NonIntrusiveQueue.dfy`, `NonIntrusiveQueueCode.dfy` |
| framed stream receiver | `Wire.dfy`, `Buffer.dfy`, `Message.dfy`, `Parser.dfy`, `TcpSession.dfy`, `Delivery.dfy` |
| SipHash-2-4 | `SipAlgebra.dfy`, `SipHashSpec.dfy`, `SipHashTheorems.dfy`, `SipHashExample.dfy`, `SipHashCode.dfy` |
| packet-bounded SQL batching | `Batches.dfy`, `MySqlConn.dfy`, `StatementTexts.dfy`, `StockTable.dfy` |
| connection pool | `ConnectionPool.dfy`, `ConnectionPoolCode.dfy`, `ConnectionOwnership.dfy` |
| task pool | `TaskPools.dfy`, `TaskPoolCode.dfy`, `TaskPoolTheorems.dfy`, `TaskOrder.dfy`, `TaskOvertaking.dfy` |
| local days and weeks | `TimeUtils.dfy` |

## How the model reads the code

Concurrency. Atomic accesses interleave sequentially consistently. A schedule is an arbitrary list of actions, each
naming a thread and what it does next; an action that its thread cannot take changes nothing. A statement about every
schedule is a statement about every interleaving of any number of threads. The classes of the queues and of the task
pool run each operation with arbitrary actions of the other threads between any two of its accesses or locked sections.

Memory. In the allocating queue a node may be allocated at any address that is free at that moment, so freed addresses
are reused; in the connection pool connections have fresh identities. SipHash works in one memory in which message, key
and output are positions, so they may overlap in any way. A null link is the absence of a key.

Receiver. A buffer owns `len_` bytes of storage, which the code only reserves. The header is little-endian, as on the
machines the code is built for. `read(msg, ...)` at `src/net/TcpSession.cpp:133` is taken as the overload for
`BaseBuffer&` at `src/net/Buffer.h:444`, which fills the body of the message; as the call is written, its pointer
argument selects the `void*` overload. A null data pointer is an empty sequence of bytes.

SQL. Strings are sequences of characters, one character standing for one byte of text. The answer to each execution
(rows, failure or exception) is arbitrary but fixed beforehand, and so is the packet size that the server reports. What
a server makes of a text is arbitrary too; a statement changes nothing unless it succeeds. Which texts are sent, in which
order and what is returned is proved for every server. What the table holds afterwards is proved for a server that
understands the statements of the groups done as those groups (`MySqlConn.Understood`); `StatementTexts.dfy` says for
which groups there is one. `keyname.empty` at `src/Base/MySqlconn.h:272` is taken as a call. The backticks that
`deleteWhereByKeys` puts around keys are part of the text; what the server makes of them belongs to that assumption.

Clocks are parameters: every reading of the clock may be any number. So are the work of tasks and whether a connection
is connected.

## Properties that fail, and when exactly they hold

* `canReadSize` cuts the size of the receive buffer to 32 bits. So `parseToMessage` leaves no whole message unparsed exactly
  if fewer than 2^32 bytes are buffered (`TcpSessions.TcpSession.ParseToMessage`); cutting a stream into pieces changes
  nothing exactly if no piece fills the buffer to 2^32 bytes (`TcpSessions.TcpSession.ReceiveAll`), which pieces of up to
  `MAX_PIECE` bytes never do (`TcpSessions.SmallPiecesNeverFill`) and two pieces can (`TcpSessions.PiecesMayFill`); the
  round trip through the buffer holds exactly for less than 2^32 bytes (`TcpSessions.TcpSession.WriteAndParse`); and the
  callbacks see all messages exactly if fewer than 2^32 bytes are buffered (`Delivery.EverythingIsDelivered`).
* `safe_grab` ends, whatever the clock, exactly if some connection yet to be created is connected; if none is, it has no
  end under a clock that expires all idle connections (`ConnectionPoolCode.SafeGrabEndsExactly`). This concerns the
  template: `MysqlConn::isConnected` is always true (`src/Base/MySqlconn.h:26-29`), and the constructor of `RedisConn`
  throws unless it is connected, so with these two classes the condition holds.
* `localDaysFromEpoch` is floor division exactly if the time, counted from the local epoch, fits an unsigned 32-bit
  number (`TimeUtils.DaysAreFloorInRange`).
* `getLocalDayZero` and `getLocalMondayZero` are at or before their argument exactly from local day 1 on; on local day 0
  the unsigned arithmetic wraps into the year 2106 (`TimeUtils.DayZeroIsTodays`, `TimeUtils.MondayIsThisWeeks`,
  `TimeUtils.FirstDayHasALateMonday`). Being in the same week and having the same Monday agree except between local
  day 0 and local days 1 to 3 (`TimeUtils.SameWeekIsSameMonday`).
* The packet bound holds for all containers of rows or keys of up to N characters exactly if the longest statement they
  can give, for which there is a formula in N, the shortest length of a row and the lengths of the head and the tail
  (`Batches.Longest`), does not outgrow the packet (`Batches.FitExactly`). While the shortest row has at most 498
  characters this is: if N is at most 997, whatever the packet size, as soon as the head leaves room for the shortest row
  below the safe size (`MySqlConn.ReplaceFitsExactly`, `MySqlConn.DeleteFitsExactly`). The statement that is too long is
  sent (`MySqlConn.LongestIsSent`). The table `stock` is such a table, with a shortest row of 24 characters
  (`StockTable.StockFitsExactly`).
* A batch does to the table what its rows or keys would do one by one if the server understands its statements. A server
  that understands the statements of some groups exists exactly if groups with the same text have the same effect
  (`StatementTexts.SomeServerUnderstands`). Values are rendered as they are, so that two groups can have one text: one key
  with a comma between backticks in it and two keys (`StatementTexts.KeysMayBeAmbiguous`), or two rows of `stock` that
  differ in where the date ends and the description begins (`StockTable.StockMayBeAmbiguous`). Keys without a backtick and
  rows of `stock` without a quote are always understood by some server (`StatementTexts.PlainKeysAreUnderstood`,
  `StockTable.PlainStockIsUnderstood`).
* Tasks of different clients may overtake each other, up to their completion (`TaskOvertaking.ClientsMayOvertake`). A
  submission that draws a worker now stays behind an earlier one, whatever happens then, exactly if the earlier submission
  has ended, has no task, or goes to another worker (`TaskOrder.OrderIsCertainExactly`).
* Worker loads differ by at most two, and by at most one when the counter does not wrap or the number of workers divides
  2^32; two does occur (`TaskPoolTheorems.LoadsAreBalanced`, `TaskPoolTheorems.LoadsMayDifferByTwo`).

## Model

| member | source | states |
|---|---|---|
| `IntrusiveQueue.DequeueIsFifo` | src/Base/MPSCQueue.h:97-138 | in every interleaving of any producers with the consumer, including the consumer's own enqueue of the dummy, the elements returned are a prefix of the exchange order without the dummy, and the rest of that order is what the chain still holds |
| `IntrusiveQueue.ChainIsSound` | src/Base/MPSCQueue.h:97-138 | in every interleaving the nodes from tail to head are pairwise distinct, each link between neighbours is right or owed by exactly one thread between its exchange and its store, and the dummy is never being enqueued while it stands in the chain |
| `IntrusiveQueue.DummyStaysInside` | src/Base/MPSCQueue.h:104-138 | the dummy is never returned |
| `IntrusiveQueue.ReturnedNodeIsFree` | src/Base/MPSCQueue.h:87-138 | in every interleaving, from the moment a node is returned until it is enqueued again, it is in no queue position, no thread is going to exchange it or write its link, and no access of any thread touches it, so its receiver may delete it |
| `IntrusiveQueue.OnlyTouchedLinksMatter` | src/Base/MPSCQueue.h:97-138 | the links that an access is said to touch are all of them: it changes no other link, and what it does depends on no other link |
| `IntrusiveQueue.RefusalMeansGap` | src/Base/MPSCQueue.h:104-138 | a call that answers false had, at some moment between its start and its end, an empty queue or a producer between its exchange and its link store |
| `IntrusiveQueue.DequeueIsWaitFree` | src/Base/MPSCQueue.h:104-138 | in every interleaving, wherever the producers stand still, no call makes more than ten accesses |
| `IntrusiveQueue.DequeueAlone` | src/Base/MPSCQueue.h:104-138 | with no producer in flight a call ends in a bounded number of steps, answers true exactly if the queue is not empty, and takes the oldest element and nothing else |
| `IntrusiveQueue.DrainReturnsAll` | src/Base/MPSCQueue.h:87-95 | the destructor's loop ends and has returned every element ever exchanged, once and in order |
| `IntrusiveQueueCode.MPSCQueueIntrusive.Enqueue` | src/Base/MPSCQueue.h:97-102 | the call makes exactly its own accesses, with any steps of other threads between them, and puts the input into the exchange order |
| `IntrusiveQueueCode.MPSCQueueIntrusive.Dequeue` | src/Base/MPSCQueue.h:104-138 | the code of the call, with any steps of other threads between its accesses, is a run of the machine; true takes one element, false takes none and met a gap |
| `NonIntrusiveQueue.DequeueIsFifo` | src/Base/MPSCQueue.h:29-47 | in every interleaving the data dequeued followed by the data in the chain is the exchange order |
| `NonIntrusiveQueue.MemoryIsSafe` | src/Base/MPSCQueue.h:29-47 | whatever free addresses the allocator picks, no step of any thread touches or deletes a node that is not allocated, and every allocated node is in the chain, private to an enqueuer, or about to be deleted |
| `NonIntrusiveQueue.OnlyTouchedNodesMatter` | src/Base/MPSCQueue.h:29-47 | the nodes that an access is said to touch are all of them: it changes and frees no other node, but for the one it allocates, and depends on no other link |
| `NonIntrusiveQueue.OnlyTouchedDataMatter` | src/Base/MPSCQueue.h:36-47 | nor does Dequeue depend on the datum of any other node |
| `NonIntrusiveQueue.RefusalMeansGap` | src/Base/MPSCQueue.h:36-47 | a call that answers false met, during the call, an empty queue or a producer between its exchange and its link store |
| `NonIntrusiveQueue.DequeueAlone` | src/Base/MPSCQueue.h:36-47 | with no producer in flight a call answers true exactly if something is queued, and returns the oldest datum |
| `NonIntrusiveQueue.DestroyFreesAll` | src/Base/MPSCQueue.h:19-27 | the destructor of a quiescent queue hands out all data left in order and frees every node, the last one included, without touching or deleting a freed one |
| `NonIntrusiveQueueCode.MPSCQueueNonIntrusive.Enqueue` | src/Base/MPSCQueue.h:29-34 | the call makes exactly its allocation, exchange and link store, with any steps of other threads between them, and puts the input into the exchange order |
| `NonIntrusiveQueueCode.MPSCQueueNonIntrusive.Dequeue` | src/Base/MPSCQueue.h:36-47 | the code of the call under interference is a run of the machine; true returns the next datum of the exchange order, false takes nothing and met a gap |
| `Machines.FlagMeansMoment` | src/Base/MPSCQueue.h:104-138 | a flag updated step by step during a call tells whether some moment of that very call had a property; it turns the step machine's bookkeeping into the statement about moments |
| `Wire.EncodeLayout` | src/net/Buffer.h:277-285 | the bytes of a message: its code and the length of its body, two bytes each with the low byte first, then the body |
| `Wire.ParseLayout` | src/net/TcpSession.cpp:106-145 | bytes c0, c1, l0, l1 followed by l0 + 256 l1 bytes of body come out as a message with code c0 + 256 c1 and that body |
| `Wire.ParseEncoded` | src/net/TcpSession.cpp:106-145 | parsing the encodings of any messages of at most 65535 body bytes, followed by anything, gives those messages and then the parse of what follows |
| `Wire.EncodeParsed` | src/net/TcpSession.cpp:106-145 | for every byte string, the messages parsed, encoded again, followed by the rest, are the string, and the rest starts with no whole message |
| `Wire.ParseIsUnique` | src/net/TcpSession.cpp:106-145 | there is only one way to read a stream as messages followed by less than a message |
| `Wire.ParseInPieces` | src/net/TcpSession.cpp:65-75 | cutting a stream anywhere and parsing the pieces in turn gives the messages and the rest of the whole |
| `Buffers.BaseBuffer.AppendData` | src/net/Buffer.h:132-149 | appends as much as fits behind what was written, changes nothing before it, and says how much |
| `Buffers.BufferPool.GetBuffer` | src/net/Buffer.h:357-370 | hands out the front buffer of the pool, emptied, or a new one of 100000 bytes |
| `Buffers.BufferPool.PutBuffer` | src/net/Buffer.h:372-381 | keeps the pool at its limit of 1000: a null or surplus buffer is dropped |
| `Buffers.RingBuffer.EmplaceBack` | src/net/Buffer.h:395-401 | a readable buffer appends its unread bytes to the queue, any other changes nothing; no buffer is in the queue and the pool at once |
| `Buffers.RingBuffer.CanReadSize` | src/net/Buffer.h:403-413 | the length of the byte queue, cut to 32 bits |
| `Buffers.RingBuffer.Read` | src/net/Buffer.h:415-442 | removes exactly the first bytes asked for and returns them, or none when fewer are counted; exhausted buffers are recycled without ever being in the queue and the pool at once, and the loop ends |
| `Buffers.RingBuffer.ReadTo` | src/net/Buffer.h:444-476 | the same into a buffer, behind what it holds already |
| `Buffers.RingBuffer.WriteData` | src/net/Buffer.h:542-570 | appends the bytes to the byte queue, over as many buffers as it takes |
| `Buffers.RingBuffer.WriteString` | src/net/Buffer.h:510-540 | appends the string up to the size that 32 bits hold, and answers whether that is anything |
| `Messages.Message.SetMsgCode` | src/net/Buffer.h:277-280 | the low byte of the code at 0 and the high byte at 1, and no other byte changes |
| `Messages.Message.SetMsgLen` | src/net/Buffer.h:282-285 | the same for the length at 2 and 3 |
| `Messages.Message.GetMsgCode` | src/net/Buffer.h:287-299 | the byte at 0 plus 256 times the byte at 1 |
| `Messages.Message.GetMsgLen` | src/net/Buffer.h:301-313 | the same for the bytes at 2 and 3 |
| `Messages.Message.WriteBody` | src/net/Buffer.h:315-329 | appends the string, as much of it as a 32-bit size says, and loses nothing written before, also when the storage has to grow; the storage grows to what is then written |
| `Messages.Unpack` | src/net/Buffer.h:287-347 | `getMsgCode`, `getMsgLen` and `readBody` give back the code, length and body of the message the bytes carry |
| `Messages.Build` | src/net/Buffer.h:277-329 | `setMsgCode`, `setMsgLen` and `writeBody` make the bytes of the message, low bytes first in the header, whatever room it was created with |
| `Messages.WriteAll` | src/net/Buffer.h:572-575 | writing messages one after the other appends their encodings in order |
| `TcpSessions.TcpSession.ParseToMessage` | src/net/TcpSession.cpp:106-145 | messages emitted, saved header and buffered bytes are always the bytes received; no whole message is left unparsed exactly if fewer than 2^32 bytes were buffered, and then a header is saved exactly if its bytes are there |
| `TcpSessions.TcpSession.OnReceive` | src/net/TcpSession.cpp:71-75 | no byte is lost; below 2^32 buffered bytes the messages and the pending bytes are those of one pass of the recursive parser over what was pending and what came, otherwise a whole message stays behind |
| `TcpSessions.TcpSession.OnReceiveBuffer` | src/net/TcpSession.cpp:65-69 | the same for a buffer filled by the socket |
| `TcpSessions.TcpSession.ReceiveAll` | src/net/TcpSession.cpp:65-75 | for any pieces of a stream no byte is lost, and messages and pending bytes are those of the uncut stream exactly if no piece fills the buffer to 2^32 bytes |
| `TcpSessions.TcpSession.ReceiveEncoded` | src/net/TcpSession.cpp:65-75 | what one side encodes the other hands on, under any cutting, exactly if no piece fills the buffer to 2^32 bytes |
| `TcpSessions.SmallPiecesNeverFill` | src/net/TcpSession.cpp:65-75 | pieces that leave room for an unfinished message never do |
| `TcpSessions.PiecesMayFill` | src/net/TcpSession.cpp:65-75 | but a message announced with the greatest length, of which one byte has come, followed by a piece of 2^32 - 1 bytes does |
| `Parsers.RoundTakesFirstFrame` | src/net/TcpSession.cpp:106-145 | a round of the parse loop, with its 32-bit size checks, takes exactly the first message off the pending bytes or leaves them alone; it stops in front of a whole message exactly if 2^32 bytes or more are buffered, and below that a header is saved exactly if its bytes are there |
| `TcpSessions.TcpSession.ParseRound` | src/net/TcpSession.cpp:106-145 | the code of one round, over its buffers, is that round, which the machine of the two threads steps through |
| `TcpSessions.TcpSession.WriteAndParse` | src/net/TcpSession.cpp:106-145 | the wire round trip: messages built, written and parsed come out as they went in and nothing is left, exactly if they take less than 2^32 bytes |
| `Delivery.CallbacksAreAPrefix` | src/net/TcpSession.cpp:147-169 | with the receiving and the processing thread interleaved arbitrarily, down to the queue's accesses, the messages passed to the callback are a prefix of those in the bytes received, and no freed node is touched |
| `Delivery.EverythingIsDelivered` | src/net/TcpSession.cpp:106-169 | when the parser is idle and the processing loop has run to its end, the callback has seen exactly the messages in the bytes received, if and only if fewer than 2^32 bytes are buffered, the size checks being those of the code |
| `Delivery.ProcessAllIsRun` | src/net/TcpSession.cpp:147-169 | the processing loop is a run of the processing thread alone |
| `SipAlgebra.RoundIsBijective` | src/Demos/siphash.cpp:49-66 | over any words with invertible addition, exclusive or and rotations, the round has an inverse, given explicitly |
| `SipAlgebra.CompressIsBijective` | src/Demos/siphash.cpp:117-127 | compressing a fixed word permutes the states, with an explicit inverse |
| `SipHashSpec.Words64AreLawful` | src/Demos/siphash.cpp:31-66 | the 64-bit operations of the code are such words |
| `SipHashTheorems.LittleOfOctets` | src/Demos/siphash.cpp:33-47 | the eight bytes stored for a word, loaded again, are the word |
| `SipHashTheorems.OctetsOfLittle` | src/Demos/siphash.cpp:33-47 | up to eight bytes loaded as a word can be stored back |
| `SipHashTheorems.PaddingIsInjective` | src/Demos/siphash.cpp:106-154 | two messages of any lengths that are absorbed as the same words are the same, byte for byte, although only their lengths modulo 256 are absorbed |
| `SipHashTheorems.FinishedIsInjective` | src/Demos/siphash.cpp:98-173 | for every message and mode the state before the fold is an injective function of the key |
| `SipHashTheorems.FinishedAgainIsInjective` | src/Demos/siphash.cpp:179-186 | so is the state before the fold of the second half of a 16-byte output |
| `SipHashTheorems.ModesNeverMeet` | src/Demos/siphash.cpp:114-162 | a short and a long hash of the same message never share a state before finalisation, whatever the two keys |
| `SipHashExample.PaperHash` | src/Demos/siphash.cpp:91-189 | a check of the definition: it gives the value that appendix A of the SipHash paper works out |
| `SipHashExample.EmptyHash` | src/Demos/siphash.cpp:91-189 | the same for 16 bytes of output: the value that comes with the reference code for the empty message, worked out round by round through both halves |
| `SipHashCode.LastWord` | src/Demos/siphash.cpp:106-154 | the switch that falls through gathers the bytes left over and the length into the last word |
| `SipHashCode.AbsorbMessage` | src/Demos/siphash.cpp:117-162 | the block loop and the last word absorb the padded message |
| `SipHashCode.SipHash` | src/Demos/siphash.cpp:91-189 | for every length, key and output length, and any overlap of message, key and output in memory, the output receives the hash of what message and key were at the call, and no other byte changes |
| `Batches.SplitIsTheGreedyOne` | src/Base/MySqlconn.h:125-148 | the groups sent are the only split of the container into non-empty consecutive groups each of which ends where its statement first outgrows the limit |
| `MySqlConn.LastRowWins` | src/Base/MySqlconn.h:186-204 | replacing rows one by one leaves for every key the value of its last row, and other keys alone |
| `MySqlConn.ReplaceDB` | src/Base/MySqlconn.h:186-225 | for every server the text `REPLACE INTO`, table, fields and `VALUES` with the one row in brackets is sent; rows reported, 0 on failure, -1 on exception; a server that understands this statement has replaced the row if it succeeded |
| `MySqlConn.ReplaceAll` | src/Base/MySqlconn.h:106-183 | for every server and every table the texts sent, written out as `REPLACE INTO`, table, fields and `VALUES` with the bracketed rows of a group and commas between them, are those of the groups of the split up to the first that does not succeed, and the result is what `ReturnedIs` says; a server that understands the groups done has replaced their rows; `readycount` never wraps |
| `MySqlConn.ReplaceAllIsOneByOne` | src/Base/MySqlconn.h:120-162 | the groups done put together are a prefix of the container, the whole of it exactly if every statement succeeds; a server that understands the groups done has the table as after `replaceDB` on each row of that prefix in order |
| `MySqlConn.DoneIsAPrefix` | src/Base/MySqlconn.h:120-162 | the groups done, put together, are a prefix of the container, all of it exactly if all groups are done |
| `MySqlConn.DeleteWhereByKeys` | src/Base/MySqlconn.h:270-357 | the same for deletion by keys, with the text `DELETE FROM`, table, `WHERE`, key name and `IN` written out, its own flush test, closing bracket and 32-bit count |
| `MySqlConn.SentIs` | src/Base/MySqlconn.h:125-158 | all groups before the last one sent were answered with rows, and groups stay unsent only behind one that was not |
| `MySqlConn.ReturnedIs` | src/Base/MySqlconn.h:136-180 | the number returned is the sum of the rows reported by the groups done, as far as the integer holds it, or the greatest number if an exception ended the call |
| `Batches.StatementIs` | src/Base/MySqlconn.h:125-134 | a statement is its head, its items in their brackets joined by commas, and its tail, the join being defined apart from the gathering loop |
| `StockTable.ColumnsInOrder` | src/mysqlppexe/Stock.cpp:28-32 | the field list names the six columns in their order |
| `StockTable.ValuesInOrder` | src/mysqlppexe/Stock.cpp:35-45 | the value list gives, quoted and joined by commas, what the row has in those columns, in the order of the names |
| `StockTable.TwoRowsSpelledOut` | src/Base/MySqlconn.h:120-134 | the statement for two rows of `stock`, character by character |
| `StockTable.TwoKeysSpelledOut` | src/Base/MySqlconn.h:290-322 | the statement that deletes two keys, character by character |
| `StatementTexts.SomeServerUnderstands` | src/Base/MySqlconn.h:120-162 | for any groups there is a server that understands all their statements if and only if groups with the same text have the same effect |
| `StatementTexts.PlainKeysAreUnderstood` | src/Base/MySqlconn.h:290-334 | for any container of text keys without a backtick there is a server that understands every statement sent, since the text shows the keys |
| `StatementTexts.KeysMayBeAmbiguous` | src/Base/MySqlconn.h:298-310 | with backticks in them, one key and two keys can have one text but not one effect |
| `StockTable.PlainStockIsUnderstood` | src/mysqlppexe/Stock.cpp:35-45 | for any rows of `stock` without a quote in their fields there is a server that understands every statement sent, since the text shows the rows |
| `StockTable.StockMayBeAmbiguous` | src/mysqlppexe/Stock.cpp:35-45 | for any row there are two rows with quotes in them that have one text but not one effect |
| `MySqlConn.ReplaceFits` | src/Base/MySqlconn.h:125-148 | with a head shorter than the safe size and values of at most 997 characters, every statement `replaceAll` sends fits into `max_allowed_packet` |
| `MySqlConn.ReplaceFitsExactly` | src/Base/MySqlconn.h:125-148 | for every packet size and every table whose rows have values of each length from the shortest up to N: containers with values of at most N characters always fit exactly if the longest statement does; with a shortest row of at most 498 characters, exactly if N is at most 997, or what the packet leaves behind a head without room for a row below the safe size |
| `MySqlConn.DeleteFits` | src/Base/MySqlconn.h:290-334 | the bound for `deleteWhereByKeys` and keys of at most 997 characters |
| `MySqlConn.DeleteFitsExactly` | src/Base/MySqlconn.h:290-334 | the same for keys, with the closing bracket |
| `Batches.FitExactly` | src/Base/MySqlconn.h:125-148 | for any form of statement and any shortest and greatest length of an item, all statements of all containers fit exactly if `Longest` does, which is computed from the lengths alone |
| `MySqlConn.LongestIsSent` | src/Base/MySqlconn.h:134-148 | a container whose one statement has that length exists for every table with values of each length from the shortest on, and it is sent whatever the server answers |
| `StockTable.StockFitsExactly` | src/mysqlppexe/Stock.cpp:28-44 | for the table `stock`, whose rows render six quoted fields, containers always fit exactly if no row has more than 997 characters, whenever the packet size leaves a row of 24 characters room behind the head |
| `ConnectionPool.BelowIsStrictWeakOrder` | src/Base/ConnectionPool.h:43-47 | the comparison is a strict weak order, as `max_element` needs it |
| `ConnectionPool.GrabHandsOutTheMru` | src/Base/ConnectionPool.h:83-96 | a connection is created exactly if no idle unexpired one exists; otherwise one with the greatest time of last use among those is handed out; no idle connection past the age limit is left |
| `ConnectionPool.GrabIs` | src/Base/ConnectionPool.h:83-96 | in entries, seconds and flags: destroyed are the connections of exactly the entries idle and last used 300 seconds ago or earlier; of the others, left in their order, the first idle one used last is marked and handed out, or a new entry in use is appended; a connection is created exactly if no idle one was used less than 300 seconds ago |
| `ConnectionPool.OldOnesLeave` | src/Base/ConnectionPool.h:204-213 | what `remove_old_connections` takes out and leaves, by position, in seconds and flags |
| `ConnectionPool.ShrinkLeavesTheBusy` | src/Base/ConnectionPool.h:138-159 | `shrink` leaves exactly the entries in use, in order, and destroys the connections of the others |
| `ConnectionPool.ClearLeavesNone` | src/Base/ConnectionPool.h:143-159 | `clear` leaves no entry and destroys all connections in order |
| `ConnectionPool.ReleaseIs` | src/Base/ConnectionPool.h:98-111 | the first entry for the connection, and no other, becomes idle with the time of the call |
| `ConnectionPool.RemoveIs` | src/Base/ConnectionPool.h:113-125 | the first entry for the connection goes, the others stay in order, and its connection is destroyed; without one nothing changes |
| `ConnectionPool.ReleasedIsReused` | src/Base/ConnectionPool.h:83-111 | a grab less than 300 seconds after a release creates no connection |
| `ConnectionPoolCode.MyConnPool.RemoveOldConnections` | src/Base/ConnectionPool.h:204-213 | the erasing loop takes out exactly the expired entries, in order, and destroys their connections |
| `ConnectionPoolCode.MyConnPool.FindMru` | src/Base/ConnectionPool.h:184-196 | marks and returns the first of the greatest entries, if it is idle |
| `ConnectionPoolCode.MyConnPool.Grab` | src/Base/ConnectionPool.h:83-96 | the locked section is the function the theorems are about |
| `ConnectionPoolCode.MyConnPool.Release` | src/Base/ConnectionPool.h:98-111 | the first entry for the connection becomes idle with the time of the call, or nothing changes |
| `ConnectionPoolCode.MyConnPool.Remove` | src/Base/ConnectionPool.h:113-125 | the first entry for the connection is taken out and the connection destroyed, or nothing changes |
| `ConnectionPoolCode.MyConnPool.Clear` | src/Base/ConnectionPool.h:143-159 | takes out all entries, or exactly the idle ones, and destroys their connections |
| `ConnectionPoolCode.MyConnPool.SafeGrab` | src/Base/ConnectionPool.h:127-136 | for any clock and any connections, watched for any number of rounds: it returns the first connected connection it gets, every one grabbed before was not connected and has been destroyed, and it goes on as long as none is |
| `ConnectionPoolCode.LiveConnectionEnds` | src/Base/ConnectionPool.h:127-136 | the loop ends when a connection yet to be created is connected, whatever the clock and the list |
| `ConnectionPoolCode.SafeGrabEndsExactly` | src/Base/ConnectionPool.h:127-136 | it ends under every clock that never goes back if and only if some connection yet to be created is connected |
| `ConnectionOwnership.OneHolder` | src/Base/ConnectionPool.h:77-159 | over every run of the locked sections a connection has at most one holder |
| `ConnectionOwnership.HeldIsAlive` | src/Base/ConnectionPool.h:77-159 | nothing that is held has been destroyed |
| `ConnectionOwnership.DestroyedOnce` | src/Base/ConnectionPool.h:77-213 | every connection created is in the list or destroyed, never both, and destroyed at most once |
| `ConnectionOwnership.ClearDestroysAll` | src/Base/ConnectionPool.h:61-65 | after the destructor every connection ever created has been destroyed exactly once |
| `TaskPoolTheorems.TaskIsInOnePlace` | src/Base/ThreadPool.cpp:15-89 | in every interleaving of submitters, workers and main thread, every task submitted is in exactly one place, and only its own worker ever has it |
| `TaskPoolTheorems.NullTasksGoNowhere` | src/Base/ThreadPool.cpp:15-22 | a null task uses up a number and reaches no queue |
| `TaskPoolTheorems.WorkAndDoneRunOnce` | src/Base/ThreadPool.cpp:24-89 | `work` runs at most once and by one worker; `done` runs at most once, and only when `work` has returned true |
| `TaskPoolTheorems.DoneInOrder` | src/Base/ThreadPool.cpp:24-89 | tasks of one worker are worked on in the order they were put into its queue, and their completions run in that order |
| `TaskOrder.ClientsKeepTheirOrder` | src/Base/ThreadPool.cpp:15-89 | in every interleaving the tasks that one client submits to one worker are queued, worked on and completed in the order of their submission |
| `TaskOrder.EndedGoesFirst` | src/Base/ThreadPool.cpp:15-89 | whoever the clients are, a submission that has ended before another one draws is queued, worked on and completed before it, if both go to one worker |
| `TaskOrder.OrderIsCertainExactly` | src/Base/ThreadPool.cpp:51-64 | a submission that draws now stays behind an earlier one in every continuation if and only if the earlier one has ended, has no task, or goes to another worker |
| `TaskOvertaking.ClientsMayOvertake` | src/Base/ThreadPool.cpp:51-64 | a run in which a task of one client is completed before another's that drew first |
| `TaskPoolTheorems.AtRestAllIsDone` | src/Base/ThreadPool.cpp:15-89 | when all queues and batches are empty, every task has been worked on once and its completion has run exactly if its work returned true |
| `TaskPoolTheorems.LoadsAreBalanced` | src/Base/ThreadPool.cpp:51-54 | over up to 2^32 submissions, from any start of the uninitialised counter, two workers' loads differ by at most two, by at most one without wrap or if the number of workers divides 2^32 |
| `TaskPoolTheorems.LoadsMayDifferByTwo` | src/Base/ThreadPool.cpp:51-54 | a run in which they do differ by two |
| `TaskPoolCode.SyncQueue.Put` | src/Base/SyncQueue.h:183-192 | appends, unless the queue is stopped |
| `TaskPoolCode.SyncQueue.Stop` | src/Base/SyncQueue.h:131-135 | marks the queue, so that later puts are dropped, and leaves what it holds to be taken |
| `TaskPoolCode.SyncQueue.Take` | src/Base/SyncQueue.h:159-163 | moves the whole list out |
| `TaskPoolCode.TaskThread.Run` | src/Base/ThreadPool.cpp:24-45 | with any steps of other threads between its own, it makes the machine's steps for the list it took: works on each task once in order, and adds exactly those whose work returned true to the done queue, in order |
| `TaskPoolCode.TaskPool.AddNewTask` | src/Base/ThreadPool.cpp:51-69 | with any steps of other threads between the two steps of a submission, it draws the next worker and puts the task into that worker's queue |
| `TaskPoolCode.TaskPool.RunInMain` | src/Base/ThreadPool.cpp:77-89 | with any steps of other threads between its own, it makes the steps of the main thread: takes the done queue and completes every task of it in order |
| `TimeUtils.DaysAreFloorInRange` | src/Base/TimeUtils.h:39-41 | the day number is floor division exactly in the range of an unsigned 32-bit number, in spite of the signed cast |
| `TimeUtils.DaysBetweenCountMidnights` | src/Base/TimeUtils.h:49-53 | in that range it counts the local midnights after the earlier time up to the later one |
| `TimeUtils.WeeksBetweenCountMondays` | src/Base/TimeUtils.h:56-60 | and the Monday midnights |
| `TimeUtils.DayZeroIsTodays` | src/Base/TimeUtils.h:111-113 | the midnight that began the local day, exactly from local day 1 on |
| `TimeUtils.MondayIsThisWeeks` | src/Base/TimeUtils.h:116-127 | the Monday computed is at or before the time and the next one after it exactly from local day 1 on; both are midnights of a Monday |
| `TimeUtils.NextMondayIsTheFirst` | src/Base/TimeUtils.h:125-127 | no Monday midnight lies after the time and before the next Monday computed, from local day 1 on |
| `TimeUtils.FirstOfMarch` | src/Base/TimeUtils.h:111-127 | Friday, 1 March 2024, as the example: its midnight, its Monday, the next Monday |
| `TimeUtils.OnlyMonday` | src/Base/TimeUtils.h:116-121 | it is the only Monday midnight less than a week before the time |
| `TimeUtils.SameWeekIsSameMonday` | src/Base/TimeUtils.h:76-78 | same week and same Monday agree except between local day 0 and days 1 to 3 |
| `TimeUtils.FirstDayHasALateMonday` | src/Base/TimeUtils.h:116-121 | noon of 1 January 1970 as the example |

## Left out

- Weak memory orders: the orders given to the atomics are taken to publish what sequential consistency would.
- IntrusiveQueueCode.MPSCQueueIntrusive.Enqueue: requires that the input stands in no queue position and in no other call, which the source expects of its callers.
- Sessions: sockets, timers, `start` and `sendMsgDirect` are asynchronous input and output; bytes enter by `onReceive` only.
- TcpSessions.TcpSession.ParseToMessage: the queue of the session holds what each message carries at its hand-over, not the object; the object's later life is the callback's.
- Delivery.CallbacksAreAPrefix: the receive buffer is one byte sequence there, as in `Parser.dfy`; the loops over its buffers are in `Buffer.dfy`, and `TcpSession.dfy` ties them to it.
- Messages.Message.WriteBody: excluded is only a string whose size, cut to 32 bits, does not fit behind what is written; there `len_` wraps and what the code then does is undefined.
- Messages.Build: a message whose length field differs from the size of its body can be built, but the round trip is stated for equal ones.
- Buffers.RingBuffer.EmplaceBack: buffers shared between the pool and other owners of the pointer are not modelled; a buffer handed out belongs to whoever got it.
- Copy and move members of `BaseBuffer` and `Message`, and `readAsString`, concern storage only.
- SipHashCode.SipHash: the trace macro and other round numbers than 2 and 4.
- MySqlConn.ReplaceAll: that a failed statement changes nothing is an assumption about the server; tables have one key.
- MySqlConn.DeleteWhereByKeys: as `ReplaceAll`; that a key in backticks denotes the key's value is part of what it means to understand a statement.
- Exceptions other than the three that are caught, and logging.
- ConnectionPoolCode.MyConnPool.Exchange: two locked sections with nothing in between; what happens in between is covered by the runs in `ConnectionOwnership.dfy`.
- ConnectionPoolCode.MyConnPool.SafeGrab: the loop is watched for a number of rounds, since it may have no end; other clients in between are left to the runs in `ConnectionOwnership.dfy`.
- ConnectionPoolCode.MyConnPool.Clear: with all entries while connections are held it destroys them under their holders; the statement about runs covers it only at destruction.
- MyScopedConn and the singleton: wrappers around `grab` and `release`.
- TaskPoolCode.TaskThread.Run: what tasks do to anything but the pool; the null check in its loop, since a null task never gets into a queue; thread start and join.
- TaskPoolCode.SyncQueue.Take: the overload that takes one element, which requires a non-empty queue; the single-lock queues beside it.
- Calendar: months, years and hours, which rest on the C library; of it only the weekday is used. Signed 64-bit overflow of a time is excluded.
- Redis, compression, logging, configuration, generated protocol code and demonstration programs.
