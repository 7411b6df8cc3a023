# Verified models of the Redis cache service

The repository is a REST service that keeps entities as JSON in Redis. Requests arrive over HTTP; the store is reached
through a pipelined client, a cluster client and a pool of connections; a CSV reader is kept beside them. This project
models the parts in which a fast, buffered, pipelined or concurrent form has to agree
with something simple, and proves that it does, or exactly when it does.

| file | models |
|---|---|
| LineReader.dfy | the three-block line reader over a byte source (`src/csv.h`) |
| AsyncReader.dfy | the worker thread that prefetches one block, as steps under one lock |
| CsvSpec.dfy, CsvRow.dfy | where a CSV column ends, trimming and unescaping; `parse_line` in place on an array |
| CsvTable.dfy | rows as RFC 4180 (section 2) writes them, header lines, reading columns by name |
| CsvNumber.dfy, CsvFloat.dfy | bounded integer parsing; floating-point parsing over exact reals |
| ThreadedPool.dfy | the connection pools as steps of any number of threads |
| Redirect.dfy | redirection texts and the synchronous cluster command (Redis Cluster Specification, "MOVED Redirection", "ASK redirection") |
| AsyncCommand.dfy | the asynchronous cluster command, one callback at a time |
| AsyncShared.dfy | several such commands, redirected over connections that they share |
| CrcRegister.dfy, Crc.dfy | the table-driven CRC16 (Redis Cluster Specification, "Appendix A") |
| KeySlots.dfy, SlotMap.dfy | hash tags, slots and the ordered map of slot ranges ("Key distribution model", "Hash tags") |
| GeneralCache.dfy | batch create and list by keywords over the sharded store |
| StreamBuf.dfy | the socket's stream buffer under any fragmentation |
| Decimal.dfy, RespCommand.dfy | decimal text; commands as RESP arrays of bulk strings, the bounded command buffer |
| RespReply.dfy | replies on the wire and the stream readers for them |
| PipelineState.dfy, Pipeline.dfy | lazy reply objects on the list of outstanding replies |
| PipelineFailed.dfy | the same objects on a connection whose stream has failed |
| PipelineRun.dfy | whole runs of the pipelined client against a client that has every response at once |
| Wrappers.dfy | an optional value |
| HttpHead.dfy | the HTTP request head, printed by the client and parsed by the server (RFC 7230, section 3) |

Where the code does not do what it looks like, the models keep the code and the theorems say when it matters:

- `next_line` looks at the byte behind the data before it tests the bound (src/csv.h:463). When a text lacks its final
  newline and that byte happens to be a newline, the end is never reported and the next call fails its assertion.
  `LineReader.ReadAll` gives the exact condition, `LineReader.StaleNewlineBreaks` for every block length a text for
  which it holds whatever the buffer held at first.
- A line reader deletes its buffer before its prefetching reader is destroyed. The worker may then read into freed memory
  exactly when a read is asked for or running and the worker has not returned (`AsyncReader.FreedUnderReaderIff`).
- `unescape` runs past the column when the text between the quotes ends in an odd number of quotes, and only then
  (`CsvSpec.OverrunIff`; `CsvRow.OverrunHappens` is a row on which it does).
- `process` looks at the reply to an ASK redirection but not at the reply to a MOVED one. After a stale slot table the
  owner of a slot on the move may answer that one with ASK, and `process` returns the ASK error as if it were the answer
  (`HiredisCommand.MovedThenAsk`). Every normal return means exactly one effect if and only if the slot table named the
  slot's owner (`HiredisCommand.ExactlyOnceIff`).
- `process` keeps a redirection's connection for ever when it is broken, on ASK and on MOVED, or when ASKING or the command
  behind it fails (`HiredisCommand.LeaksIff`). No run does so if and only if the slot table is fresh and the slot is not on
  the move (`HiredisCommand.NeverLeaksIff`). A connection that breaks behind MOVED goes back to its pool and is lost by
  whoever is redirected over it next (`HiredisCommand.BrokenComesBack`). Ten losses drain a pool and the next thread waits
  for ever (`ThreadedPool.ThrowingDeadlocks`).
- `parsehostport` rejects nothing, and reads the address back exactly when the host holds no colon.
- An asynchronous command follows its second redirection over the connection it opened for the first.
- Asynchronous commands redirected to one node share its connection, and the first to end disconnects it. Whoever waits on it
  then ends with its next reply, whatever that is (`AsyncShared.NextReplyIsLast`); no command is sent to that node by a
  redirection again (`AsyncShared.ShutForGood`); and a later one finds a freed connection in the container
  (`AsyncShared.TouchesIff`, `AsyncShared.SecondTouches`).
- Titles without a closed, non-empty hash tag do not share the slot of their `title:*` pattern with all their keys
  (`KeySlots.TitleSharesSlotIff`).
- Dropping an enumerator leaves the connection in step only under the condition of `PipelineState.EndsCleanly`: its header
  was read, and no null item comes before its last unread one.
- Assigning one enumerator to another loses the source's pending items, and the text of a target whose header was not
  read (`Pipeline.Client.AssignEnumerator`).
- An error reply where an integer is expected is taken for the reply when its text starts with a number; otherwise the
  accessor throws and leaves the stream failed, and from then on every read throws (`RespReply.IntegerErrorIff`,
  `RespReply.FailedForGood`). An object does not read twice, though: asked again and again it throws as often as reads are
  owed by it and by those before it, and then answers false, 0, none or the end (`PipelineFailed.AskedOften`).
- A bulk string that the end of the connection cuts short is returned filled up with NULs, without an exception
  (`RespReply.CutShortIsPadded`).
- A request line whose second space is followed by fewer than five characters makes the parser throw
  (`HttpHead.OutOfRangeIff`).
- An argument of four gigabytes or more is sent with a wrong length.

## Model

| member | source | states |
|---|---|---|
| LineSpec.LinesOfJoined | src/csv.h:441-490 | The reference split undoes writing lines with any mix of `\n` and `\r\n`; a line before `\r\n` may itself end in a carriage return, since one is dropped |
| LineSpec.LinesOfChopped | src/csv.h:474-485 | The same with the final newline missing, unless that leaves an empty last line |
| LineSpec.MarkIsDropped | src/csv.h:343-363 | The bytes EF BB BF in front of a text are dropped, once, and no other text is changed |
| LineReader.ByteSource.Read | src/csv.h:182-190 | A source returns fewer bytes than wanted only at its end, and puts them where asked |
| LineReader.RunSplitsRight | src/csv.h:441-490 | A run returns the reference split and the end exactly for texts with no line of B bytes or more that end in a newline or have no stale newline behind them; too long exactly for a line of B or more |
| LineReader.TooLongIff | src/csv.h:466-472 | A run ends with a line that is too long exactly when the text has B bytes without a newline in a row |
| LineReader.LineReader.constructor | src/csv.h:343-363 | The first two blocks are filled, a byte-order mark is skipped, the invariant holds |
| LineReader.LineReader.FinishRead | src/csv.h:247-259 | The n-th collected block is the next one of the text and as long as the n-th read of the synchronous reader; the caller must ask for nothing behind an empty block, the same predicate that guards the step in `AsyncReader` |
| LineReader.LineReader.CopyBlock | src/csv.h:450-457 | A block moves one block down and nothing else changes |
| LineReader.LineReader.Slide | src/csv.h:450-460 | The window moves on one block and keeps the invariant: no byte lost, data_begin below B |
| LineReader.LineReader.Refill | src/csv.h:454-459 | The worker's block is appended to the window; the third block stays a copy of it |
| LineReader.LineReader.Scan | src/csv.h:462-472 | Finds the end of the first line of the text that is left, or that it has B bytes or more |
| LineReader.LineReader.Terminate | src/csv.h:474-485 | The line is NUL-terminated with one carriage return dropped; nothing outside it changes |
| LineReader.LineReader.NextLine | src/csv.h:441-490 | Each call returns the first line of the text that is left and consumes it, or reports end or length exactly when the text says so |
| LineReader.ReadRest | src/csv.h:441-490 | Successive calls return what the run over the remaining text says |
| LineReader.ReadAll | src/csv.h:343-363 | Opening and reading out a source, for every block length above one: the exact outcome of the whole run over the text, or over what is behind its byte-order mark |
| LineReader.StaleNewlineBreaks | src/csv.h:463-490 | For every block length above one, a text of three blocks whose end is never reported, whatever the buffer held before |
| AsyncReader.InvStep | src/csv.h:202-270 | Every step of the worker and of the line reader keeps the invariant |
| AsyncReader.InvExec | src/csv.h:202-270 | The invariant holds in every reachable state |
| AsyncReader.ReaderIsSynchronous | src/csv.h:202-311 | Under every schedule the n-th finish_read returns what the synchronous reader's n-th read does; the third block is never copied while a read into it is asked for or running; no wait on a worker that is gone without a result |
| AsyncReader.BlockedProgress | src/csv.h:239-270 | While the client is blocked some thread can move, and every such move brings it closer to going on |
| AsyncReader.NoHang | src/csv.h:239-270 | A blocked client goes on within eight steps that are not spurious wake-ups, also in the destructor |
| AsyncReader.FreedUnderReaderIff | src/csv.h:261-270 | Once the line reader (src/csv.h:492-494) has deleted its buffer the worker reads into it on some schedule exactly when a read was asked for or running and the worker had not returned |
| CsvSpec.EndFromIsFirst | src/csv.h:764-780 | The scan stops at the first separator or end outside quotes, by quote parity |
| CsvSpec.ColumnEndIff | src/csv.h:751-780 | A column ends at a position exactly when that is the first one outside quotes with a separator or the line's end; the scan throws exactly when there is none |
| CsvSpec.OverrunIff | src/csv.h:782-801 | The copy loop runs past the end exactly when the inner text ends in an odd number of quotes |
| CsvSpec.InnerOfDoubled | src/csv.h:788-797 | Unescaping undoes the doubling of quotes, for every field |
| CsvSpec.UnescapeOfQuoted | src/csv.h:782-801 | Unescaping a quoted field gives the field back |
| CsvSpec.RunsHalve | src/csv.h:788-797 | A run of quotes in front of other text is read as half as many, an odd one as one |
| CsvSpec.PlainIsKept | src/csv.h:788-797 | Text without quotes is read as it is, whatever follows |
| CsvSpec.TrimOfPadded | src/csv.h:694-700 | Trimming takes the padding from both sides of any field that neither starts nor ends in it, and nothing else |
| CsvSpec.EndInsideDoubled | src/csv.h:766-777 | The scan passes over doubled text without leaving the quotes |
| CsvRow.FindUnquotedEnd | src/csv.h:751-755 | The loop finds the reference column end |
| CsvRow.FindQuotedEnd | src/csv.h:764-780 | The nested loops find the reference column end, or throw exactly when there is none |
| CsvRow.SkipQuoted | src/csv.h:769-777 | Quoted stretches that follow each other are passed over without changing where the column ends |
| CsvRow.CompactInner | src/csv.h:787-797 | In place, the inner text becomes its unescaped form; the write position never overtakes the read position; the overrun is met exactly when there is no unescaped form |
| CsvRow.UnescapeColumn | src/csv.h:782-801 | In place, the column becomes its unescaped text, NUL-terminated, and nothing outside it changes |
| CsvRow.TrimColumn | src/csv.h:694-700 | In place, the column becomes its trimmed text, NUL-terminated; only that NUL is written |
| CsvRow.ChopNextColumn | src/csv.h:838-853 | Cuts the column at the reference end and yields the rest of the line, or null at its end |
| CsvRow.ParseLine | src/csv.h:856-876 | The in-place loop has the outcome of the reference row, and each slot points to the NUL-terminated field of the last column sent to it |
| CsvRow.ReadRowIs | src/csv.h:856-876 | A row is read exactly when all its columns end, their number is the expected one, and every wanted one can be unescaped; otherwise the one error that the columns call for; each wanted slot gets what its column is read as |
| CsvRow.NoFieldIff | src/csv.h:782-801 | A column cannot be unescaped exactly when, trimmed, it is wrapped in quotes and the text between them ends in an odd number of quotes; so every error that speaks of an unreadable column says which texts those are |
| CsvRow.OverrunHappens | src/csv.h:782-801 | A row a file can hold, on which the copy loop leaves its column |
| CsvTable.RoundTrip | src/csv.h:856-876 | A row is read back field by field, each of its fields padded or not and quoted or not (quoted where it must be); too few and too many columns are reported exactly when the counts differ |
| CsvTable.OpenQuote | src/csv.h:764-780 | A quote that is never closed refuses the row for it when its column is expected, and for too many columns when it is not |
| CsvTable.PlacedKeeps | src/csv.h:896-919 | One more header field is accepted exactly when it is no duplicate and no forbidden extra, and the map stays a map |
| CsvTable.ScanIff | src/csv.h:885-920 | The header loop goes through exactly the headers without duplicates and forbidden extras whose fields can all be read, and otherwise stops at a field that is duplicated, forbidden or unreadable |
| CsvTable.HeaderIff | src/csv.h:879-927 | A header is accepted exactly when its columns can be read and none is duplicated, forbidden or missing; then the order is a map, injective on wanted columns. An extra name is a field of the header and not wanted, a duplicated one is wanted and occurs twice, a missing one is wanted and does not occur; bad text exactly when what stands before it is good |
| CsvTable.MissingIff | src/csv.h:921-926 | The last loop finds a missing name exactly when a wanted name is not in the header |
| CsvTable.ByName | src/csv.h:856-927 | For any header and any row, quoted or not: after an accepted header the row is read exactly when its columns end, it has as many as the header and the wanted ones can be unescaped, and the slot of each wanted name gets the field under it |
| CsvTable.WrittenByName | src/csv.h:856-927 | For such headers and rows: accepted exactly for good headers, read exactly for equal lengths, and each wanted name gets the field that was written under it |
| CsvTable.SameText | src/csv.h:897-897 | The comparison of a C string in the buffer with a name is text equality |
| CsvTable.CutField | src/csv.h:889-894 | The next column is cut off, trimmed and unescaped in place into the reference field, or refused as the reference says |
| CsvTable.ReadName | src/csv.h:888-919 | One round of the loop in place is one step of the reference scan |
| CsvTable.ParseHeaderLine | src/csv.h:879-927 | The in-place loop with its found flags computes the reference header result |
| CsvTable.ReadByName | src/csv.h:856-927 | Any header and any row, read in place, in one buffer or two: accepted exactly for good headers, refused with the right error, and each wanted slot points to the NUL-terminated field under its name |
| CsvNumber.SignedIsExact | src/csv.h:983-1004 | For digits with an optional sign: the value when it fits; otherwise the clamped value or the right error, by policy |
| CsvNumber.SignedTexts | src/csv.h:983-1004 | For a text put together from a sign or none and digits, under every policy: the value, the error, the limit, or what the digits come to before the limit is passed |
| CsvNumber.NoDigitIff | src/csv.h:955-1004 | Other text is refused exactly unless its leading digits are already out of range |
| CsvNumber.ParseUnsigned | src/csv.h:955-969 | The loop computes the reference result; no value it forms leaves the type's range |
| CsvNumber.ParseNegative | src/csv.h:984-1000 | The same behind a minus sign, with division towards zero in the guard |
| CsvNumber.ParseSigned | src/csv.h:983-1004 | The three cases of the sign |
| CsvNumber.KeptIs | src/csv.h:815-833 | When the guard fires the value so far is that of the longest prefix in range, which is what ignoring the overflow keeps |
| CsvFloat.ParsedIsDenoted | src/csv.h:1018-1078 | For well-formed text the result is sign times mantissa times ten to the exponent, the exponent clamped to int; the least int is the undefined case |
| CsvFloat.PlainFloat | src/csv.h:1018-1043 | Sign, digits, point and digits put together are read as the digits as one integer, scaled down by those behind the point, negated behind a minus sign |
| CsvFloat.ExponentFloat | src/csv.h:1045-1078 | With an exponent the same is scaled by it |
| CsvFloat.ExponentIs | src/csv.h:1045-1052 | The exponent is the number its sign and digits mean, brought into the range of int |
| CsvFloat.OtherFloat | src/csv.h:1072-1078 | Text that goes on with anything else is refused |
| CsvFloat.MantissaParts | src/csv.h:1027-1043 | Whole part plus tenths is the mantissa's digits as one integer, scaled by the digits behind the point |
| CsvFloat.ReadFraction | src/csv.h:1036-1043 | Each digit behind the point counts a tenth of the one before |
| CsvFloat.Scale | src/csv.h:1051-1071 | Squaring keeps the product while the exponent falls to one: the result is scaled by ten to the exponent |
| CsvFloat.ParseFloat | src/csv.h:1018-1078 | The whole of parse_float computes the reference number, or fails as the reference does |
| ThreadedPool.InvStep | src/redis/redis_source.hpp:82-183 | Every step of any thread keeps exclusive ownership, conservation, origin and wake-ups |
| ThreadedPool.PoolSafety | src/redis/redis_source.hpp:82-183 | In every reachable state no connection is held twice, queued plus held equals the pool size, a held or queued connection belongs to its pool, and while threads wait on a pool its queue is no longer than the wake-ups in flight |
| ThreadedPool.InvRelease | src/redis/redis_source.hpp:115-122 | A release returns the connection to its pool and leaves a wake-up in flight |
| ThreadedPool.InvHandOver | src/redis/redis_source.hpp:117-121 | notify_one turns one wake-up in flight into one woken thread |
| ThreadedPool.InvPop | src/redis/redis_source.hpp:99-113 | Taking a connection keeps the invariant |
| ThreadedPool.StuckIffDrained | src/redis/redis_source.hpp:99-122 | No thread can move exactly when every unfinished thread sleeps on a pool whose connections are all lost to threads that threw |
| ThreadedPool.CalmRunsEnd | src/redis/redis_source.hpp:99-122 | Runs without spurious wake-ups are bounded in length |
| ThreadedPool.AllFinish | src/redis/hirediscommand.h:161-231 | Without throws no set of threads deadlocks: every run can only end with all of them finished |
| ThreadedPool.ThrowingDeadlocks | src/redis/hirediscommand.h:175-223 | A run of eleven threads in which ten throw and the last waits for ever |
| RedirectText.ReadsBackIff | src/redis/hiredisprocess.h:56-70 | The address in a well-formed redirection is read back exactly when the host has no colon |
| RedirectText.NeverRejects | src/redis/hiredisprocess.h:58-69 | No text is ever rejected: npos plus one wraps to zero, so the throwing branch is dead; behind a host position without a colon the host is all the rest and the port the whole text |
| HiredisCommand.FirstReplyDecides | src/redis/hirediscommand.h:161-173 | No reply and an error with CLUSTERDOWN anywhere in it throw; data and errors that are no redirection are returned; the connection is released in any case |
| HiredisCommand.MovedRun | src/redis/hirediscommand.h:203-223 | Event by event, what process does behind MOVED over a good connection |
| HiredisCommand.AskRun | src/redis/hirediscommand.h:175-201 | Event by event, what it does behind ASK: ASKING, and the command on the same connection directly behind it |
| HiredisCommand.RedirectionIsRead | src/redis/hiredisprocess.h:72-98 | Both redirection texts are recognised, and their addresses read |
| HiredisCommand.FirstAnswer | src/redis/hirediscommand.h:168-172 | The first answer has effect and is final, or redirects to where the slot is |
| HiredisCommand.LeaksIff | src/redis/hirediscommand.h:161-231 | For every first node and every behaviour of nodes and connections: at most two sends and one effect; a taken connection is never given back exactly when it is the redirection's and is broken, or ASKING failed on it, or the answer behind ASKING was none or CLUSTERDOWN; never more than one, never on a normal return |
| HiredisCommand.NeverLeaksIff | src/redis/hirediscommand.h:161-231 | No run loses a connection if and only if the first node is the slot's owner and the slot is not on the move |
| HiredisCommand.OnTheMoveTexts | src/redis/hiredisprocess.h:56-98 | The assumptions about addresses and slot texts can be met, by a slot on the move |
| HiredisCommand.ExactlyOnceIff | src/redis/hirediscommand.h:161-231 | Every normal return means that the command took effect exactly once, on the owner or on the importing node directly behind ASKING, if and only if the first node was the slot's owner |
| HiredisCommand.ReturnIsRightIff | src/redis/hirediscommand.h:161-231 | Run by run: a normal return means exactly one effect unless it hands on what answered a redirected MOVED and that is no answer |
| HiredisCommand.BrokenComesBack | src/redis/hirediscommand.h:203-223 | With a stale slot table there is a run that releases a connection lost behind MOVED, and one that takes a broken one and keeps it |
| HiredisCommand.HiredisCommand.FollowAsk | src/redis/hirediscommand.h:175-201 | ASKING and the command on one connection: in every world its events and outcome are the modelled ones |
| HiredisCommand.HiredisCommand.FollowMoved | src/redis/hirediscommand.h:203-223 | The same for MOVED: a broken connection throws before the release, the second reply is returned unchecked |
| HiredisCommand.HiredisCommand.Process | src/redis/hirediscommand.h:161-231 | In every world the call's events and outcome are those of the run that the lemmas above are about |
| HiredisCommand.MovedThenAsk | src/redis/hirediscommand.h:203-223 | For every stale first node and every slot on the move there is a run that returns the ASK error with no effect anywhere |
| AsyncCommand.AsyncHiredisCommand.ProcessCommandReply | src/redis/asynchirediscommand.h:291-373 | The callback is the modelled step for every reply and every behaviour of the world |
| AsyncCommand.AsyncHiredisCommand.AskingCallback | src/redis/asynchirediscommand.h:245-289 | The same for the reply to ASKING |
| AsyncCommand.AsyncHiredisCommand.Retry | src/redis/asynchirediscommand.h:375-385 | A retry resends, or ends the command |
| AsyncCommand.DeliverOnce | src/redis/asynchirediscommand.h:245-385 | One callback leaves the command waiting for exactly one callback, or completed once |
| AsyncCommand.CompletesOnce | src/redis/asynchirediscommand.h:234-385 | Over every sequence of replies, failures and retries: one pending callback and alive, or none pending, one user callback, one deletion |
| AsyncCommand.EveryCommandCompletesOnce | src/redis/asynchirediscommand.h:78-94 | The same for every command whose first send was accepted |
| AsyncCommand.FollowsNewAddressIff | src/redis/asynchirediscommand.h:304-331 | A redirection goes to the node it names exactly when it is the first, or names the node of the first |
| AsyncCommand.EverySendIsJustified | src/redis/asynchirediscommand.h:245-385 | In every run: ASKING is sent on the redirection's connection behind ASK only; the command itself goes there only behind MOVED, behind OK to an ASKING sent there, or in a wanted and accepted retry of a reply from there; it is sent on the slot's connection again only in retry of a reply from that |
| AsyncCommand.RedirectionIsFollowed | src/redis/asynchirediscommand.h:304-341 | After ASK, with connect and send working, exactly an ASKING is pending, after MOVED exactly the command, on the connection the command has or else one to the node named |
| AsyncCommand.AskedIsSent | src/redis/asynchirediscommand.h:253-262 | OK to ASKING leaves exactly the command pending, on the same connection |
| AsyncCommand.RepliesDecide | src/redis/asynchirediscommand.h:291-385 | No reply, CLUSTERDOWN, ASKING not answered with OK, and a redirection that cannot be followed leave the command pending on the connection the reply came from when a retry is wanted and accepted, and else end it; every other reply ends it |
| AsyncShared.InvStep | src/redis/asynchirediscommand.h:217-385 | Every callback of any command keeps it: commands wait once or completed once; a connection is open exactly until the first command that used it has ended, and freed exactly when it is not open and nobody waits on it |
| AsyncShared.SharedRunsKeep | src/redis/container.h:81-100 | The same in every state that runs of any number of commands over any number of connections reach |
| AsyncShared.NextReplyIsLast | src/redis/asynchirediscommand.h:217-222 | A command that waits on a connection another one has disconnected ends with its next reply: what that reply leads to, the command behind ASKING, a redirection or a retry, is not sent |
| AsyncShared.ShutForGood | src/redis/container.h:81-100 | Once the first command that used a connection has ended, no run sends any command over it again |
| AsyncShared.ServedIff | src/redis/container.h:81-100 | A command that its slot's node redirects can be sent on exactly when the connection it goes to is not yet made or still open |
| AsyncShared.TouchesIff | src/redis/asynchirediscommand.h:217-331 | A callback uses a freed connection exactly when the one it sends on or disconnects was used by a command that has ended and nobody waits on it |
| AsyncShared.SecondTouches | src/redis/container.h:81-100 | For every MOVED text, a run of two commands one after the other in which the second uses a freed connection |
| CrcRegister.ShiftsLinear | src/redis/slothash.h:36-78 | Shifting the register is linear over exclusive or |
| CrcRegister.FeedBits | src/redis/slothash.h:73-77 | Shifting a register with message bits in it is feeding those bits one at a time |
| Crc.TableIsShift8 | src/redis/slothash.h:38-71 | Each of the 256 table entries is eight shift steps of its index |
| Crc.ComputeCrc16 | src/redis/slothash.h:73-77 | The loop computes the checksum function |
| Crc.StepIsShifts | src/redis/slothash.h:75-76 | A table step is eight shifts of the register with the byte put in |
| Crc.LoopDivides | src/redis/slothash.h:36-78 | For every byte string the table loop equals the bit-by-bit division by 0x1021 |
| Crc.ChecksumDivides | src/redis/slothash.h:36-78 | The checksum of a message is the remainder of its bits, divided from an empty register |
| Crc.CheckValue | src/redis/slothash.h:36-78 | The check value of this CRC (Redis Cluster Specification, "Appendix A"): 31C3 for the digits 1 to 9 |
| Crc.CrcLinear | src/redis/slothash.h:36-78 | Linear over exclusive or on inputs of equal length |
| Crc.SelfCheck | src/redis/slothash.h:36-78 | Zero on any message followed by its own checksum, high byte first |
| KeySlots.ComputeSlot | src/redis/slothash.h:82-101 | The slot is the low 14 bits of the remainder of the bits between the first brace and the next closing one, when there is something between them, and else of the whole key's bits; below 16384 |
| KeySlots.SlotOfTag | src/redis/slothash.h:85-100 | For every way to write a key as text without an open brace, a brace, a non-empty tag without a closing brace, a closing brace and anything: the slot is that of the tag's bits |
| KeySlots.SlotOfWhole | src/redis/slothash.h:87-97 | A key that cannot be written so has the slot of all its bits |
| KeySlots.UserSlot | src/redis/slothash.h:82-101 | A known slot: 5474 for {user}:1 |
| KeySlots.TagOfPrefix | src/redis/slothash.h:85-100 | A closed tag decides whatever follows it |
| KeySlots.LastByteCounts | src/redis/slothash.h:36-101 | Keys hashed whole that differ in their last byte only have different slots |
| KeySlots.TitleSharesSlotIff | src/redis/redis_source.hpp:2208-2208 | All keys of a title share the slot of its pattern exactly when the title has a closed, non-empty tag |
| SlotMap.LowerBound | src/redis/container.h:105-106 | The first entry not below a key |
| SlotMap.InsertedKeeps | src/redis/container.h:79-79 | Inserting keeps the map sorted, loses nothing, and leaves an entry with the same key alone |
| SlotMap.LoadedStep | src/redis/cluster.h:185-207 | One more range of the reply keeps the map loaded |
| SlotMap.Cluster.Init | src/redis/cluster.h:180-214 | Ready exactly for well-formed replies; the map holds only ranges of the reply, and all of them when they are disjoint |
| SlotMap.Cluster.SearchBySlots | src/redis/container.h:102-126 | Refines linear search: the unique range of the slot, the exception exactly when there is none, undefined exactly when every range starts above the slot |
| SlotMap.Cluster.GetConnection | src/redis/cluster.h:117-126 | Not initialised exactly before Init succeeded; otherwise the range that serves the key's slot |
| SlotMap.RouteKey | src/redis/cluster.h:117-214 | With ranges that are disjoint and cover all slots every key finds the one range that serves it |
| GeneralCache.LatestIsWritten | src/redis/redis_source.hpp:2199-2227 | A key has a latest value exactly when it was written |
| GeneralCache.ApartIff | src/redis/redis_source.hpp:2397-2405 | The pattern of one title selects no key of another exactly when neither continues the other behind a colon |
| GeneralCache.Cache.CreateOne | src/redis/redis_source.hpp:2208-2225 | exists, del and hset leave the text under title, colon and id on the node that owns that key's slot, and no other key changes |
| GeneralCache.Cache.BatchCreate | src/redis/redis_source.hpp:2192-2227 | A batch is the writes of its items in order |
| GeneralCache.Cache.ListByKeywords | src/redis/redis_source.hpp:2386-2426 | Lists once each exactly the written keys that start with title and colon and lie on the node of the pattern's slot, with their latest values; a value that was stored with a newline behind it is listed without |
| GeneralCache.Cache.ListTitle | src/redis/redis_source.hpp:2386-2426 | For a tagged title, after any batches: every id's latest value once, without its newline, and nothing of another title |
| GeneralCache.Cache.CreateThenList | src/redis/redis_source.hpp:2192-2426 | A batch of texts stored with newlines and the list of its title behind it: exactly the ids of the batch, each with the text of its last item |
| StreamBuf.ClientSocket.Write | src/redis/redispp.cpp:130-142 | All bytes are sent in order under any partial sends, or a proper prefix when it throws |
| StreamBuf.StreamBuf.Underflow | src/redis/redispp.cpp:203-208 | Refills without losing, repeating or reordering |
| StreamBuf.StreamBuf.Get | src/redis/redispp.cpp:203-208 | Delivers the next byte of the peer's stream |
| StreamBuf.StreamBuf.ReadRest | src/redis/redispp.cpp:234-240 | The direct path delivers the rest of a large read in order |
| StreamBuf.StreamBuf.Xsgetn | src/redis/redispp.cpp:210-248 | Delivers exactly the next bytes through either path; throws exactly when the stream is shorter |
| Decimal.PrintReadsBack | src/redis/redispp.cpp:388-400 | A printed number is read back whatever non-digit follows |
| Decimal.DigitsCount | src/redis/redispp.cpp:388-400 | Digits count up from 0, and no number is printed with needless ones in front |
| Decimal.Print32Fits | src/redis/redispp.cpp:314-314 | A 32-bit length has at most ten digits |
| RespCommand.CommandReadsBack | src/redis/redispp.cpp:441-451 | A RESP parser decodes name and arguments, for arbitrary binary words, and leaves what follows |
| RespCommand.PipelineDecodesUniquely | src/redis/redispp.cpp:408-434 | A concatenation of commands decodes in one way only |
| RespCommand.WireOfTwo | src/redis/redispp.cpp:408-434 | Letter by letter, a command of two words |
| RespCommand.WrittenIsBulkIff | src/redis/redispp.cpp:311-331 | What writeArg puts down is a bulk string exactly below four gigabytes |
| RespCommand.Buffer.WriteArg | src/redis/redispp.cpp:322-331 | One reservation covers every copy, so nothing is written past the end; appends exactly the argument, or nothing when full |
| RespCommand.Command.Execute | src/redis/redispp.h:27-55 | Appends header and arguments exactly when every reservation fits; what was there before stays |
| RespCommand.SendCommand | src/redis/redispp.cpp:408-434 | What is sent decodes to this command whatever follows it; nothing is sent exactly when the buffer is too small |
| RespReply.StatusReadsBack | src/redis/redispp.cpp:726-737 | A status line is read behind any leftover line ending, and leaves a newline |
| RespReply.IntegerReadsBack | src/redis/redispp.cpp:739-748 | The same for integers, of either sign |
| RespReply.BulkReadsBack | src/redis/redispp.cpp:757-780 | The same for bulk strings and null |
| RespReply.CutShortIsPadded | src/redis/redispp.cpp:757-780 | A bulk string whose text is cut short by the end of the stream is returned with its length, filled up with NULs, and the stream has failed |
| RespReply.RepliesAreReads | src/redis/redispp.cpp:726-780 | On a good stream the readers with a fail bit read what those of the round trips read |
| RespReply.IntegerErrorIff | src/redis/redispp.cpp:739-748 | An error where an integer is expected: the accessor throws, and leaves the stream failed, exactly when the error's text does not start with a number; otherwise the reply is that number, sign and all digits |
| RespReply.BulkErrorFails | src/redis/redispp.cpp:757-780 | Where a bulk string is expected the accessor always throws, and leaves the stream failed in the same case |
| RespReply.StatusErrorKeepsStep | src/redis/redispp.cpp:726-737 | Where a status line is expected it throws and leaves the stream in step |
| RespReply.FailedForGood | src/redis/redispp.cpp:637-780 | Once the stream has failed every read throws, of a status, an integer, a bulk string or an enumerator's header, in whatever order they come |
| PipelineFailed.ThrownScalarIsDone | src/redis/redispp.cpp:513-606 | A scalar whose own read threw, on any stream, reads no more and answers what it held before |
| PipelineFailed.ErrorForEnumerator | src/redis/redispp.cpp:637-666 | An error in place of an enumerator's header throws; asked again the enumerator is at its end, unless the error's text starts with a positive number, which it then takes for its item count |
| PipelineFailed.GoodReadIsAccessor | src/redis/redispp.cpp:513-606 | On a good stream a scalar's read is that of its accessor: it throws exactly when nothing can be read, and else holds the value |
| PipelineFailed.GoodHeaderCounts | src/redis/redispp.cpp:637-657 | A good header gives the enumerator its count of items |
| PipelineFailed.AskThrowsIff | src/redis/redispp.cpp:487-525 | On a failed stream an accessor throws exactly when its object or one before it has a read to make, and each throw uses up one read of the connection |
| PipelineFailed.AskedOften | src/redis/redispp.cpp:487-666 | Asked over and over an object throws exactly as often as reads are owed by it and those before it, and never after that |
| PipelineFailed.ThrowsAreBounded | src/redis/redispp.cpp:487-666 | In whatever order objects are asked, there are no more exceptions than reads were outstanding |
| PipelineFailed.FailedClient.ClearPending | src/redis/redispp.cpp:487-497 | The loop stops at the first object that has to read, and leaves all others as they are |
| PipelineFailed.FailedClient.Result | src/redis/redispp.cpp:513-606 | A scalar's accessor is that step: an exception, or the value it holds |
| PipelineFailed.FailedClient.NextOptional | src/redis/redispp.cpp:626-666 | An enumerator's is: an exception, the next pending item, or the end |
| PipelineState.FrontOwes | src/redis/redispp.cpp:487-497 | The first object with something to read is at the front of the stream |
| PipelineState.Appended | src/redis/redispp.cpp:457-465 | A new reply object extends list and stream together |
| PipelineState.FrontRead | src/redis/redispp.cpp:626-666 | Reading the front object in part keeps list and stream in step |
| PipelineState.FrontDone | src/redis/redispp.cpp:513-525 | Reading it to its end and unlinking it does too |
| PipelineState.DrainedIsRight | src/redis/redispp.h:349-362 | Reading an object to its end keeps its response: handed out, pending and unread still make it up |
| PipelineState.ScalarReadsBack | src/redis/redispp.cpp:513-606 | Each scalar accessor's reader gives the meaning of the response and consumes exactly its text |
| PipelineState.WireMeanings | src/redis/redispp.cpp:513-606 | Letter by letter, each scalar's response on the wire and what its accessor gives: a bool is true exactly for numbers above nought |
| PipelineState.WireList | src/redis/redispp.cpp:637-666 | Letter by letter, a list of items on the wire and the count that is read from its header |
| PipelineState.MovedKeeps | src/redis/redispp.cpp:467-485 | An object may take another's place in the list without the stream noticing |
| PipelineState.RemovedText | src/redis/redispp.cpp:612-624 | Unlinking an object keeps the stream in step exactly when the object had nothing left to read |
| Pipeline.Client.Execute | src/redis/redispp.cpp:457-465 | A sent command adds its object at the end of the list |
| Pipeline.Client.Construct | src/redis/redispp.h:89-91 | A default-constructed object stands for an empty response and is not on the list |
| Pipeline.Client.ReadItem | src/redis/redispp.cpp:637-666 | The next item of the enumerator at the front, in order, or its end |
| Pipeline.Client.DrainEnumerator | src/redis/redispp.h:349-362 | All unread items go to the pending list, in order |
| Pipeline.Client.ClearPending | src/redis/redispp.cpp:487-497 | Every earlier reply is read into its own object; the object itself comes to the front untouched |
| Pipeline.Client.Result | src/redis/redispp.cpp:513-606 | The value is the meaning of this object's own response, in whatever state the others are |
| Pipeline.Client.NextOptional | src/redis/redispp.cpp:626-666 | The items of the object's own response in order, each once, then the end |
| Pipeline.Client.Copy | src/redis/redispp.cpp:467-474 | The copy stands for the response from then on and gets pending items too; the source of an unread reply is left empty, and a scalar that was read keeps its value |
| Pipeline.Client.Assign | src/redis/redispp.h:161-167 | The target's own reply is read first; then it stands for the source's response |
| Pipeline.Client.AssignEnumerator | src/redis/redispp.h:330-343 | For two enumerators: throws exactly when a null item is among the target's unread ones; otherwise list and stream stay in step exactly when the target was done or its header read, and no item is lost exactly when the source has none pending |
| Pipeline.Client.AssignToItself | src/redis/redispp.h:330-343 | An enumerator assigned to itself throws exactly when a null item is among its unread ones; otherwise all its items are gone, and the stream and all other objects stay as they are |
| PipelineState.AssignedBooks | src/redis/redispp.h:338-341 | Handed-out, pending and unread items still make up the response after the assignment exactly when the source has none pending |
| Pipeline.Client.Destroy | src/redis/redispp.cpp:503-624 | The connection stays in step exactly when the object is a scalar, was read, or its unread items but the last are not null and its header was read |
| PipelineRun.CanDropIff | src/redis/redispp.cpp:612-624 | The caller's books tell exactly when an object ends cleanly: a scalar, or an enumerator that was read on whoever's behalf, or one whose header was read with no null item before its last |
| PipelineRun.CanAssignIff | src/redis/redispp.h:330-343 | They tell as exactly when an enumerator assignment loses nothing: no unread header or null item in the target, no pending item in the source |
| PipelineRun.AskedMirrors | src/redis/redispp.cpp:487-497 | Reading one object reads exactly those sent before it, and changes nothing in any other |
| PipelineRun.Do | src/redis/redispp.cpp:457-680 | Every operation of the pipelined client simulates the simple client's |
| PipelineRun.Play | src/redis/redispp.cpp:457-680 | Pipelining is transparent: for every sequence of constructions, sends, asks, copies, assignments and drops, in any order, in which no enumerator is dropped or assigned with something left to lose, the answers are those of a client that has each response at once |
| HttpHead.Stream.GetLine | src/server_http.hpp:350-350 | One line is taken off the stream, without its newline |
| HttpHead.BlankLineEnds | src/server_http.hpp:291-305 | Text that read_until accepted has a line without a colon, so the header loop ends |
| HttpHead.ReadHeader | src/server_http.hpp:360-373 | The loop collects the reference header map and leaves the reference rest |
| HttpHead.ParseRequest | src/server_http.hpp:346-377 | Request line and header as the reference reads them, for every text with a blank line, with the out-of-range exception where substr throws |
| HttpHead.OutOfRangeIff | src/server_http.hpp:346-358 | The request line throws exactly when fewer than five characters follow its second space, and nothing is read exactly when it has no second space |
| HttpHead.ParseResponse | src/client_http.hpp:168-192 | The same for the status line |
| HttpHead.StatusOutOfRangeIff | src/client_http.hpp:168-180 | The status line throws exactly when it has a space and fewer than five characters |
| HttpHead.PrintRequest | src/client_http.hpp:41-73 | Letter by letter, what is printed: the request line with the path, or a slash for none, Host, the given headers, Authorization exactly with credentials, Content-Length exactly with content, the blank line and the content |
| HttpHead.FieldsReadBack | src/server_http.hpp:360-373 | Printed header lines are read back, the last of a name winning, and the body is left |
| HttpHead.MergedExactly | src/server_http.hpp:369-369 | With distinct names the map holds exactly the printed fields |
| HttpHead.HeadRoundTrip | src/client_http.hpp:54-73 | Parsing the printed head recovers method, path, version 1.1 and all headers, and leaves exactly the content |
| HttpHead.LengthWins | src/server_http.hpp:316-325 | Whatever headers are given, the Content-Length the server reads by is the length of the content |
| HttpHead.SendHead | src/server_http.hpp:346-377 | Client to server: the method, the path or a slash for none, version 1.1 and the content are recovered; the credentials and the content's length whatever headers were given; and when no name comes twice exactly Host, the given headers and those generated, each with its value |
| HttpHead.ResponseReadsBack | src/client_http.hpp:168-192 | A response head written the usual way is read back |

## Left out

- LineReader.LineReader.FinishRead: the read happens when its result is collected; that a worker thread delivers the same
  lengths under every schedule is `AsyncReader.ReaderIsSynchronous`, under the same `AsyncReader.MayFinish`. Exceptions
  thrown by the byte source are not modelled.
- LineReader.LineReader.NextLine: file names, line numbers and error texts are not modelled; the block length is any number
  above one.
- LineReader.LineReader.Scan: a read of the byte at twice the block length that races with the worker's read is modelled as
  reading the old byte; the bound decides there either way.
- CsvRow.TrimColumn: tests the bound of its second loop before the character; the source tests it after, and so looks at the
  byte in front of an empty column.
- CsvRow.CompactInner: stops with an outcome of its own where the source's loop runs past the column.
- CsvFloat.ParseFloat: arithmetic is over exact reals; rounding is not modelled.
- CsvFloat.ParsedIsDenoted: negating the least int is undefined and is an outcome of its own.
- SlotMap.Cluster.SearchBySlots: stepping back from the first entry is undefined and is an outcome of its own.
- SlotMap.Cluster.Insert: connects succeed; host and port are part of the entry.
- ThreadedPool.InvOpen: filling a pool succeeds; a failed fill, which leaves a partial pool in the map, is not modelled,
  nor are `disconnect` and a second fill of a slot pool.
- AsyncCommand.AsyncHiredisCommand.ProcessCommandReply: subscribed commands, which are not deleted, and exceptions of `stoi`
  on a port that is no number are not modelled.
- AsyncShared.InvStep: what `redisAsyncDisconnect` does is taken from hiredis, which is not part of this model: no more
  commands are taken, replies that are owed still come, and then the connection is freed. Closing the whole container is
  not modelled.
- HiredisCommand.HiredisCommand.Send: that a lost connection gives a null reply is an assumption about hiredis: the code
  leaves `reply` uninitialised and ignores the result of `redisGetReply` (src/redis/hirediscommand.h:148-154). A node
  answers in any way the cluster protocol allows while slot ownership stays as it is; changes of ownership during the call
  are not modelled.
- GeneralCache.Cache.ListByKeywords: titles with characters that mean something to the KEYS pattern are not modelled, nor is
  the JSON text itself.
- Pipeline.Client.Execute: responses have the type their command asks for; error replies, which make an accessor throw, are
  modelled on the wire (`RespReply.IntegerErrorIff` to `RespReply.FailedForGood`) and in what objects answer once the
  stream has failed (`PipelineFailed`).
- Pipeline.Client.TakePlace: objects live in a store under ids, and the intrusive list is a sequence of ids, so C++ object
  lifetimes and addresses are not captured.
- Pipeline.Client.AssignToItself: an enumerator that is connected and has no items to count asks for its place in a list it
  has just left, which is undefined and not part of the model.
- PipelineRun.Play: enumerator assignments that lose items, and drops that leave the connection out of step, are not part
  of a run; what they do is `Pipeline.Client.AssignEnumerator` and `Pipeline.Client.Destroy`.
- RespReply.BulkReadsBack: lengths are unbounded integers; the width of `count` is not modelled.
- StreamBuf.StreamBuf.Get: the output half of the stream buffer is `ClientSocket.Write`; its small output buffer is not
  modelled.
- HttpHead.PrintRequest: credentials come encoded already; base64 is not part of this model.
- Transactions, `type`, `quit`, subscriptions and queued replies of the pipelined client do not keep the reply list's
  discipline.
- The other handlers in `src/redis/redis_source.hpp` are near copies of the general ones.
- Sockets, TLS, timers, curl, regular expressions, logging, configuration and JSON are foreign libraries.
