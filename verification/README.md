# GETFILE: a verified model

GETFILE is a small file-transfer protocol with a C client, a sequential server, a
multithreaded server and a proxy. A client sends `GETFILE GET <path>`, the server
answers `GETFILE <status> <length>` and the bytes of a file it looks up in a content
table. This project models the parts in which the difficulty lies, and proves that
they do together what the protocol is for.

## The main results

**Threaded refines sequential.** `BossWorker` is a machine of one boss and any number
of workers that share a queue, a mutex, a condition variable and the file
descriptors. A step is one pthread call, one queue operation or one system call; any
enabled step may come next; a wait may return without a signal. In every run, a
served request was answered with the bytes, the return value and the connection
state the single-threaded handler comes to, run by itself on the same path and given
the same answers by the system (`ThreadedRefinesSequential`), although other threads
move the offset of the descriptor it reads from between any two of its calls. On the
way: mutual exclusion, no pop of an empty queue, no lost wake-up although the boss
signals only after it has unlocked, first in first out, one owner for every request,
one free and no use after it. `Liveness` adds a bound on the length of every run and
shows that nothing is left to do exactly where nothing can move
(`StuckOnlyWhenDone`), and that from every reachable state everything can still be
served without a further fault (`CanFinish`). The loop of the handler is a method
proved to be a run of the same machine that makes the same calls of `send` and `pread`
(`Transfers.HandlerGet`), and every run can be carried out with the linked list as the
queue (`ThreadPools.CarryOut`).

**End to end.** For every content list, every path the protocol allows, every
fragmentation of request and response, every short read and write, and whatever is
left in the request buffer of the server and the receive buffer of the client: the
client ends with what the list maps the path to (the bytes of that file, or
FILE_NOT_FOUND and no bytes) if and only if every `send` of the server took all it was
given and every `pread` got something, the response header came whole in the client's
first chunk, and the length of the file fits an int. `EndToEnd.SequentialClientGetsTheFile` says so of one connection of
the sequential server, all of whose source is in pr1/gflib, and
`EndToEnd.EveryClientGetsItsFile` of each client in any list of them, whatever the
others sent. `EndToEnd.ClientGetsTheFile` says so of the threaded server, in every
interleaving of the workers, but for the path the worker reads: the boss copies the
path without its NUL, so that is the path the client asked for exactly when a NUL
happens to lie behind the copy.

**Assumption of the threaded build.** pr1/mtgf links an object file for the server
library and another for the client library whose source is not in the repository. The
threaded end-to-end result takes them to gather and parse requests and to print and
read responses as pr1/gflib does. The results of `BossWorker`, `Liveness` and
`ThreadPools` do not depend on how a request was gathered or parsed; they use the
library's response header only through `gfs_sendheader`.

## Modules

| module | models |
|---|---|
| CString, Tokens, Decimal | C strings in memory, `strstr`, `strcmp`; `strtok` as values and as a class with a buffer and a saved pointer; `%d`, `atoi`, and the casts to `int` and `size_t` |
| Protocol, Grammar | the two message printers, the two parsers, and what the parsers accept said without `strtok` |
| Network, Server, Client | a stream cut into chunks and ended by a close or an error; `get_request` and one connection of the sequential server; the receiving half of `gfc_perform` |
| Content, Files | the content table from its list file to the binary search; descriptors with shared offsets |
| Steques | the linked list with two ends and its meaning as a sequence |
| Transfers | one request, one system call at a time, and the sequential handler |
| BossWorker, Liveness, ThreadPools | the multithreaded server, its invariants, its progress, and its globals with the linked list |
| EndToEnd | the composition |
| Workload, Download, Curl | the client's shared path counter, the making of local directories, the proxy's accumulator buffer |

Bytes are integers 0..255 and a C string is the run of bytes before the first NUL.
What the system decides (how much `recv`, `send` and `pread` move, which thread moves
next, which waiter a signal wakes) is arbitrary: an event in the machine, a
nondeterministic result in a method. An event carries what was asked and what came of
it; the methods' connection, kernel and file tree record each call in the same way, so
that no contract can blame a call that was not made.

## Where the code falls short of the wish, and exactly when

- `handler_get` copies `strlen(path)` bytes, without the NUL, into memory from malloc
  (pr1/mtgf/handler.c:136-139). The worker reads the path asked for exactly when the
  byte behind the copy is NUL (`CopiedWhole`); in memory that held a longer path it
  reads the new one followed by the tail of the old (`CopiedOverLonger`), as when
  freed requests are allocated again. A client asking for a path on the list is then
  told that there is no such file (`StaleMemoryMisleads`).
- A client that sends nothing is served the request of the client before it, since the
  buffer is parsed all the same (`SilentClientRepeats`); any other is answered for its
  own bytes (`HeardIs`).
- The header size the client computes is the end of the `strstr` match exactly when
  no CR or LF comes before it, and less otherwise (`HeaderSizeMeetsTerminator`); one
  CR too many behind the line is accepted with a size one short (`HeaderSizeFallsShort`).
- A length passes through `(int)` on the server and `atoi` and `(size_t)` on the client; it
  survives exactly up to 2^31-1 or from 2^64-2^31 on (`SizeThroughInt`). A longer file is
  announced wrongly, and the client then fails or succeeds with other bytes.
- A path survives the request exactly when it starts with a slash and has no blank,
  CR or LF (`RequestRoundTrip`); other paths starting with a slash are cut at the first
  of those bytes (`RequestRecovers`).
- The client looks for the header in its first `recv` only. Whatever its buffer held
  before, it succeeds exactly when the header comes whole in the first chunk and as much
  of a body as it announces (`FirstChunkDecides`).
- A body cut short gives -1 if the peer closed; if `recv` failed, the -1 is taken for a
  size and the behaviour is undefined (`ReceptionIs`).
- The handler ignores what `gfs_sendheader` returns. A run puts the whole response on
  the wire exactly when every call did all it was asked (`WholeResponse`); behind a
  header cut short the client cannot get the file (`PartialHeader`).
- The last row of a content list is read as it stands exactly when a newline or a blank
  follows its path, and all files can be opened (`LastRowNeedsTail`); without, the path
  loses its last byte (`UnterminatedRow`).
- `workload_get_path` reads the counter again after its inner unlock. Taken by itself it
  hands the paths out in turn, in every run, exactly when the callers hold an outer
  mutex, or there is one thread, or one path (`InTurnExactlyWhen`). The one
  multithreaded caller does hold an outer mutex (pr1/mtgf/gfclient_download.c:104-106),
  so the client as it is does hand them out in turn (`RoundRobin`).

## Where the code and its documentation differ

- pr1/Readme.md:182 omits the length for FILE_NOT_FOUND and ERROR; the server prints 0
  (pr1/gflib/gfserver.c:61-71). The model prints it.
- pr1/Readme.md:163 ends a path at white space; the server ends it at a space, a tab,
  CR or LF. The model does the same.
- pr1/Readme.md:161-162 fix the scheme and the method; the order of the tests in the
  server is scheme, method, path, and each failure is answered with FILE_NOT_FOUND.

## How undefined behaviour is modelled

A NULL token that would reach `strcmp` or `path[0]` is the outcome `Undefined` (client)
or `Malformed` (server); so is a number that does not fit an int in `atoi`. A computed
header size beyond what was received, and a `recv` that fails in the body, whose -1 the
code hands to the write callback as a size, make the client's return value `None`.
The copies the parsers make (`temp_buffer[strlen(buffer)]`) are taken to have room for
their NUL, and the request buffer to have the one cell more that `get_request` writes
its NUL to when the buffer is full. A line of the content list that starts with a NUL
makes C write the byte before the key (pr1/mtgf/content.c:36), the last of the
descriptor that `open` is about to set; the model takes only what comes of it, the exit
for want of a path.

## Model

| member | source | states |
|---|---|---|
| BossWorker.ThreadedRefinesSequential | pr1/mtgf/handler.c:62-106 | in every interleaving, a served request has the bytes, return value and connection state of the single-threaded handler alone, with the same system answers, on the path the worker reads: the one copied, followed by what the schedule's block for that request holds; and those are right for the file that path is mapped to |
| BossWorker.InvStep | pr1/mtgf/handler.c:32-106 | every step of the boss and of every worker keeps the whole invariant: types, mutual exclusion, wake-ups, queue order, ownership, and each transfer where the handler alone would be |
| BossWorker.InvAlways | pr1/mtgf/handler.c:32-129 | the invariant holds after every schedule, from the initial state on, and the number of workers stays |
| BossWorker.ExclusiveStep | pr1/mtgf/handler.c:33-54 | every step keeps: the mutex names the one thread between lock and unlock, a worker about to pop has an item to pop, one about to wait has none, and the underflow exit was never taken |
| BossWorker.MutualExclusion | pr1/mtgf/handler.c:46-54 | in every reachable state at most one thread is between lock and unlock, and no worker can pop an empty queue |
| BossWorker.NoLostWakeupStep | pr1/mtgf/handler.c:32-57 | every step, signal after unlock and spurious wake-up included, keeps the counting invariant on waiters |
| BossWorker.NoWakeupIsLost | pr1/mtgf/handler.c:32-57 | in every reachable state with a waiting worker, the queue is no longer than the awake workers without a request plus the signals still to come |
| BossWorker.FirstInFirstOut | pr1/mtgf/handler.c:32-57 | in every reachable state the popped history followed by the queue is the enqueued history, which is 0, 1, 2, ... in order of arrival; at most one accepted request is not enqueued yet |
| BossWorker.OwnedStep | pr1/mtgf/handler.c:97-103 | every step keeps requests owned, and the heap holds exactly the accepted requests that are not served |
| BossWorker.ExactlyOneOwner | pr1/mtgf/handler.c:97-144 | in every reachable state each accepted request is in exactly one of: the boss's hands, the queue, one worker's hands, the served; and it is on the heap until it is served |
| BossWorker.BlocksAre | pr1/mtgf/handler.c:134-141 | in every reachable state what lies behind each copied path is what the schedule gave for that request |
| BossWorker.CopiedWhole | pr1/mtgf/handler.c:139 | the string a worker reads is the path that was copied if and only if the byte behind the copy is NUL |
| BossWorker.CopiedOverLonger | pr1/mtgf/handler.c:136-139 | in memory that held a longer path, the worker reads the new path followed by the tail of the old |
| BossWorker.LiveWhenUsed | pr1/mtgf/handler.c:97-103 | whatever the boss, the queue or a worker refers to is on the heap, and a free takes it off |
| BossWorker.OffsetsMove | pr1/mtgf/handler.c:68-79 | looking a path up sets the shared offset of its file to the start, measuring it to the end, and no other step moves an offset |
| BossWorker.ServeAsAlone | pr1/mtgf/handler.c:62-95 | one call of a transfer, on descriptors whose offsets others have moved, keeps it where the handler alone would be |
| Liveness.StepWeight | pr1/mtgf/handler.c:32-106 | every step lowers the weight of the remaining work, except that a spurious wake-up raises it by at most 3 |
| Liveness.RunsAreBounded | pr1/mtgf/handler.c:32-106 | the length of every run plus the weight left is at most the initial weight plus four for each spurious wake-up |
| Liveness.StuckOnlyWhenDone | pr1/mtgf/handler.c:32-106 | with at least one worker, a reachable state has no enabled step (spurious wake-ups apart) if and only if every connection is taken, the queue is empty and all workers wait |
| Liveness.MaximalRunsServeEverything | pr1/mtgf/handler.c:32-106 | a run that cannot go on has served every connection with a right outcome, in order of popping, and freed every request |
| Liveness.OnlyTheMutexBlocks | pr1/mtgf/handler.c:32-106 | a worker can take a step if and only if it is not at a lock that is held; the boss likewise while there are connections; a signal can wake any waiter, a waiter can wake by itself, and every answer of the system is possible |
| Liveness.CanFinish | pr1/mtgf/handler.c:32-106 | from every reachable state some run goes on to serve everything without a further call that falls short |
| Liveness.AllCanBeServed | pr1/mtgf/handler.c:32-144 | for any connections and any bytes behind their copies there is a run that serves them all in full |
| ThreadPools.CarryOut | pr1/mtgf/handler.c:32-129 | every run of the boss and its workers can be carried out on the real linked list, which then holds the queue of the machine, with all invariants |
| ThreadPools.ThreadPool.Take | pr1/mtgf/handler.c:32-144 | the queue, the mutex and the boss's variables after any enabled step are those of the machine; calls of a transfer, wake-ups and frees leave them alone |
| ThreadPools.ThreadPool.AddItemEnqueue | pr1/mtgf/handler.c:34 | on the real linked list, the enqueue is the machine's step |
| ThreadPools.ThreadPool.RemoveItemTest | pr1/mtgf/handler.c:49 | the test of the count of the linked list is the machine's test: the worker goes on to the wait exactly when the queue is empty |
| ThreadPools.ThreadPool.RemoveItemPop | pr1/mtgf/handler.c:53 | the pop of the linked list is the machine's step, never underflows, and hands out the oldest request, the next number in order |
| Transfers.StepIgnoresOffsets | pr1/mtgf/handler.c:72-91 | the result of a call for the request depends on the bytes of the files, not on their offsets |
| Transfers.StepStaysOnTrack | pr1/mtgf/handler.c:62-95 | every call keeps what was sent a prefix of the header and a prefix of the file of exactly the bytes counted; a finished request returned the length exactly when the whole file went, and -1 on a closed connection otherwise |
| Transfers.AloneStaysOnTrack | pr1/gflib/handler.c:13-46 | so at every point of every run of the handler, for every pattern of short reads and writes |
| Transfers.FaultFreeSendsAll | pr1/gflib/handler.c:13-46 | a run without a failed read or a short write puts exactly header and file on the wire, leaves the connection open and returns the length, for all chunk sizes |
| Transfers.WholeResponse | pr1/gflib/handler.c:13-46 | at the end of a run the whole response is on the wire if and only if there was no failed read and no short write, of the header included |
| Transfers.FaultFreeIs | pr1/gflib/handler.c:13-46 | no answer in a history falls short if and only if each send recorded took all and each pread recorded got something |
| Transfers.StepProgresses | pr1/mtgf/handler.c:77-92 | every call brings the end of the request nearer, by a count that starts at twice the length plus four |
| Transfers.HandlerGet | pr1/gflib/handler.c:13-46 | what the handler sends, returns and closes is what the one-call-at-a-time machine does alone, its calls of send and pread being exactly those recorded, in order; if none of these falls short, and only then, the whole response is on the wire, and a file's length is returned |
| Transfers.SendChunks | pr1/gflib/handler.c:28-45 | the same for the transfer loop |
| EndToEnd.SequentialClientGetsTheFile | pr1/gflib/gfserver.c:201-250 | the end-to-end result for one connection of the sequential server: fragmented request, parse, table, handler with the calls it made, fragmented response, reception |
| EndToEnd.EveryClientGetsItsFile | pr1/gflib/gfserver.c:184-256 | the same for the k-th of any list of clients, served one after the other on the same buffer and the same descriptors |
| EndToEnd.ClientGetsTheFile | pr1/gflib/gfclient.c:180-235 | the end-to-end result for a request served in any run of the threaded server, for the path copied followed by what the schedule has behind it, which is the one asked for if and only if a NUL comes first there |
| EndToEnd.StaleMemoryMisleads | pr1/mtgf/handler.c:134-141 | "/a" is on the list and asked for, "b" lies behind its copy: there is a run that serves it without a call that falls short, and the client is told FILE_NOT_FOUND |
| EndToEnd.ResponseIsReceived | pr1/gflib/gfclient.c:191-235 | the response half: the client gets what the table holds if and only if no call fell short, the header came first and the length fits an int; behind a whole header it writes only a prefix of the file, and success with less needs such a length |
| EndToEnd.WireIsReceived | pr1/gflib/gfclient.c:191-235 | the same for any parts of header and body the connection took; a response broken off behind its header gives -1 if the peer closed, an undefined result if recv failed, and exactly the part that was sent |
| EndToEnd.AnnouncedIs | pr1/gflib/gfserver.c:58 | a file length over 2^31-1 is announced as something larger, or smaller by at least 2^32 |
| EndToEnd.StartServer | pr1/mtgf/content.c:22-61 | content_init, with any descriptors open before, leaves the table the end-to-end results start from, exactly when the list loads |
| EndToEnd.FileOfLoaded | pr1/mtgf/content.c:63-79 | the table answers with the file of some row that has the key, and with nothing exactly when no row has it |
| Client.ReceptionIs | pr1/gflib/gfclient.c:192-235 | for every split with the header in the first chunk: status, length and header as printed; what is written is a prefix of the body, all of it if it is not too long; result 0 exactly when enough bytes come, -1 if the peer closes before, undefined if recv fails before |
| Client.DrainIs | pr1/gflib/gfclient.c:223-231 | the body loop returns 0 exactly when the stream is long enough, -1 if it is closed before, and is undefined if recv fails before; it writes a prefix of the stream, all of it on failure, and stops within one chunk of the length |
| Client.DrainStops | pr1/gflib/gfclient.c:223-231 | the body loop reads on exactly while the length is not reached, and leaves the chunks behind unread |
| Client.HeaderCutShort | pr1/gflib/gfclient.c:192-208 | a first chunk that stops inside the header never succeeds and writes nothing, whatever the buffer held |
| Client.FailsBeforeBody | pr1/gflib/gfclient.c:192-208 | nothing received, no terminator in the first chunk or a response turned down: -1, invalid status, neither callback called |
| Client.ReturnsAre | pr1/gflib/gfclient.c:144-236 | the return value is 0, -1 or undefined; 0 takes a valid status and as many bytes as announced |
| Client.FirstChunkDecides | pr1/gflib/gfclient.c:192-231 | a request succeeds if and only if the header is whole in the first chunk and as much of a body comes as it announces, whatever the buffer held |
| Client.PartialHeader | pr1/gflib/gfclient.c:192-231 | behind a header the connection cut short, success writes fewer bytes than were sent of the body |
| Client.GfcRequest.ParseInPlace | pr1/gflib/gfclient.c:107-142 | the destructive parse computes the parse on values and sets status and length as it does |
| Client.GfcRequest.PerformReceive | pr1/gflib/gfclient.c:191-235 | the return value, the fields and all bytes given to the callbacks are those of the outcome on values |
| Client.GfcRequest.ReceiveBody | pr1/gflib/gfclient.c:223-231 | the body loop writes and returns what draining the rest of the stream gives, leaves unread what that leaves, and ends |
| Server.GatherTakesAPrefix | pr1/gflib/gfserver.c:119-138 | for every fragmentation the buffer is a prefix of the stream, and as long as the stream or the room allows unless it holds a terminator |
| Server.GatherStopsAtFirst | pr1/gflib/gfserver.c:124-135 | reception stops right after the first chunk with which what fits the buffer holds a terminator, not before; the chunks behind are left unread |
| Server.RequestUnderFragmentation | pr1/gflib/gfserver.c:119-236 | for every allowed path, every fragmentation and any bytes behind the request, the server recovers exactly the path |
| Server.GetRequest | pr1/gflib/gfserver.c:119-138 | the receive loop leaves in the buffer, as a C string, what gathering the chunks gives, returns its size, and receives no chunk more |
| Server.ParseInPlace | pr1/gflib/gfserver.c:208-236 | the destructive parse computes the parse on values |
| Server.ServeConnection | pr1/gflib/gfserver.c:201-250 | one connection: the request as gathered is parsed, or the one before it if nothing came, and stays in the buffer; a refusal is one send of the FILE_NOT_FOUND header; a path is served as the handler alone serves it, with the calls that takes |
| Server.ServeAll | pr1/gflib/gfserver.c:184-256 | the accept loop for any list of clients: each is answered for what it, or the last before it to send anything, has sent, on the files open from the start, with the calls recorded on its connection; a malformed request ends it, and nothing is sent to the clients behind |
| Server.HeardIs | pr1/gflib/gfserver.c:201-209 | what is parsed for a connection is its own bytes if it sent any, else what the buffer held |
| Server.SilentClientRepeats | pr1/gflib/gfserver.c:201-209 | after any connections, one that sends nothing is parsed as the one before it |
| Protocol.ResponseRoundTrip | pr1/gflib/gfclient.c:107-142 | for every status code, every int and any bytes behind it, the printed header parses to its status, its number and its exact size |
| Protocol.GetStatusInverts | pr1/gflib/gfclient.c:96-105 | the client reads the status word back as the status the server meant, every other code as an error |
| Protocol.HeaderSizeMeetsTerminator | pr1/gflib/gfclient.c:118-119 | the computed header size is at most the strstr position plus 4, and equal exactly when no CR or LF comes before the terminator |
| Protocol.HeaderSizeFallsShort | pr1/gflib/gfclient.c:118-119 | every printed line followed by one CR too many is accepted, with a size one less than the end of the strstr match |
| Protocol.RequestRecovers | pr1/gflib/gfserver.c:215-236 | for every path that starts with a slash the server takes the path up to its first blank, CR or LF |
| Protocol.RequestRoundTrip | pr1/gflib/gfserver.c:215-236 | the server recovers the path exactly if it starts with a slash and holds no blank, CR or LF |
| Grammar.ParseResponseBySplit | pr1/gflib/gfclient.c:118-136 | for every string, the strtok sequence with its restart and its change of delimiters reads the words of the plain split of the header line |
| Grammar.ShapeIsAccepted | pr1/gflib/gfserver.c:215-236 | a string of the shape scheme, GET, path, with blanks where they may be, is accepted with that path |
| Grammar.AcceptedHasShape | pr1/gflib/gfserver.c:215-236 | every accepted string has that shape |
| Grammar.ParseRequestByWords | pr1/gflib/gfserver.c:215-241 | for every string, by the words of the plain split: no word, or GETFILE alone, meets a NULL token; another first word, or another second word than GET, is refused; behind GETFILE GET it is the first field that decides: none meets NULL, one without a slash is refused, any other is the path |
| Grammar.VerbTest | pr1/gflib/gfserver.c:140-152 | the method is valid if and only if it is GET |
| Tokens.AllTokensAreTheSplit | pr1/gflib/gfclient.c:118-136 | strtok called until NULL yields exactly the non-empty pieces of the plain split |
| Tokens.Tokenizer.Strtok | pr1/gflib/gfclient.c:118-131 | one destructive call, continued or restarted: the token, what is left of the string scanned, and what the next call scans are those on values |
| CString.StrStr | pr1/gflib/gfclient.c:194 | the first occurrence, or none if there is none |
| CString.StrCmpZero | pr1/mtgf/content.c:18-20 | strcmp is 0 exactly on equal strings |
| CString.StrCmpDecides | pr1/mtgf/content.c:18-20 | strcmp is the difference of the first bytes that differ |
| CString.StrCmpTransitive | pr1/mtgf/content.c:18-20 | strcmp is transitive, strictly if either part is |
| Decimal.AtoiOfPrint | pr1/gflib/gfclient.c:134-135 | atoi reads back what "%d" prints, for every int |
| Decimal.AtoiIs | pr1/gflib/gfclient.c:134-135 | atoi on every string: white space, a sign or none, digits and the rest; undefined exactly where the number does not fit an int |
| Decimal.SizeThroughInt | pr1/gflib/gfclient.c:135 | a size cast to int and back survives exactly up to 2^31-1 or from 2^64-2^31 on |
| Content.LoadRowsInvertsPrint | pr1/mtgf/content.c:32-54 | a list of lines, with either blank and with anything from a further blank on, is read back row by row if all its files open, and fails otherwise |
| Content.ParseRowOfFields | pr1/mtgf/content.c:35-41 | a key, a space or tab, a path, anything from the next blank on, and one last byte of any kind give exactly key and path |
| Content.LastRowNeedsTail | pr1/mtgf/content.c:34-48 | the last row of a list is read as it stands if and only if a newline or a blank follows its path and all files open |
| Content.UnterminatedRow | pr1/mtgf/content.c:36 | with nothing behind its path a row loses the last byte of the path |
| Content.FgetsIs | pr1/mtgf/content.c:34 | a line read ends with the first newline, or after 255 bytes, or with the list |
| Content.SearchFinds | pr1/mtgf/content.c:63-79 | on a sorted table bisection finds an item with the key in the interval if there is one, and none otherwise |
| Content.TableAgreesWithRows | pr1/mtgf/content.c:58-79 | for every key the sorted table answers with a descriptor opened for a row with that key, and -1 exactly when no row has it |
| Content.TableFindsTheRow | pr1/mtgf/content.c:58-79 | with unique keys, with the descriptor of the row itself |
| Content.QSort | pr1/mtgf/content.c:58 | the used part of the array becomes a sorted permutation of itself, the rest stays |
| Content.ContentTable.Commit | pr1/mtgf/content.c:47-52 | the slot joins the table, earlier rows stay across a doubling, and a slot is free again |
| Content.ContentTable.ReadRows | pr1/mtgf/content.c:32-54 | the loop enters all rows in order and opens all their files, or fails where the list does; a slot is free before every row |
| Content.ContentTable.Init | pr1/mtgf/content.c:22-61 | the table becomes a sorted permutation of the rows with the descriptors opened for them, exactly when the list loads |
| Content.ContentTable.Get | pr1/mtgf/content.c:63-79 | the answer of the bisection, and the shared offset of that descriptor, and of no other, moved to the start |
| Steques.PerformAll | pr1/mtgf/steque.c:5-94 | any run of operations on the linked list does what it means on sequences, and exits exactly where the sequence run pops an empty sequence |
| Steques.Steque.Enqueue | pr1/mtgf/steque.c:11-25 | the item joins the contents at the back |
| Steques.Steque.Push | pr1/mtgf/steque.c:27-39 | the item joins the contents at the front |
| Steques.Steque.IsEmpty | pr1/mtgf/steque.c:45-47 | N is 0 exactly when front is NULL, when back is NULL, and when the contents are empty |
| Steques.Steque.Pop | pr1/mtgf/steque.c:49-69 | underflow exactly on empty contents; otherwise the first item, the rest stays, and the freed node is no longer in the list |
| Steques.Steque.Cycle | pr1/mtgf/steque.c:71-79 | the nodes and the contents rotate by one; the empty and the one-node list stay |
| Steques.Steque.Destroy | pr1/mtgf/steque.c:91-94 | the loop ends, with an empty list |
| Steques.CycleAllTheWay | pr1/mtgf/steque.c:71-79 | cycling as often as there are items brings the contents back |
| Workload.RoundRobin | pr1/mtgf/workload.c:47-51 | with the outer mutex, under every interleaving, the k-th path handed out is path k mod n, and a thread reads back the counter value it stored |
| Workload.FairShares | pr1/mtgf/workload.c:47-51 | after T calls each of n paths was handed out floor(T/n) times, and once more exactly for the paths 1 .. T mod n |
| Workload.AnyOrderOfTurns | pr1/mtgf/gfclient_download.c:104-106 | for every list of threads there is a guarded run in which they are handed a path each in that order |
| Workload.InTurnExactlyWhen | pr1/mtgf/workload.c:47-51 | every run hands the paths out in turn if and only if the outer mutex is used, or there is at most one thread, or one path |
| Workload.InnerMutexIsNotEnough | pr1/mtgf/workload.c:47-51 | without the outer mutex, with two or more threads and paths, there is a run that hands out path 2 twice and path 1 never |
| Download.OpenFile | pr1/mtgf/gfclient_download.c:54-72 | the directories asked for are the proper directory prefixes in order; it goes on if and only if none of the calls was refused, so also where a directory is there already; else it exits at the one refused; the path string is unchanged on success, and cut at that directory on failure |
| Download.EveryDirectoryIsMade | pr1/mtgf/gfclient_download.c:58-72 | every prefix that ends before a slash is asked for |
| Download.EntriesArePrefixes | pr1/mtgf/gfclient_download.c:58-72 | nothing else is asked for |
| Download.ParentsFirst | pr1/mtgf/gfclient_download.c:58-72 | each directory is a proper prefix of all that are asked for after it |
| Curl.MemoryStruct.Write | pr3/handle_with_curl.c:18-35 | the contents grow by exactly the chunk, a NUL follows them, and the chunk's size is returned |
| Curl.Collect | pr3/handle_with_curl.c:18-35 | after any sequence of callbacks the contents are the concatenation of the chunks |
| Curl.HandleWithCurl | pr3/handle_with_curl.c:74-100 | a status other than 200 is one send of the FILE_NOT_FOUND header; 200 sends the header with the length and, unless it is empty, the concatenated body in one call, and returns the length exactly when all of the body was taken, -1 otherwise |

## Left out

- Transfers.HandlerGet: file contents do not change while they are sent; `lseek` on an open descriptor does not fail.
- Server.GetRequest: the search for the terminator does not look past the buffer; a failed `recv` ends the loop as the end of the stream does, as in the code.
- Server.ServeConnection: the connection that the sequential server closes, and frees, after the handler is not modelled as a resource; nothing is said of a malformed request beyond that the parse meets a NULL token; the same for Server.ServeAll, where `accept` does not fail.
- Client.GfcRequest.PerformReceive: a search for the terminator that runs past the end of the receive buffer is not modelled; a write callback is set, without one the code calls NULL.
- EndToEnd.ClientGetsTheFile: the request with its NUL fits the request buffers; what malloc leaves behind the copied path is any bytes at all; a file is shorter than 2^63 bytes; the libraries of the threaded build, which are not part of this model, are taken to be those of pr1/gflib.
- BossWorker.ExactlyOneOwner: the connection context a request carries is not modelled; the library object file that closes it in the threaded build is not part of this model.
- ThreadPools.ThreadPool.Take: transfers, waiters and the heap are not globals of the pool; their steps are taken in the machine only.
- Liveness.RunsAreBounded: the connections are finitely many; a `send` or `pread` that blocks for ever is a step never taken.
- Content.QSort: the steps of the C library's qsort are not modelled; an insertion sort with qsort's contract stands in.
- Content.ContentTable.Init: the list file itself can be opened; descriptors are numbered by position, and `open` succeeds on exactly the files of `disk`, so that running out of descriptors is not modelled.
- Steques.Steque.Enqueue: allocation succeeds and N does not overflow an int; the same for Push.
- Workload.RoundRobin: the counter stays below the int bound; the bound on requests per thread, `workload_init` and the random mode (floating point, never switched on) are left out.
- Download.OpenFile: `fopen` and the modes and errors of `mkdir` other than refusal are left out; so is the name's counter in `localPath`, which is not under a lock.
- Curl.HandleWithCurl: libcurl, the URL buffer, a failed `realloc` and a failed `curl_easy_init` are left out; the chunks delivered and the HTTP status are parameters, and a transfer error with status 200 is sent as far as it came, as in the code. The proxy's server library is supplied and not shown; its header printer is taken to be the one of pr1.
- The sending of the request: `send` is taken to deliver the whole request.
- Socket, bind, listen, accept, connect and address set-up, signals, options and usage texts: plumbing.
- `content_destroy`, the getters and setters of the client and server, and `gfc_strstatus`: they would add easy members.
- Other copies of the same logic (pr1/gflib/content.c, pr3/steque.c, pr3/simplecache.c, pr1/echo, pr1/transfer) and the experiment lists of pr2.
- pr3's shared-memory channel and cache daemon: their bodies are not written in the repository.
