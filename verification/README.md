# Proofs about the operating-systems labs

This project models the parts of the repository that are state machines and proves what they
keep, over every input, every sequence of calls, and every interleaving of any number of
processes.

| program | modules |
|---|---|
| `semop`, as all the protocols use it | `Semaphores` (Semop.dfy) |
| bakery ticket server and its client's polling loop | `Bakery`, `BakeryQueue` |
| directory walk with an explicit stack | `Walk`, `WalkFacts`, `Stack`, `Walker` |
| fortune cookie pot | `Fortune` |
| producer/consumer RPC server | `PcLocks`, `ProdCons`, `ProdConsQueue`, `ProdConsTrade`, `ProdConsServer` |
| producers and consumers on one shared segment (`pc.c`) | `PcLocks`, `SharedCursors` |
| readers and writers of one counter (`wr.c`) | `WriterCounter` |
| letter board, concurrent servers (task-04 processes, task-05 threads), under any requests | `Letters`, `LetterBoard`, `LetterBoardRuns`, `LetterBoardHandOuts`, `LetterBoardReplies`, `LetterBoardExit`, `LetterBoardServer` |
| the same servers with their own clients | `LetterBoardClients`, `LetterBoardCopies`, `LetterBoardTwice`, `LetterBoardExit` |
| letter board, sequential server (task-06) and its clients | `Letters`, `SequentialBoard` |
| XDR codec of the bakery request | `Xdr` |

Common.dfy holds the small definitions that several of these share (`Options`, `Octets`,
`Counting`, `Processes`).

`dafny verify dfyconfig.toml` checks everything.

## How it is built

A program whose code changes state is a class with that state. Each of its methods follows the
C function and is proved to perform one step of a function on values (`Step` and the like); the
lemmas are about that function and its runs. `View()` is the state of an object as a value.

The concurrent programs are step relations. A process or thread has a program counter, and one
step is a `semop` call, at most one write to shared memory together with the reads that go into
it, or one message. The copy of the 52-cell board takes one step per cell, and `(*shm)++` a load
and a store. `Run` follows an arbitrary list of steps and is `None` if a step is taken that is not
enabled, for instance because its process sleeps in `semop`. Fields described as history
(`holder`, `put`, `got`, `putBy`, `gotBy`, `consumed`, `stores`, `printed`, `atStart`, `given`,
`givenTo`) are bookkeeping that the C programs do not have; no step of a process depends on them.

The remote procedures of the two RPC servers are atomic steps, because the servers are
single-threaded (`semester-01/lab/lab-rpc/README.md`, line 276); the worker threads of the
producer/consumer server interleave with them.

## Where the programs do not do what is expected of them

The code is modelled as it is. In each of these places the project proves exactly when the
expected behaviour is met.

- **Ring of the producer/consumer server.** `BUFFER_SIZE` is the bare text `26 + 3`, so SE
  starts at 29 while the ring has 26 cells. The ring is a FIFO queue all along if and only if
  at most 26 bytes are outstanding all along (`QueueIffWithinRing`). The semaphores alone allow
  29 (`UnitsAccountedFor`, `ProducersReach`), so some run overwrites the ring
  (`SomeRunOverwritesTheRing`).
- **`wr.c`.** `reader_lock` waits for `BIN_WRITER` to be 0, which is its busy value: a reader
  gets in if and only if a writer is inside (`ReaderEntersIffWriterInside`), and from the start
  any writer and any reader can be inside together (`ReaderJoinsWriter`). Writers do exclude
  each other, and no update is lost.
- **Concurrent letter board.** `start_write` does not test `ACTIVE_WRITER`, so writers overlap
  and one letter can be handed out twice, with only two of the own clients
  (`SomeLetterIsHandedOutTwice`). Whoever asks for whatever, in a run that ends with no writer
  between reading a free cell and marking it, letters are handed out once if and only if at no
  time two writers had both read the same free cell and not yet marked it
  (`HandedOutOnceIffNoOverlap`, and of the replies sent `RepliesDifferIffNoOverlap`);
  `DoomedIffOverlap` says the same of every run, counting what
  the writers still inside are about to hand out. In particular letters are handed out once
  whenever writers are inside one at a time (`WritersInTurnHandOutOnce`).
- **Out-of-range request.** The writer returns without `stop_write`, so after one such request
  no reader ever gets in again, whatever follows (`ExitLocksReadersOut`). One request from
  anybody is enough, also on the full board (`OutOfRangeRequestExits`,
  `OneRequestLocksFullBoard`). The repository's own clients send one only when all letters are
  taken (`IndicesStayInPrefix`), and a single client that goes on does so
  (`OwnClientsReachExit`).
- **Bakery reply.** The messages speak of a default result 0.0, but a division by zero or an
  unknown operation leaves the static `result` of the previous call in place
  (`AdmissionReadAsRefusal`). After any calls from the start, an admitted client reads its reply
  as a refusal if and only if its operation computes nothing and the last service call that was
  refused or computed a value was refused (`AdmissionReadAsRefusalInRuns`); four calls from the
  start bring it about (`AdmittedAfterRefusal`).
- **Abandoned ticket.** A client that gives up after its polls keeps its ticket, and everybody
  with a later one is refused for ever (`ExhaustedClientBlocksLaterTickets`); two clients are
  enough for it (`ExhaustionHappens`).
- **Fortune record of a whole page.** A record is read back with a newline for its last byte if
  and only if the write was shorter than a page (`ComesBackWithNewline`); otherwise `snprintf`
  cuts the newline off and a NUL is handed out, as the first write and the read after it show on
  the page (`FirstWriteReadBack`).
- **Guard of the fortune write.** The guard lets two writes through that store outside the page:
  an empty first one, and the one a byte longer than the free space. Every other accepted write
  stores inside it, and these two do not (`StoresInPageIff`).
- **Directory walk.** `ntotal` counts the visited entries except files of a kind that has no
  counter (`CountersCountVisits`).

## Model

| member | source | states |
|---|---|---|
| Semaphores.CallAddsNetOrNothing | semester-01/lab/lab-shmemory/README.md:35 | a call that gets through adds to each semaphore the sum of the operations naming it; one that sleeps or fails changes nothing |
| Semaphores.CallSucceedsIffEachEnabled | semester-01/lab/lab-shmemory/README.md:35 | a call gets through iff each operation, taken in order, is enabled at the value its semaphore then has |
| Semaphores.CallFailsIffOutOfRange | semester-01/lab/lab-shmemory/README.md:35 | a call fails iff some operation names no semaphore of the set, wherever it stands |
| Semaphores.NetOfConcat | semester-01/lab/lab-shmemory/README.md:35 | the effect of two lists of operations after each other is the sum of their effects |
| Semaphores.BracketIsInvisible | semester-02/lab/lab-socket/task-04/server.c:40-57 | raising a WAITING semaphore and lowering it around operations that do not name it leaves the outcome of the whole call unchanged |
| Semaphores.WaitForZeroIsInvisible | semester-02/lab/lab-socket/task-04/server.c:40-46 | waiting for zero on a semaphore that is 0 and not named before can be left out without changing the outcome |
| PcLocks.LockAndRelease | semester-01/lab/lab-rpc/prodcons/prodcons_server.c:28-31 | the exact outcome of the four lock and release arrays on any three semaphores; releases never block |
| Bakery.MaxOf | semester-01/lab/lab-rpc/bakery/bakery_server.c:23-29 | the result is one of the numbers and none is larger |
| Bakery.PollServer | semester-01/lab/lab-rpc/bakery/bakery_client.c:61-74 | against any server the loop ends with the first answer that is not a refusal, or after exactly 30 refusals |
| Bakery.BakeryServer.constructor | semester-01/lab/lab-rpc/bakery/bakery_server.c:19-21 | no ticket is out and nobody is choosing |
| Bakery.BakeryServer.MaxNumber | semester-01/lab/lab-rpc/bakery/bakery_server.c:23-29 | the scanning loop finds the maximum of the 128 tickets |
| Bakery.BakeryServer.GetNumber | semester-01/lab/lab-rpc/bakery/bakery_server.c:31-41 | the reply is one more than the largest ticket and is stored for the caller, with its pid, and nothing else changes; as a step of the model |
| Bakery.BakeryServer.Service | semester-01/lab/lab-rpc/bakery/bakery_server.c:43-89 | refused iff some client is choosing or holds a ticket before the caller's, by number and then pid; otherwise the caller's ticket is cleared and the reply is the sum, difference, product or quotient asked for, or the previous static result; as a step of the model |
| BakeryQueue.StepRefinesQueue | semester-01/lab/lab-rpc/bakery/bakery_server.c:31-89 | on a state representing a queue a ticket call moves its client to the back, and a service call is admitted iff its client is the head or not queued, dequeuing only the head |
| BakeryQueue.RunRefinesQueue | semester-01/lab/lab-rpc/bakery/bakery_server.c:23-89 | for every sequence of calls the ticket array is the FIFO queue the same calls produce, and each service call is admitted iff the queue admits its caller at that time |
| BakeryQueue.RepresentsUnique | semester-01/lab/lab-rpc/bakery/bakery_server.c:19-21 | a ticket array represents at most one queue |
| BakeryQueue.EmptyIffNoTickets | semester-01/lab/lab-rpc/bakery/bakery_server.c:20 | the queue is empty iff all tickets are 0 |
| BakeryQueue.MovesToBack | semester-01/lab/lab-rpc/bakery/bakery_server.c:31-41 | taking a ticket, also a second one, puts the client at the back and keeps the order of all others |
| BakeryQueue.GuardIsSmallerTicket | semester-01/lab/lab-rpc/bakery/bakery_server.c:46-58 | between calls the choosing guard and the pid tie-break never decide: a client is refused iff someone holds a strictly smaller ticket, iff the queue does not admit it |
| BakeryQueue.DistinctTickets | semester-01/lab/lab-rpc/bakery/bakery_server.c:31-41 | nonzero tickets are pairwise distinct |
| BakeryQueue.NobodyOvertakes | semester-01/lab/lab-rpc/bakery/bakery_server.c:31-88 | a call of another client removes that client from the tickets ahead of a waiting one iff it is served or takes a new ticket, and adds nobody |
| BakeryQueue.PlaceMovesUpByDepartures | semester-01/lab/lab-rpc/bakery/bakery_server.c:31-88 | over any run of others' calls the number of tickets ahead falls by exactly the number of earlier clients served or re-ticketed |
| BakeryQueue.PlaceIsNumberAhead | semester-01/lab/lab-rpc/bakery/bakery_server.c:46-58 | a client's place in the queue is the number of smaller tickets |
| BakeryQueue.LaterTicketsAreRefused | semester-01/lab/lab-rpc/bakery/bakery_server.c:46-58 | while a client holds a ticket everybody with a later one is refused |
| BakeryQueue.AbandonedTicketBlocks | semester-01/lab/lab-rpc/bakery/bakery_server.c:43-89 | if a holder stops calling, in every continuation all later tickets are refused and at most those ahead of it are served |
| BakeryQueue.RefusedPollsKeepTicket | semester-01/lab/lab-rpc/bakery/bakery_server.c:46-58 | a client whose calls are all refused polls keeps its ticket, whatever the others do |
| BakeryQueue.ExhaustedClientBlocksLaterTickets | semester-01/lab/lab-rpc/bakery/bakery_client.c:56-77 | a client that took a ticket and had every poll refused still holds it after any later calls of the others, all later tickets being refused |
| BakeryQueue.ExhaustionHappens | semester-01/lab/lab-rpc/bakery/bakery_client.c:56-77 | from the start a client behind another one that does not call has all its 30 polls refused, and from then on blocks every later ticket in any run of the others |
| BakeryQueue.TicketsBoundedByCalls | semester-01/lab/lab-rpc/bakery/bakery_server.c:31-41 | no ticket exceeds the number of get_number calls since all tickets were last 0 |
| BakeryQueue.DuplicateServiceIsHarmless | semester-01/lab/lab-rpc/bakery/bakery_server.c:43-89 | a completed service call delivered again, with any calls in between but no new ticket of its client, changes no ticket and computes the same value |
| BakeryQueue.StaysTicketless | semester-01/lab/lab-rpc/bakery/bakery_server.c:31-89 | a client without a ticket has none until it asks for one |
| BakeryQueue.AdmissionReadAsRefusal | semester-01/lab/lab-rpc/bakery/bakery_server.c:45-88 | in any state an admitted reply reads as INFINITY iff the operation computes nothing and the static result is INFINITY |
| BakeryQueue.AdmissionReadAsRefusalInRuns | semester-01/lab/lab-rpc/bakery/bakery_server.c:45-88 | after any calls from the start an admitted reply reads as INFINITY iff the operation computes nothing and, of the service calls so far that were refused or computed a value, the last was refused |
| BakeryQueue.ResultIsInfiniteIff | semester-01/lab/lab-rpc/bakery/bakery_server.c:45-88 | over any run the static result is INFINITY iff the last service call that set it was a refusal |
| BakeryQueue.AdmittedAfterRefusal | semester-01/lab/lab-rpc/bakery/bakery_server.c:45-88 | for any two clients, the first with an operation that computes nothing, four calls from the start end with that client admitted and answered INFINITY |
| Walk.Find | semester-02/lab/lab-fileSystem/task-ftw/main.c:28 | a name resolves to a listed entry of that name, and fails iff there is none |
| Walk.ResolveListed | semester-02/lab/lab-fileSystem/task-ftw/main.c:28-56 | a name pushed for a directory, looked up from that directory, finds the entry it was pushed for |
| Walk.ListingOnTop | semester-02/lab/lab-fileSystem/task-ftw/main.c:49-56 | the entries of a directory on top of any stack: their recursive preorder comes first, then what is below, in the same working directory |
| Walk.EntryAdvances | semester-02/lab/lab-fileSystem/task-ftw/main.c:20-64 | on an arbitrary stack, processing the top entry does the next piece of the recursive traversal, makes the stack strictly lighter and leaves the final directory as it was |
| Walk.DirectoryAdvances | semester-02/lab/lab-fileSystem/task-ftw/main.c:37-63 | entering a directory, with its marker and its entries pushed on any stack, continues with its entries and then with the rest in the old directory |
| WalkFacts.EachReachableEntryOnce | semester-02/lab/lab-fileSystem/task-ftw/main.c:20-84 | the traversal looks up each entry reachable through readable and searchable directories exactly once, and no other path |
| WalkFacts.EveryLookupIsFaithful | semester-02/lab/lab-fileSystem/task-ftw/main.c:20-64 | every lookup has the outcome that the tree has at its place (a file of that kind, a directory, nothing), its true depth, and for all but the start the working directory is its parent |
| WalkFacts.SiblingsInReverse | semester-02/lab/lab-fileSystem/task-ftw/main.c:51-56 | of two entries of a directory the one readdir returned later is visited first, with all that is below it |
| WalkFacts.SubtreeListsOnce | semester-02/lab/lab-fileSystem/task-ftw/main.c:20-64 | the same count for any subtree at any place |
| Stack.Node.constructor | semester-02/lab/lab-fileSystem/task-ftw/lib/stack.c:9-16 | a node with the given name and depth and no successor |
| Stack.NodeStack.IsEmpty | semester-02/lab/lab-fileSystem/task-ftw/lib/stack.c:5-7 | true iff the stack has no entries |
| Stack.NodeStack.Push | semester-02/lab/lab-fileSystem/task-ftw/lib/stack.c:18-25 | a copy of the element goes on top, the rest is unchanged |
| Stack.NodeStack.Pop | semester-02/lab/lab-fileSystem/task-ftw/lib/stack.c:27-33 | the top entry comes off; null iff the stack was empty |
| Walker.Ftw.constructor | semester-02/lab/lab-fileSystem/task-ftw/main.c:16 | an empty stack, all counters 0, no lookup made |
| Walker.Ftw.PushListing | semester-02/lab/lab-fileSystem/task-ftw/main.c:51-56 | the readdir loop leaves all names but "." and ".." on the stack, in reverse order |
| Walker.Ftw.DoPath | semester-02/lab/lab-fileSystem/task-ftw/main.c:20-64 | the new stack, working directory and lookups for every kind of entry, marker and failure; exactly the counter of the entry's kind in the tree grows by one |
| Walker.Ftw.Turn | semester-02/lab/lab-fileSystem/task-ftw/main.c:78-81 | each turn of the loop keeps the remaining traversal equal to what the stack still stands for, makes the stack lighter, and never processes the copy of the start at the bottom |
| Walker.Ftw.Walk | semester-02/lab/lab-fileSystem/task-ftw/main.c:66-84 | the loop terminates, having performed exactly the recursive preorder: every reachable entry once, from its parent and at its true depth; one level above a start directory it could read (still in it if it is "/", which is its own parent), each counter the number of visited entries of that kind in the tree, and the total that of all but failures and kinds without a counter |
| Walker.NextEntry | semester-02/lab/lab-fileSystem/task-ftw/main.c:78-81 | one turn over values: the walk is finished or goes on with a lighter stack |
| Walker.CountersCountVisits | semester-02/lab/lab-fileSystem/task-ftw/lib/statistics.c:42-66 | each counter is the number of visited entries of its kind; with failed lookups and kinds without a counter the total is the number of lookups |
| Walker.CountersCountEntries | semester-02/lab/lab-fileSystem/task-ftw/lib/statistics.c:42-66 | for faithful lookups each counter is the number that led to a file of its kind in the tree, or to a directory |
| Fortune.CString | semester-02/lab/lab-module/task-03/fortune.c:68 | the bytes up to the first NUL |
| Fortune.RecordsOfBytes | semester-02/lab/lab-module/task-03/fortune.c:41-56 | cutting the page after its NULs recovers the records whose bytes it holds |
| Fortune.BytesOfRecords | semester-02/lab/lab-module/task-03/fortune.c:41-56 | the bytes of the records cut from a NUL-ended stretch are that stretch |
| Fortune.PlainWriteIsOneRecord | semester-02/lab/lab-module/task-03/fortune.c:53-54 | a write without NUL before its last byte adds one record, the write without its last byte |
| Fortune.ComesBackWithNewline | semester-02/lab/lab-module/task-03/fortune.c:41-75 | such a write is read back with a newline for its last byte iff it is shorter than a page, so newline-ended ones come back byte for byte |
| Fortune.ReadsAreRoundRobin | semester-02/lab/lab-module/task-03/fortune.c:41-76 | over the bytes and cursors of the page, from the empty one, in any interleaving of writes and reads that stay in it, the reads hand out the records of the writes that fit in turn, the first again only when none is left; the written part is those records and the read cursor is on a boundary |
| Fortune.PageRunServesRecords | semester-02/lab/lab-module/task-03/fortune.c:41-76 | the same from any page and any read position: the page run hands out what the run of its accepted operations on the list of records serves |
| Fortune.FirstWriteReadBack | semester-02/lab/lab-module/task-03/fortune.c:41-75 | over the page, a first write without NUL before its last byte is read back with a newline there, or with a NUL if it fills the page |
| Fortune.StoresInPageIff | semester-02/lab/lab-module/task-03/fortune.c:45-54 | a write that the guard accepts stores inside the page iff it is neither an empty first one nor one byte longer than the free space |
| Fortune.WriteKeepsOnPage | semester-02/lab/lab-module/task-03/fortune.c:45-55 | a write that fits appends its records to those on the page, any other changes nothing |
| Fortune.ReadKeepsOnPage | semester-02/lab/lab-module/task-03/fortune.c:66-75 | a read hands out the record whose turn it is and moves the cursor to the next boundary |
| Fortune.RoundRobin | semester-02/lab/lab-module/task-03/fortune.c:61-76 | in any interleaving of writes and reads each read serves the record after the one served before, and the first again only when none is left |
| Fortune.ServedTextIsWritten | semester-02/lab/lab-module/task-03/fortune.c:41-76 | records keep number and text for ever, and every read hands out the text written under the number it serves |
| Fortune.CookiePot.constructor | semester-02/lab/lab-module/task-03/fortune.c:85-106 | a zeroed page with no record |
| Fortune.CookiePot.CopyFromUser | semester-02/lab/lab-module/task-03/fortune.c:49 | the bytes that can be fetched are stored from the given place on, nothing outside the place of the buffer changes, and what is left is counted; what becomes of the unfetched bytes is open |
| Fortune.CookiePot.Write | semester-02/lab/lab-module/task-03/fortune.c:41-56 | a write that fits changes the page as the value model says and appends its records, one too long or with a copy fault changes no record; the read cursor stays, on a record boundary |
| Fortune.CookiePot.Read | semester-02/lab/lab-module/task-03/fortune.c:61-76 | a read at the file's start hands out the record whose turn it is and moves the cursor to the next boundary; later reads, an empty pot and a copy fault hand out nothing |
| Fortune.Printed | semester-02/lab/lab-module/task-03/fortune.c:68 | `snprintf` into a page, cut at the returned length, is the record and a newline, or a NUL if the record fills the page |
| Fortune.RecordAtCursor | semester-02/lab/lab-module/task-03/fortune.c:68-73 | from a record boundary the C string is the next record, and one byte further is the next boundary |
| Fortune.BoundaryAtEnd | semester-02/lab/lab-module/task-03/fortune.c:67 | the read cursor reaches the write cursor iff no record is left |
| Fortune.PageExtended | semester-02/lab/lab-module/task-03/fortune.c:49-54 | a write keeps the page equal to the bytes of the records and both cursors on boundaries |
| ProdCons.StepKeepsInv | semester-01/lab/lab-rpc/prodcons/prodcons_server.c:79-172 | every step of every worker and every connection keeps the whole invariant |
| ProdCons.ProducerKeepsExclusive | semester-01/lab/lab-rpc/prodcons/prodcons_server.c:79-102 | producer steps keep at most one worker inside, the binary semaphore saying whether there is one |
| ProdCons.ProducerKeepsCounted | semester-01/lab/lab-rpc/prodcons/prodcons_server.c:79-102 | producer steps keep SE and SF equal to what was written to and read from the ring |
| ProdCons.ProducerKeepsPositioned | semester-01/lab/lab-rpc/prodcons/prodcons_server.c:88-94 | producer steps keep the two positions equal to the produced and consumed counts modulo 26 |
| ProdCons.ProducerKeepsSpelled | semester-01/lab/lab-rpc/prodcons/prodcons_server.c:89-93 | the k-th byte produced is the k-th after 'a', with the wrap-around of a char |
| ProdCons.ProducerKeepsDelivered | semester-01/lab/lab-rpc/prodcons/prodcons_server.c:92 | each result cell holds 0 or its own worker's byte |
| ProdCons.ConsumerKeepsExclusive | semester-01/lab/lab-rpc/prodcons/prodcons_server.c:104-126 | the same exclusion for consumer steps |
| ProdCons.ConsumerKeepsCounted | semester-01/lab/lab-rpc/prodcons/prodcons_server.c:104-126 | the same counts for consumer steps |
| ProdCons.ConsumerKeepsPositioned | semester-01/lab/lab-rpc/prodcons/prodcons_server.c:113-118 | the same positions for consumer steps |
| ProdCons.ConsumerKeepsDelivered | semester-01/lab/lab-rpc/prodcons/prodcons_server.c:116 | the same result cells for consumer steps |
| ProdCons.UnitsAccountedFor | semester-01/lab/lab-rpc/prodcons/prodcons_server.c:35-61 | SE + SF + (1 - SB) = 29 in every state, at most 29 bytes outstanding, at most one worker inside |
| ProdCons.NoDeadlock | semester-01/lab/lab-rpc/prodcons/prodcons_server.c:28-126 | after any run from the start some worker can take a step iff one is inside, or a producer waits and fewer than 29 bytes are outstanding, or a consumer waits and some byte is; so always if both a producer and a consumer wait |
| ProdConsQueue.QueueIffWithinRing | semester-01/lab/lab-rpc/prodcons/prodcons_server.c:79-126 | in every interleaving of any number of workers the ring is a FIFO queue all along iff at most 26 bytes are outstanding all along |
| ProdConsQueue.FifoDelivery | semester-01/lab/lab-rpc/prodcons/prodcons_server.c:79-126 | with at most 26 outstanding the k-th byte consumed is the k-th produced, each by a distinct consumer and a distinct producer whose clients get the same result, the bytes in between are in the ring in order, head and tail are the counts mod 26, and free cells hold 0 |
| ProdConsQueue.StepKeepsAttributed | semester-01/lab/lab-rpc/prodcons/prodcons_server.c:79-126 | every step keeps each byte written or read that of a distinct worker of its kind, in order |
| ProdConsQueue.AttributedResults | semester-01/lab/lab-rpc/prodcons/prodcons_server.c:92-116 | while the ring is a queue, the results of the k-th producer's and the k-th consumer's clients agree once both are delivered |
| ProdConsQueue.StepKeepsQueue | semester-01/lab/lab-rpc/prodcons/prodcons_server.c:79-126 | one step that leaves at most 26 bytes outstanding keeps the ring a queue and its free cells 0 |
| ProdConsQueue.WriteKeepsQueue | semester-01/lab/lab-rpc/prodcons/prodcons_server.c:88-90 | writing a byte into the ring appends to the queue |
| ProdConsQueue.ReadKeepsQueue | semester-01/lab/lab-rpc/prodcons/prodcons_server.c:113-114 | the byte a consumer reads is the oldest one |
| ProdConsQueue.ClearKeepsQueue | semester-01/lab/lab-rpc/prodcons/prodcons_server.c:117 | clearing the cell read frees it without touching an outstanding byte |
| ProdConsQueue.QueueFitsRing | semester-01/lab/lab-rpc/prodcons/prodcons_server.c:88-113 | with more than 26 bytes outstanding the ring cannot be the queue |
| ProdConsQueue.ProducerFinishes | semester-01/lab/lab-rpc/prodcons/prodcons_server.c:79-102 | a producer that is inside always comes out, having written its byte |
| ProdConsQueue.ProducersReach | semester-01/lab/lab-rpc/prodcons/prodcons_server.c:41 | the semaphores let producers have any number up to 29 bytes outstanding |
| ProdConsQueue.SomeRunOverwritesTheRing | semester-01/lab/lab-rpc/prodcons/prodcons_server.c:41-95 | some run from the start leaves the ring not a queue |
| ProdConsTrade.FirstTrade | semester-01/lab/lab-rpc/prodcons/prodcons_server.c:79-172 | from the start, after a first request of type 'p' and one of type 'c', the two workers can run so that the polls of both clients are answered with 'a' |
| ProdConsTrade.ClientsTrade | semester-01/lab/lab-rpc/prodcons/prodcons_server.c:79-126 | with nothing outstanding and nobody inside, any waiting producer and then any waiting consumer can run to their ends, and both results are the next letter |
| ProdConsTrade.WorkerFinishes | semester-01/lab/lab-rpc/prodcons/prodcons_server.c:79-126 | a worker that can begin, or has, can run to its end alone, leaving the ring a queue and no other worker touched |
| ProdConsServer.OnlyOwnWorkerDelivers | semester-01/lab/lab-rpc/prodcons/prodcons_server.c:92-116 | a result cell changes only from 0 and only by the delivering step of its own client's worker |
| ProdConsServer.ResultsAreFinal | semester-01/lab/lab-rpc/prodcons/prodcons_server.c:79-126 | under any interleaving a delivered result never changes again |
| ProdConsServer.PollsAreConsistent | semester-01/lab/lab-rpc/prodcons/prodcons_server.c:132-142 | polls with '-' are answered '-' until delivery; from then on always the worker's byte if it is in a..z, and always '-' if not |
| ProdConsServer.IdentifiersAreNeverReused | semester-01/lab/lab-rpc/prodcons/prodcons_server.c:143-146 | an identifier given out has no worker yet and is never given out again |
| ProdConsServer.Server.constructor | semester-01/lab/lab-rpc/prodcons/prodcons_server.c:35-61 | the initial semaphores, positions, letter and results |
| ProdConsServer.Server.Service | semester-01/lab/lab-rpc/prodcons/prodcons_server.c:128-172 | a poll changes nothing and is answered with the result if it asks with '-' and the result is in a..z, else with what it sent; a first request gets the next identifier and '-', and starts a consumer for type 'c', a producer for 'p', nothing for any other |
| ProdConsServer.Server.SemopCall | semester-01/lab/lab-rpc/prodcons/prodcons_server.c:83-87 | the set changes iff the call gets through |
| ProdConsServer.Server.Producer | semester-01/lab/lab-rpc/prodcons/prodcons_server.c:79-102 | one step of a producer over the shared memory is the step of the model, or it sleeps and nothing changes |
| ProdConsServer.Server.ProducerInside | semester-01/lab/lab-rpc/prodcons/prodcons_server.c:88-94 | the steps of a producer between lock and release |
| ProdConsServer.Server.Consumer | semester-01/lab/lab-rpc/prodcons/prodcons_server.c:104-126 | one step of a consumer, likewise |
| ProdConsServer.Server.ConsumerInside | semester-01/lab/lab-rpc/prodcons/prodcons_server.c:113-118 | the steps of a consumer between lock and release |
| SharedCursors.ReachableStates | semester-01/lab/lab-shmemory/semaphore/pc.c:33-104 | in every reachable state SE + SF + (1 - SB) = 26, at most one process is inside, the producers' cursor is 0 to 26 ahead, and the characters consumed are those produced, in order: 'a' + j mod 26 |
| SharedCursors.RunKeepsInv | semester-01/lab/lab-shmemory/semaphore/pc.c:33-78 | every interleaving keeps exclusion, counts and contents |
| SharedCursors.StepKeepsCounted | semester-01/lab/lab-shmemory/semaphore/pc.c:33-78 | each step keeps the semaphores equal to what the cursors say |
| SharedCursors.StepKeepsSpelled | semester-01/lab/lab-shmemory/semaphore/pc.c:42-68 | each step keeps the cells before the producers' cursor, and the consumed characters, the letters in order |
| SharedCursors.StepKeepsExclusive | semester-01/lab/lab-shmemory/semaphore/pc.c:22-25 | each step keeps at most one process inside |
| SharedCursors.ReadsAreOfWrittenCells | semester-01/lab/lab-shmemory/semaphore/pc.c:66-68 | a consumer never reads a cell that was not written, nor outside the segment |
| SharedCursors.WritesNextLetter | semester-01/lab/lab-shmemory/semaphore/pc.c:42-44 | a producer writes 'a' + j mod 26 into cell j, the next one, and holds the same letter to print |
| SharedCursors.ReleasesNeverBlock | semester-01/lab/lab-shmemory/semaphore/pc.c:23-25 | a process inside is never put to sleep on its way out |
| SharedCursors.NoDeadlock | semester-01/lab/lab-shmemory/semaphore/pc.c:33-78 | with a producer, a consumer and room left in the segment, in every reachable state some process can take a step |
| SharedCursors.StartIsInvariant | semester-01/lab/lab-shmemory/semaphore/pc.c:93-104 | the initial values satisfy the invariant |
| SharedCursors.Segment.constructor | semester-01/lab/lab-shmemory/semaphore/pc.c:93-104 | the segment and the semaphores as `main` sets them up |
| SharedCursors.Segment.Producer | semester-01/lab/lab-shmemory/semaphore/pc.c:33-55 | one step of a producer over the segment is the step of the model |
| SharedCursors.Segment.Consumer | semester-01/lab/lab-shmemory/semaphore/pc.c:57-78 | one step of a consumer, likewise |
| WriterCounter.WaitingIsInvisible | semester-01/lab/lab-shmemory/semaphore/wr.c:39-53 | the lock arrays have the same outcome as the shorter arrays without their WAITING operations |
| WriterCounter.ShortEffects | semester-01/lab/lab-shmemory/semaphore/wr.c:39-54 | the exact outcome of the shorter arrays and the release arrays |
| WriterCounter.WriterKeepsInv | semester-01/lab/lab-shmemory/semaphore/wr.c:100-120 | each step of a writer keeps counts, exclusion and the counter |
| WriterCounter.ReaderKeepsInv | semester-01/lab/lab-shmemory/semaphore/wr.c:79-98 | each step of a reader keeps them too |
| WriterCounter.NoLostUpdate | semester-01/lab/lab-shmemory/semaphore/wr.c:100-119 | in every reachable state BIN_WRITER + ACTIVE_WRITER = 1, both WAITING semaphores are 0, one writer at most is inside, the counter is the number of completed increments, and the k-th letter printed by writers is 'a' + k mod 26 |
| WriterCounter.ReaderEntersIffWriterInside | semester-01/lab/lab-shmemory/semaphore/wr.c:39-46 | a reader gets in iff a writer is inside, and out iff none is |
| WriterCounter.ReaderJoinsWriter | semester-01/lab/lab-shmemory/semaphore/wr.c:39-53 | from the start any writer can enter and then any reader, and both are inside together |
| WriterCounter.NoDeadlock | semester-01/lab/lab-shmemory/semaphore/wr.c:39-54 | with a writer, in every reachable state some process can take a step |
| WriterCounter.ReaderPrintsLatestLetter | semester-01/lab/lab-shmemory/semaphore/wr.c:89 | a reader's letter is the one writers printed last or the writer inside is about to print; before the first increment it is the character before 'a' |
| WriterCounter.StartIsInvariant | semester-01/lab/lab-shmemory/semaphore/wr.c:140-164 | the initial values satisfy the invariant |
| WriterCounter.Segment.constructor | semester-01/lab/lab-shmemory/semaphore/wr.c:140-164 | the counter and the semaphores as `main` sets them up |
| WriterCounter.Segment.Writer | semester-01/lab/lab-shmemory/semaphore/wr.c:100-120 | one step of a writer is the step of the model, the increment being a load and a store |
| WriterCounter.Segment.Reader | semester-01/lab/lab-shmemory/semaphore/wr.c:79-98 | one step of a reader, likewise |
| Letters.FillBoard | semester-02/lab/lab-socket/task-04/server.c:176-182 | the two loops fill cells 0 to 25 with a..z and cells 26 to 51 with A..Z |
| Letters.FirstUnoccupied | semester-02/lab/lab-socket/task-05/client.c:24-29 | the index of the first letter, with no letter before it; -1 iff there is none |
| Letters.FindFirstUnoccupied | semester-02/lab/lab-socket/task-05/client.c:24-29 | the scanning loop finds the first character in a..z or A..Z, or -1 if there is none |
| Letters.FirstUnoccupiedOnBoard | semester-02/lab/lab-socket/task-04/client.c:23-29 | on a board whose first d letters are taken it is d, or -1 for a full one |
| Letters.MarkingExtendsPrefix | semester-02/lab/lab-socket/task-04/server.c:95 | marking any cell up to the first free one leaves the taken cells a prefix |
| LetterBoard.WaitingIsInvisible | semester-02/lab/lab-socket/task-04/server.c:40-57 | the start arrays have the same outcome as the shorter arrays without their WAITING operations |
| LetterBoard.StartEffects | semester-02/lab/lab-socket/task-04/server.c:40-61 | in a reachable state which of the four arrays get through, in terms of who is inside and who left out of range |
| LetterBoard.HandlerKeepsCounted | semester-02/lab/lab-socket/task-04/server.c:73-132 | each step of a handler keeps the semaphores equal to the numbers of readers and of writers inside, plus out-of-range exits, for any index |
| LetterBoard.StepKeepsCounted | semester-02/lab/lab-socket/task-04/server.c:209-236 | so does every step: of a handler, of a client, or a request from anybody for the board or for any index |
| LetterBoardRuns.RunKeepsInv | semester-02/lab/lab-socket/task-04/server.c:73-236 | every run, whoever asks for whatever, keeps the counts, each cell its letter or '-', the handlers' copies and readings, and the letters handed out those of the taken cells |
| LetterBoardRuns.SemaphoresCount | semester-02/lab/lab-socket/task-04/server.c:40-132 | in every reachable state ACTIVE_READERS counts the readers inside, ACTIVE_WRITER the writers inside plus all past out-of-range exits, never both positive, both WAITING semaphores 0 |
| LetterBoardRuns.TornReadFreedom | semester-02/lab/lab-socket/task-04/server.c:112-132 | with the copy made cell by cell amid any readers and writers, what a reader sends is the whole board as at its start_read, and the board is still that at its stop_read |
| LetterBoardRuns.NoReaderWhileWriting | semester-02/lab/lab-socket/task-04/server.c:40-57 | while a writer is inside no reader is |
| LetterBoardRuns.CellsOnlyBecomeTaken | semester-02/lab/lab-socket/task-05/server.c:72-104 | in every run a cell stays as it is or goes from its letter to '-' |
| LetterBoardRuns.OccupiedImpliesEarlierTaker | semester-02/lab/lab-socket/task-05/server.c:72-104 | in every reachable state a writer about to answer "occupied", for whatever index, was preceded by one that took that letter |
| LetterBoardRuns.ReleasesNeverBlock | semester-02/lab/lab-socket/task-04/server.c:48-61 | stop_read and stop_write never block |
| LetterBoardRuns.WhoGetsIn | semester-02/lab/lab-socket/task-04/server.c:40-57 | a reader gets in iff no writer is inside and none ever left out of range; a writer iff no reader is inside |
| LetterBoardRuns.ReachableEntries | semester-02/lab/lab-socket/task-04/server.c:40-132 | the same in every reachable state, where every handler inside can take a step |
| LetterBoardRuns.ExitLocksReadersOut | semester-02/lab/lab-socket/task-04/server.c:81-90 | after one out-of-range exit, whatever letters are left, no start_read succeeds in any continuation |
| LetterBoardHandOuts.HandedOutOnceIffNoOverlap | semester-02/lab/lab-socket/task-04/server.c:91-98 | for any run from the start that ends with no writer between reading a free cell and marking it: each letter is handed out at most once iff in no state two writers had both read the same free cell and not yet marked it |
| LetterBoardHandOuts.DoomedIffOverlap | semester-02/lab/lab-socket/task-04/server.c:91-98 | after any run at all, a letter was handed out twice or will be by the writers inside, or two overlap now, iff two overlapped somewhere in the run or it began so |
| LetterBoardHandOuts.NoOverlapHandsOutOnce | semester-02/lab/lab-socket/task-04/server.c:91-98 | at any moment of a run without an overlap no letter was handed out twice |
| LetterBoardHandOuts.WritersInTurnHandOutOnce | semester-02/lab/lab-socket/task-04/server.c:52-98 | if writers are inside one at a time throughout a run, each letter is handed out at most once |
| LetterBoardHandOuts.HandOutsExceedCellsByDoubleMarks | semester-02/lab/lab-socket/task-04/server.c:91-98 | in any run the letters handed out exceed the cells taken by exactly the marks of cells marked since they were read |
| LetterBoardHandOuts.HandedOutOnceIffNoDoubleMark | semester-02/lab/lab-socket/task-04/server.c:91-98 | the letters handed out stay distinct iff there is no such mark |
| LetterBoardReplies.AnswersAreKept | semester-02/lab/lab-socket/task-04/server.c:73-132 | in every run each handler goes on from where it was: a writer keeps the cell it was asked for and what it read there, and that is what it answers; what a reader sent stays what it sent |
| LetterBoardReplies.AnswerIsWhatWasInTheCell | semester-02/lab/lab-socket/task-04/server.c:91-99 | whatever happens after a writer looked at its cell, if it has answered then with the letter that was in the cell, or "occupied" if that was taken |
| LetterBoardReplies.RunKeepsAccounted | semester-02/lab/lab-socket/task-04/server.c:91-99 | in every run the letters handed out correspond one to one to the writers that took one, with cell and letter |
| LetterBoardReplies.OccupiedReplyHasTaker | semester-02/lab/lab-socket/task-04/server.c:92-93 | in every reachable state a writer that found its cell taken, or has answered so, has another one that took that cell's letter and answers with it |
| LetterBoardReplies.TakersDifferIffDistinct | semester-02/lab/lab-socket/task-04/server.c:91-98 | no two writers took the same letter iff the letters handed out are distinct |
| LetterBoardReplies.RepliesDifferIffNoOverlap | semester-02/lab/lab-socket/task-04/server.c:91-103 | for any run from the start after which no letter is still to be sent: all clients were sent different letters iff in no state two writers had both read the same free cell and not yet marked it |
| LetterBoardReplies.NoOverlapRepliesDiffer | semester-02/lab/lab-socket/task-04/server.c:91-103 | at any moment of a run without an overlap all clients were sent different letters |
| LetterBoardExit.OutOfRangeRequestExits | semester-02/lab/lab-socket/task-04/server.c:73-90 | in any state with no reader inside, one request for a cell that does not exist takes the exit, with board and letters unchanged |
| LetterBoardExit.OneRequestLocksFullBoard | semester-02/lab/lab-socket/task-04/server.c:73-90 | from the start such a request leaves the full board unreadable in every continuation |
| LetterBoardExit.OwnClientsReachExit | semester-02/lab/lab-socket/task-04/client.c:40-114 | any one of the own clients can take all letters and then bring the exit about itself |
| LetterBoardExit.LeadsByTaking | semester-02/lab/lab-socket/task-04/client.c:50-113 | a client that is left alone takes the first free letter and is ready again |
| LetterBoardClients.IndicesStayInPrefix | semester-02/lab/lab-socket/task-05/client.c:24-88 | in every run in which only the own clients ask for cells, the taken cells are a prefix, every index a client holds or sent is at most its length, or -1 with the board full, and an out-of-range request means a full board |
| LetterBoardClients.RunKeepsPrefix | semester-02/lab/lab-socket/task-05/server.c:72-123 | in such a run the taken cells stay a prefix that only grows |
| LetterBoardClients.MarkingKeepsPrefix | semester-02/lab/lab-socket/task-05/server.c:72-104 | a writer's mark, however stale its index and its reading, extends the prefix by one or not at all |
| LetterBoardClients.ClientKeepsPrefix | semester-02/lab/lab-socket/task-05/client.c:44-107 | a client's step, even through the shared index variable, keeps every index within the prefix |
| LetterBoardCopies.CopiesAreOfTheRun | semester-02/lab/lab-socket/task-05/client.c:44-92 | in every run in which only the own clients ask for cells, every board sent or received is, whole, one that there was in the run, and every index held or sent is the first free cell of such a board |
| LetterBoardCopies.AssignmentIsSeenBy | semester-02/lab/lab-socket/task-05/client.c:30-69 | an index that a thread assigns is what all threads hold then; one that a process assigns is its own |
| LetterBoardCopies.ProcessAsksForItsChoice | semester-02/lab/lab-socket/task-04/client.c:77-94 | a process asks for the first free cell of the very board it received, whatever the others do in between |
| LetterBoardTwice.OverlappingWritersShareALetter | semester-02/lab/lab-socket/task-04/server.c:52-98 | two writers waiting for the same free cell can both be handed its letter, whichever cell it is |
| LetterBoardTwice.SomeLetterIsHandedOutTwice | semester-02/lab/lab-socket/task-04/server.c:73-110 | with two of the own clients, threads or processes, a run from the start hands 'a' out twice |
| LetterBoardTwice.LeadsByFetching | semester-02/lab/lab-socket/task-05/client.c:44-92 | while nobody is inside, a client can always read the board and ask for its first free cell |
| LetterBoardServer.Server.constructor | semester-02/lab/lab-socket/task-04/server.c:176-192 | the full board and four semaphores at 0 |
| LetterBoardServer.Server.HandleClient | semester-02/lab/lab-socket/task-05/server.c:125-149 | 'r' starts a reader, 'w' a writer for the index that follows, whatever it is; any other byte starts nothing |
| LetterBoardServer.Server.Reader | semester-02/lab/lab-socket/task-05/server.c:106-123 | one step of `reader` over the shared board is the step of the model, and keeps the invariant |
| LetterBoardServer.Server.Writer | semester-02/lab/lab-socket/task-05/server.c:72-104 | one step of `writer` is the step of the model, of which `AnswersAreKept` and `AnswerIsWhatWasInTheCell` say what is sent, and keeps the invariant |
| SequentialBoard.Server.constructor | semester-02/lab/lab-socket/task-06/server.c:104-110 | the full board |
| SequentialBoard.Server.Writer | semester-02/lab/lab-socket/task-06/server.c:47-63 | out of range: "buffer empty", the board kept and the loop ended; a cell holding '-': "occupied" with board and loop kept; else the letter in the cell, which is then '-' |
| SequentialBoard.Server.Reader | semester-02/lab/lab-socket/task-06/server.c:65-70 | the loop of `strncpy`, which would stop at a NUL, never stops early, so the first letter a client finds in the reply is what a request at once is answered with, and it finds none iff no letter is left |
| SequentialBoard.ReadThenTake | semester-02/lab/lab-socket/task-06/client.c:65-100 | on any board, taking the first free cell of a fresh copy hands out the letter of that cell, all cells before it being taken; with no letter left the request is for cell -1 |
| SequentialBoard.LettersAreConserved | semester-02/lab/lab-socket/task-06/server.c:47-87 | for any requests on any board the letters handed out and the letters still free make up the letters there were |
| SequentialBoard.HandedOutAtMostOnce | semester-02/lab/lab-socket/task-06/server.c:47-87 | for any requests from the start no letter is handed out twice |
| SequentialBoard.StepKeepsOrder | semester-02/lab/lab-socket/task-06/client.c:45-108 | each step of client threads sharing one index keeps the taken cells a prefix, the replies the alphabet and all indices within it |
| SequentialBoard.RepliesSpellAlphabet | semester-02/lab/lab-socket/task-06/client.c:23-88 | however the threads interleave, the successful replies are in order 'a' to 'z' and then 'A' to 'Z', as far as they go, exactly the taken cells |
| SequentialBoard.LoneClientTakesNext | semester-02/lab/lab-socket/task-06/client.c:45-100 | a client left alone for one turn is handed the next letter, and nothing once none is left |
| Xdr.WordRoundTrip | semester-01/lab/lab-rpc/bakery/bakery_xdr.c:27-30 | reading four bytes, most significant first, undoes writing them |
| Xdr.ParseUndoesEncoding | semester-01/lab/lab-rpc/bakery/bakery_xdr.c:14-63 | any words are recovered from their encoding, whatever follows it |
| Xdr.RequestRoundTrip | semester-01/lab/lab-rpc/bakery/bakery_xdr.c:8-64 | a request takes 28 bytes; decoding them gives it back and leaves the rest of the stream as it was |
| Xdr.WrittenIsLaidOut | semester-01/lab/lab-rpc/bakery/bakery_xdr.c:14-38 | the written bytes are pid, idx, num, op, arg1, arg2, res in this order, four bytes each, most significant first, negative ints in two's complement |
| Xdr.FilledIsLaidOut | semester-01/lab/lab-rpc/bakery/bakery_xdr.c:39-63 | the fields read are those that the bytes hold in that layout |
| Xdr.Stream.Inline | semester-01/lab/lab-rpc/bakery/bakery_xdr.c:15 | gives out the next bytes iff the stream is willing and has them |
| Xdr.Stream.PutWord | semester-01/lab/lab-rpc/bakery/bakery_xdr.c:17-24 | writes one word and moves on, or fails without effect if none fits |
| Xdr.Stream.GetWord | semester-01/lab/lab-rpc/bakery/bakery_xdr.c:42-49 | reads one word and moves on, or fails without effect |
| Xdr.Stream.EncodeInts | semester-01/lab/lab-rpc/bakery/bakery_xdr.c:15-31 | the inline path and the field-by-field path write the same words |
| Xdr.Stream.Encode | semester-01/lab/lab-rpc/bakery/bakery_xdr.c:14-38 | by either path exactly the words that fit are written, nothing else changes, and it succeeds iff all seven fit; the stream then holds the request in the layout of the standard |
| Xdr.Stream.DecodeInts | semester-01/lab/lab-rpc/bakery/bakery_xdr.c:40-56 | both paths read the same words |
| Xdr.Stream.Decode | semester-01/lab/lab-rpc/bakery/bakery_xdr.c:39-64 | by either path the fields whose words are there are filled in, the others kept, and it succeeds iff all seven are there; the request is then the one that the stream holds in the layout of the standard |

## Left out

What the models do not capture of the programs they are about:

- Semaphores: no limit on a semaphore's value, no error of `semop` other than a semaphore number out of range, no removal of the set; the processes that exit on such errors are not modelled.
- Bakery.BakeryServer.GetNumber: requires that the largest ticket is below the largest int, because the C increment is undefined there; `TicketsBoundedByCalls` says how many calls that takes.
- Bakery.BakeryServer.Service: floats are real numbers and a separate INFINITY, so rounding, overflow and NaN are not modelled; an operation that itself yields an infinite float is not distinguished.
- Bakery.PollServer: the server's answers are a parameter; sleeping, RPC timeouts and the null reply read after the loop are not modelled.
- Walker.Ftw.Walk: the tree does not change during the walk; names fit the 200-byte buffer of a node, `malloc`, `readdir`, `getcwd` and `closedir` do not fail, `chdir("..")` succeeds, and the printing of names and percentages is left out. The tree ends at the start directory, so nothing is said about entries above it.
- Fortune.WriteKeepsOnPage: excludes the same two writes as `Fortune.CookiePot.Write`.
- Fortune.PageRunServesRecords: excludes runs with those two writes.
- Fortune.ReadsAreRoundRobin: excludes runs with those two writes.
- Fortune.CookiePot.Write: excludes an empty first write and the one length over the free space that the guard lets through, which both store outside the page (`StoresInPageIff`); what such a store does is undefined in C.
- Fortune.CookiePot.Read: the length of the caller's buffer is ignored, as the code ignores it; whether the copy to it succeeds is a parameter.
- ProdConsServer.Server.Service: at most 1048576 identifiers, the size of the result array; a handler is one step, its three reads of a result cell one read, which `OnlyOwnWorkerDelivers` justifies. The unsynchronised read of a result is taken as atomic. The client stub, whose threads share one static reply, is left out.
- ProdCons.ProducerKeepsSpelled: a char is taken to be signed and 8 bits wide.
- SharedCursors.ReachableStates: up to 4080 productions, where the segment ends; the code does not stop there.
- WriterCounter.NoLostUpdate: the counter is unbounded; `stop_write` is taken as the two operations of its array, the count of 3 it passes being larger than the array.
- LetterBoardRuns.RunKeepsInv: messages are whole and sockets do not fail; a handler's SIGINT to itself, which ends accepting in that process, is not modelled beyond the exit it takes. Clients loop for ever.
- SequentialBoard.Server.Writer: the `select` loop around the handler and its descriptors are left out.
- Xdr.Stream.Encode: the stream is a memory stream; whether it gives out an inline buffer is a parameter. The path of `xdr_REQUEST` that only frees is left out, because it does nothing for these fields.

Concurrency is sequentially consistent in all models: C compiler and memory reordering are not
covered. Progress under fair scheduling is not claimed, only that releases never block, that the
walk terminates, and the deadlock freedoms above.

What is not modelled at all:

- semester-01/lab/lab-shmemory/mutex/main.c: its checks and updates are not protected together, so exclusion is not a property of it.
- The buffering exercises, whose behaviour is that of a standard library not in the repository.
- Daemons, process exercises, kernel module skeletons, seq files, keyboard handlers, `/proc` readers and the VFS module: wrappers around system calls or logic of one branch.
