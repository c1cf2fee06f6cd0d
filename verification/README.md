# TernFS kernel client: verified protocols and layouts

A Dafny model of the hard parts of the TernFS Linux kernel client, with proofs.  `dafny verify dfyconfig.toml`
checks all of it.

| file | what it models |
|---|---|
| BlockSocket.dfy, BlockService.dfy | the block socket: reference count, request lists, exactly-once completion, as a state machine; what an idle socket can do |
| BlockStream.dfy | the incremental receiver of block fetch responses against reading a byte at a time |
| BlockWrite.dfy, PageOrder.dfy | sending a block over partial sends, and giving page lists back in order |
| BadAddrs.dfy | the bad-address table against a plain map |
| SpanWrite.dfy | block completions, certification and retries of one span, as a state machine |
| SpanLayout.dfy, SpanChecksum.dfy | span geometry, dealing of pages to blocks, cell, block and span checksums |
| Crc32c.dfy | CRC-32C as polynomials modulo the Castagnoli polynomial (section 12.1 of RFC 3720), append and zero-extend |
| FileWrite.dfy | appends, forward seeks and extending truncates cut into spans |
| Latch.dfy, Getattr.dfy | the sequence-number latch and the asynchronous getattr protocol |
| Metadata.dfy | metadata requests: tree, reply buffers, ids, backoff, as a state machine |
| DirPages.dfy, Readdir.dfy | the packed directory cache and the resumable, seekable reader |
| DirCache.dfy | references to cached listings: readers under RCU, droppers, publication, as a state machine |
| FetchState.dfy | the drain of a span fetch, as a state machine |
| SpanWire.dfy, Bytes.dfy | the span list decoder and its round trip |

Code that loops or updates fields is modelled by methods and classes proved against specification functions.
Concurrent protocols are state machines whose steps are single atomic operations or lock-held regions; work
queues, timers, RCU grace periods, the network, allocation failures and scheduling choose freely among the
enabled steps, and the results hold for every run of any number of threads.

## What the proofs found

Where a promise does not hold for all inputs, the code is modelled as it is, and the exact condition is proved.

- Getattr: the synchronous cancel (`kmod/inode.c:165`) is safe exactly when it takes over pending work with nothing
  else of that getattr in flight (`Getattr.CancelSafeIffClean`).  A starter whose own work has run already can
  cancel the work of a later one; it then releases the update latch under a starter that still holds the init
  latch, or leaves its request linked or its reply attached (`Getattr.UnsafeCancelReachable`).  A cancel that finds
  the work idle keeps it from being scheduled until it returns, which can be after the update latch is free again;
  the next starter then fails its assertion, or a reply callback loses the completion
  (`Getattr.IdleCancelFails`, `Getattr.IdleCancelReachable`).
- Span writes: the attempt counter has 8 bits, so a limit above 255 is no limit (`SpanWrite.AttemptsBoundedIff`).
- Fetch responses: an error response with code 0 stops its socket for good (`BlockStream.NoProgressIffZeroCode`),
  and a request made with block CRC 0 misreads the CRCs (`BlockStream.ParsedRightIffCrc`).
- Page lists: a list of only -1 indices comes back rotated (`BlockStream.FetchRequest.Complete`), and a write hands
  the list back wrongly if a page it never reached starts out marked (`BlockWrite.WriteRequest.Complete`).
- Directories: a seek to a hash that two pages share misses entries (`Readdir.SeeksRightIff`,
  `Readdir.DuplicateMissed`), entries with hash 0 or 1 are skipped (`Readdir.FullIff`), and hashes from 2^63 - 1 on
  break the position (`Readdir.ListsRightIff`).
- Span policies: parity 0 doubles as "not found" (`SpanLayout.PicksLeastCovering`), and a span that no entry covers
  gets the last entry (`SpanLayout.PicksLastWhenUncovered`).
- File writes: a maximal span size of 0 makes seeks and truncates loop forever (`FileWrite.ProgressIff`,
  `FileWrite.ZeroedStays`), and a non-blocking write can leave EAGAIN on the file for good (`FileWrite.WriteSeals`).
- Metadata requests: with an initial timeout of 0 the number of sends has no bound (`Metadata.SendsBoundedIff`), and
  request ids repeat after 2^54 allocations of one CPU (`Metadata.RequestIdsCollide`).

## Assumptions

- Memory is sequentially consistent; RCU, the red-black tree and the kernel lists do what they promise.
- The receive callback of one block socket runs one at a time, and the server sends no more than it was asked for.
- Block ids within one attempt of a span are distinct and nonzero, as the shard assigns them.
- A work item runs on one worker at a time; a synchronous cancel keeps it from being scheduled and waits for a
  running instance, and several cancels may do so at once.
- A reply to an asynchronous metadata request comes after its send has succeeded.
- A copy into new pages that is asked for something copies something or fails.
- The clock does not run backwards and stays below 2^63; new write pages are zero-filled.
- The shard sends directory entries in hash order.

## Model

| member | source | states |
|---|---|---|
| `BlockSocket.CompletedOnce` | kmod/block.c:691-1027 | in every reachable state of every interleaving a request is scheduled for completion at most once and is then on neither list, and once the socket is freed exactly the enqueued requests have been completed; the next rows say by which steps |
| `BlockSocket.LeavesByItsStep` | kmod/block.c:691-1027 | while the socket lives, a started request that is off the write list was taken off by the step that wrote all of it, and one that is off the read list by the step that received its whole response |
| `BlockSocket.CompletedAfterBoth` | kmod/block.c:740-1022 | a completion scheduled before the final put comes after both of those steps |
| `BlockSocket.FirstErrorStays` | kmod/block.c:513-520 | the first error of a socket is the one it keeps |
| `BlockSocket.SubmitsToHealthy` | kmod/block.c:1104-1140 | who enqueues a request has seen the socket without an error while holding a reference |
| `BlockSocket.WritesAreCarried` | kmod/block.c:498-770 | while a socket without an error has something to write, the work is queued, or some thread is going to queue it or write, or the last write found no room and the write-space callback has yet to come |
| `BlockSocket.QuietMeansDone` | kmod/block.c:592-770 | when no thread, queued work or grace period is left, the socket is in service without an error and has nothing to send, or it has been freed |
| `BlockSocket.NeverStuck` | kmod/block.c:447-1046 | as long as anything is going on some step can be taken |
| `BlockService.RequestIsServed` | kmod/block.c:691-1146 | from every idle state of a socket in service with room to send, a submitted request can be written, answered and completed after everything sent before it, and the socket is then as it was |
| `BlockService.RoomResumes` | kmod/block.c:769-782 | when there is room again, the write-space callback queues the work of an idle socket |
| `BlockService.FailureFreesSocket` | kmod/block.c:447-690 | from every idle state of a socket in service, a state change, a walk that gives sockets up or a timeout with any error code leads to a freed socket with that error and with every request ever started completed, each once |
| `BlockService.ReceiveAll` | kmod/block.c:985-1022 | the receive callback completes the waiting requests in the order in which they were enqueued |
| `BlockSocket.NoUseAfterFree` | kmod/block.c:528-1046 | a thread that is doing anything with the socket finds it allocated, also a walk over the table that follows the link of a socket whose reference it has given up, and no writer, receiver or teardown step touches a request whose completion has been scheduled |
| `BlockSocket.ReferencesAreCounted` | kmod/block.c:407-520 | the reference count is the table or RCU reference plus the pending-work reference plus one per thread that owns one; at zero the socket is out of the table, detached and has no work pending |
| `BlockSocket.CountChecksHold` | kmod/block.c:407-450 | a hold never finds the count at zero and a put never takes it below zero, so the two assertions cannot fail |
| `BlockSocket.History` | kmod/block.c:447-487 | completions are never taken back, and a freed socket is never changed again |
| `BlockSocket.StepKeepsInv` | kmod/block.c:592-1146 | every atomic step of submitters, write work, receive callbacks, timeouts and teardown keeps the inductive invariant |
| `BlockSocket.RunHasInv` | kmod/block.c:592-1146 | the invariant holds in every state of every run, for any number of threads |
| `BlockSocket.LeftoversElements` | kmod/block.c:459-472 | what the final put completes is every request still on one of the two lists, each once |
| `BlockSocket.CompleteRest` | kmod/block.c:459-480 | the three loops of the final put schedule exactly that list |
| `BlockStream.SegmentedResponsesInOrder` | kmod/block.c:960-1027 | for every segmentation of a stream of responses the i-th response completes the i-th queued request, and the result is that of parsing each response whole: page k has its 4096 bytes and the 4 CRC bytes after them |
| `BlockStream.ResponsesInOrder` | kmod/block.c:985-1022 | the same for the stream delivered in one piece, for success responses and errors with a nonzero code |
| `BlockStream.AnySegmentation` | kmod/block.c:960-1027 | delivering segment by segment comes to the same as delivering their concatenation |
| `BlockStream.DeliverConcat` | kmod/block.c:960-1027 | delivering two pieces one after the other is delivering them joined |
| `BlockStream.ReadResponse` | kmod/block.c:1256-1375 | reading the bytes of one response one at a time parses it as a whole, with the pages back in their order |
| `BlockStream.FetchRequest.ReceiveSingle` | kmod/block.c:1256-1375 | one call consumes what the byte-at-a-time reading consumes and leaves the same header, cursor, error and pages; a wrong protocol number is reported exactly when that reading meets one |
| `BlockStream.FetchRequest.CopyBody` | kmod/block.c:1309-1363 | the two nested copy loops, for any fragmentation of the socket buffer, refine the byte-at-a-time reading |
| `BlockStream.FetchRequest.CopyError` | kmod/block.c:1291-1300 | the error branch refines the byte-at-a-time reading |
| `BlockStream.FetchRequest.CopyHeader` | kmod/block.c:1269-1283 | appends as many bytes to the header as there are, up to its size |
| `BlockStream.FetchRequest.PutChunk` | kmod/block.c:1326-1361 | one memcpy and the move of the cursor to the CRC or to the next page |
| `BlockStream.PartialFetchTurns` | kmod/block.c:1340-1361 | for every data, cut off anywhere, the page list is the original one rotated once for every finished page, and the cursor is at the remainder |
| `BlockStream.FetchRequest.Complete` | kmod/block.c:1209-1229 | after any partial transfer the completion gives the pages back in the order of the request, with what was read into them, if and only if one has a real index or the list had come round |
| `BlockStream.FetchSocket.Receive` | kmod/block.c:960-1027 | the socket loop refines delivery byte by byte; it takes all data unless the stream is blocked, makes progress whenever it is not, and reports data without a request |
| `BlockStream.FetchSocket.ReceiveFirst` | kmod/block.c:985-1022 | one turn of that loop: the first request reads what it can and leaves the queue exactly when it is done |
| `BlockStream.NoProgressIffZeroCode` | kmod/block.c:1291-1300 | a waiting request takes nothing of more data if and only if it has received an error response with code 0 |
| `BlockStream.ZeroCodeBlocks` | kmod/block.c:996-999 | such a response blocks its socket for good |
| `BlockStream.ProtocolIff` | kmod/block.c:1285-1290 | a response is taken for one of the wrong protocol if and only if its first four bytes are not the protocol number |
| `BlockStream.WrongProtocolFails` | kmod/block.c:985-1000 | such a response fails the socket, and no later data is taken |
| `BlockStream.ParsedRightIffCrc` | kmod/block.c:1343-1354 | every success response is parsed right if and only if the request was made with a nonzero block CRC |
| `BlockWrite.WriteRequest.WriteReq` | kmod/block.c:1592-1683 | for every sequence of answers of the socket, the bytes sent are the next bytes of the message (header, then the pages in order) and the page list stays at that position; how many bytes, the return value (their number, or the first answer met that is an error other than EAGAIN) and whether there is no room are those that the next row describes |
| `BlockWrite.SentMeans` | kmod/block.c:1616-1671 | sending goes on from answer to answer until the whole message is out or the first answer that is not positive, which is the error it ends with |
| `BlockWrite.WriteRequest.SendHead` | kmod/block.c:1609-1643 | sends consecutive bytes of the header, answer by answer, and ends with the first error |
| `BlockWrite.WriteRequest.SendPages` | kmod/block.c:1646-1671 | sends consecutive bytes of the block, answer by answer, ends with the first error, and keeps page list, offsets and marks in step |
| `BlockWrite.WriteRequest.Account` | kmod/block.c:1661-1669 | the page list after part of a page is sent |
| `BlockWrite.WriteRequest.constructor` | kmod/block.c:1774-1820 | the request starts with its first page marked and nothing sent |
| `BlockWrite.WriteRequest.Complete` | kmod/block.c:1545-1556 | the completion loop gives the page list back in its original order if and only if no page from the current one on is still marked, in fewer turns than there are pages |
| `BlockWrite.UnmarkedIsRestored` | kmod/block.c:1807-1809 | if only the first page starts out marked, the original order is restored after any partial or full transfer |
| `BlockWrite.MarkedPageShows` | kmod/block.c:1553-1555 | a later page that starts out marked is left in front instead |
| `BlockWrite.PagesAdvance` | kmod/block.c:1661-1670 | sending part of a page keeps the list a rotation of the original one by the whole pages sent |
| `BlockWrite.MarksAdvance` | kmod/block.c:1664-1669 | and keeps the marks those of the pages not reached yet |
| `PageOrder.RestoreFetched` | kmod/block.c:1209-1229 | the fetch rotation loop gives any rotation of an increasing index list with a tail of -1 back in order, in fewer than n turns; the original order comes back if and only if there is a real index or nothing was rotated |
| `PageOrder.OutOfOrderIff` | kmod/block.c:1217 | the loop test recognises the original order among all rotations |
| `BadAddrs.Table.IsBad` | kmod/block.c:90-117 | with nondecreasing time and a positive cooldown the answer is that of a plain map from address to the end of its last mark |
| `BadAddrs.Table.Mark` | kmod/block.c:119-178 | the plain map is updated for the address, minus one other address if and only if the table is full, the address is new and nothing in its bucket has run out; one entry per address, count = live = size <= 256 |
| `BadAddrs.Table.SweepBucket` | kmod/block.c:139-149 | the loop renews the address, drops the stale entries of its bucket and keeps the rest and the counters |
| `BadAddrs.Table.Evict` | kmod/block.c:160-169 | removes one entry and no other |
| `BadAddrs.Table.Insert` | kmod/block.c:158-176 | adds one entry, after evicting another one exactly when the table is full |
| `BadAddrs.Table.Reap` | kmod/block.c:196-211 | removes exactly the entries that have run out, so the answers do not change |
| `BadAddrs.Table.ReapBucket` | kmod/block.c:203-207 | one bucket of it |
| `BadAddrs.Table.Clear` | kmod/block.c:180-189 | empties the table and both counters |
| `BadAddrs.Table.ClearBucket` | kmod/block.c:185-187 | one bucket of it |
| `BadAddrs.Table.constructor` | kmod/block.c:74-77 | the empty table agrees with the empty map |
| `BadAddrs.SweepFind` | kmod/block.c:142-149 | what a bucket answers for every address after a mark |
| `BadAddrs.TimeAfterIs` | kmod/block.c:110 | the signed 64-bit comparison is the plain one below 2^63 |
| `SpanWrite.OneJudgePerAttempt` | kmod/file.c:99-147 | in every run the attempts started are those for which one finalize call found all blocks finished, plus the one being written; that call sees whether any block failed |
| `SpanWrite.CertifiedOnlyWhenProved` | kmod/file.c:126-146 | at most one certify request per span, with a nonzero proof for every block and no failed block; success means it was sent, any other end leaves exactly its error on the file |
| `SpanWrite.CertifiesReported` | kmod/file.c:99-146 | every proof in the certify request is the one that the block reported in the last attempt |
| `SpanWrite.RecordsReported` | kmod/file.c:105-125 | every recorded proof or error was reported by that block since the last initiate |
| `SpanWrite.EndReported` | kmod/file.c:64-146 | the error a span ends with is that of the certify, move or initiate request that failed, or the first one among the blocks |
| `SpanWrite.FirstErrorIs` | kmod/file.c:75-85 | the error of a failed attempt is that of the first failed block |
| `SpanWrite.NeverStuck` | kmod/file.c:99-269 | as long as the span is referenced some step can be taken |
| `SpanWrite.SpanEnds` | kmod/file.c:99-269 | with a limit of at most 255 attempts every run ends after at most (3 * blocks + 2) * attempts + 2 steps, with every reference dropped and the outcome reported |
| `SpanWrite.RunEnds` | kmod/file.c:99-269 | without the limit, at most 3 * blocks + 2 steps for every attempt |
| `SpanWrite.SpanStaysReferenced` | kmod/file.c:181-269 | the reference count is that of its holders, every step finds the span referenced, and it reaches zero only when all is over |
| `SpanWrite.BlacklistGrows` | kmod/file.c:190-202 | the blacklist only grows and never exceeds 8 |
| `SpanWrite.BlacklistsFailed` | kmod/file.c:190-202 | in every run each domain that a retry adds is that of a block that failed in the attempt before, and if there is room for all of them the domain of every failed block is on the list |
| `SpanWrite.DomainsAreInitiated` | kmod/file.c:204-269 | the domains of an attempt are those its initiate request returned |
| `SpanWrite.ErroredLists` | kmod/file.c:190-202 | the listed domains are those of exactly the failed blocks, by increasing index, each once |
| `SpanWrite.AttemptsBoundedIff` | kmod/file.c:74-97 | there are at most max(1, limit) attempts in every run if and only if the limit is at most 255, since the attempt counter has 8 bits |
| `SpanWrite.AttemptsUnbounded` | kmod/file.c:90-92 | with a larger limit a failing span is tried any number of times, and with any limit as often as the bound allows |
| `SpanWrite.RunBounded` | kmod/file.c:90-97 | the bound for limits up to 255 |
| `SpanWrite.FillBlacklist` | kmod/file.c:190-202 | the loop appends the failure domains of exactly the failed blocks, by increasing index, up to the capacity; what that is for is proved over runs in the rows on the blacklist |
| `SpanWrite.MarkBlock` | kmod/file.c:110-125 | the locked loop records one result, leaves the other blocks alone, reports whether all blocks are finished and whether any failed, and makes the step of the state machine |
| `SpanWrite.StepKeepsInv` | kmod/file.c:99-269 | every step of the flusher, the block callbacks and the retries keeps the invariant |
| `SpanWrite.RunHasInv` | kmod/file.c:99-269 | the invariant holds in every state of every run |
| `SpanLayout.ComputeSpanParameters` | kmod/file.c:275-369 | the method with its two search loops computes the plan |
| `SpanLayout.PlanIsSound` | kmod/file.c:327-348 | every plan has 1 <= D <= 10, 1 <= S <= 15, cells that are whole pages, room for the span, less than D*S pages of padding, and enough pages that the page-count assertion cannot fail |
| `SpanLayout.StripesAre` | kmod/file.c:327-332 | the number of stripes is the largest one, between 1 and 15, whose target stripes fit the span, and 1 for mirrored spans |
| `SpanLayout.PlanStores` | kmod/file.c:281-367 | empty and inline spans are exactly the small ones; a span of blocks has the parity of its policy entry and the storage class of the last block policy entry whose minimal size its blocks exceed, or of the first one |
| `SpanLayout.PicksLeastCovering` | kmod/file.c:301-321 | for a sorted policy the least covering entry is used, unless its parity is 0 and it is not the first: then the code asserts |
| `SpanLayout.PicksLastWhenUncovered` | kmod/file.c:301-321 | a span that no entry covers gets the last entry, or fails when there is only one |
| `SpanLayout.UsablePlans` | kmod/file.c:275-369 | under a usable configuration every covered span is planned, with its least covering entry |
| `SpanLayout.Deal` | kmod/file.c:426-444 | the dealing loop fills every data block with S*cell pages, page j of block b being the span page its stripe and cell give |
| `SpanLayout.DealPosition` | kmod/file.c:426-444 | span page p is in block (p / cell) mod D at place ((p / cell) / D)*cell + p mod cell |
| `SpanLayout.ReadBackIsSpan` | kmod/file.c:426-444 | reading the cells back stripe by stripe recovers the page sequence |
| `SpanChecksum.ArrangeSpan` | kmod/file.c:386-487 | padding, dealing and the CRC loops together: the data blocks read back as the bytes written plus zeros, the span CRC is the CRC-32C of exactly the bytes written, and every block CRC is that of its block |
| `SpanChecksum.SpanCrc` | kmod/file.c:478-485 | appending the cell CRCs stripe by stripe over the data blocks and zero-extending by the negative padding gives the CRC of the bytes written |
| `SpanChecksum.CellChecksums` | kmod/file.c:455-477 | the page loop leaves in each slot s*B + i the CRC of cell s of block i, parity blocks included |
| `SpanChecksum.BlockChecksum` | kmod/file.c:236-242 | appending the cell CRCs of one block gives the CRC of its pages |
| `SpanChecksum.Pad` | kmod/file.c:406-421 | zero pages up to the number the blocks hold |
| `Crc32c.Crc32cUpdate` | go/core/crc32c/crc32c_body.c:193-202 | word steps then byte steps compute the CRC-32C of the buffer; the next rows tie that to machine words and to the published check value |
| `Crc32c.CrcIsWords` | go/core/crc32c/crc32c_body.c:193-202 | the CRC is the reflected 32-bit algorithm: preset to ones, eight conditional shifts by the reversed polynomial for every byte, inverted at the end |
| `Crc32c.RegIsWords` | go/core/crc32c/crc32c_body.c:193-202 | the register over polynomials is the register over machine words, for every start value and buffer |
| `Crc32c.InjectIsWord` | go/core/crc32c/crc32c_body.c:193-202 | a byte enters as the polynomial that its machine word stands for |
| `Crc32c.KnownAnswer` | go/core/crc32c/crc32c_body.c:193-202 | the CRC of the nine digits 1 to 9 is E3069283 |
| `Crc32c.Crc32cAppend` | go/core/crc32c/crc32c_body.c:309-311 | from the CRCs of a and b and the length of b, the CRC of a + b |
| `Crc32c.Crc32cZeroExtend` | go/core/crc32c/crc32c_body.c:301-307 | multiplies the complemented CRC by the power of x, or by its inverse for a negative length |
| `Crc32c.ExtendRemovesZeros` | go/core/crc32c/crc32c_body.c:301-307 | extending by n appends n zero bytes to the message, and extending by -n takes them off again |
| `Crc32c.AppendIsConcat` | go/core/crc32c/crc32c_body.c:309-311 | the append formula is the CRC of the concatenation, for every starting CRC |
| `Crc32c.CarrylessMul` | go/core/crc32c/crc32c_body.c:228-236 | 32 conditional shifted additions compute the carry-less product |
| `Crc32c.MulModP` | go/core/crc32c/crc32c_body.c:247-253 | reducing that product modulo the Castagnoli polynomial is multiplication of polynomials |
| `Crc32c.XPowBytes` | go/core/crc32c/crc32c_body.c:267-276 | multiplying the table entries that the bits of n select gives x^(8n) |
| `Crc32c.XInvPowBytes` | go/core/crc32c/crc32c_body.c:290-299 | the same with the inverse table gives x^-(8n) |
| `Crc32c.PowerTable` | go/core/crc32c/crc32c_body.c:256-265 | entry k of the power table, as the number in the source, is x^(8 * 2^k) |
| `Crc32c.InversePowerTable` | go/core/crc32c/crc32c_body.c:279-288 | entry k of the inverse table, as the number in the source, is x^-(8 * 2^k) |
| `Crc32c.WordMulIsMul` | go/core/crc32c/crc32c_body.c:251-253 | multiplying machine words step by step is multiplying the polynomials they stand for |
| `Crc32c.RegLinear` | go/core/crc32c/crc32c_body.c:193-202 | the register is linear in its start value |
| `Crc32c.MulByPower` | go/core/crc32c/crc32c_body.c:251-253 | multiplying by a power of x is shifting by it, in both directions |
| `FileWrite.TransientFile.Write` | kmod/file.c:570-659 | the write with all its refusals makes the new file and the return value of the specification that the next two rows describe |
| `FileWrite.WriteAppends` | kmod/file.c:614-659 | whatever the environment does, a write appends exactly what it reports to have written, at the end of the file, and the spans keep tiling the file |
| `FileWrite.WriteSeals` | kmod/file.c:575-636 | the error of each refusal; the span is handed over exactly when it is full and the caller can wait; a non-blocking write that finds the span before still flushing leaves EAGAIN on the file for good |
| `FileWrite.WriteRefused` | kmod/file.c:575-612 | direct writes, files not being written, files with an error, writes elsewhere than at the end and lack of memory are refused, in this order, each with its error, and change nothing |
| `FileWrite.WriteTakes` | kmod/file.c:614-659 | any other write takes the least of what is asked for, the room in the span and what could be copied, and hands the span over exactly when it is full and the caller can wait |
| `FileWrite.TransientFile.Extend` | kmod/file.c:914-926 | the loop makes the turns of the specification, one environment a turn; with spans of some size it is over after as many turns as bytes to go, with spans of no size it stays where it is until a write fails |
| `FileWrite.TransientFile.Seek` | kmod/file.c:879-936 | a seek on a file being written goes forward only, to the offset or to the position plus the offset, appends zeros, and refuses everything else; reading the position always works and changes nothing; when it is over |
| `FileWrite.TransientFile.Truncate` | kmod/inode.c:475-509 | an extending truncate appends zeros; a shrinking one, one on a finished file and a disabled one are refused; when it is over |
| `FileWrite.ZeroedAppends` | kmod/file.c:914-926 | for every sequence of environments the loop has appended zeros as far as it got, and is over exactly when it reached the target or failed |
| `FileWrite.ZeroedEnds` | kmod/file.c:914-926 | with spans of some size every sequence of as many environments as bytes to go ends the loop |
| `FileWrite.ZeroedStays` | kmod/file.c:621-636 | with spans of no size no number of turns appends a byte, and only an error ends the loop |
| `FileWrite.ProgressIff` | kmod/file.c:914-926 | every sequence of enough environments ends the loop if and only if the maximal span size is not zero |
| `FileWrite.TransientFile.Flush` | kmod/file.c:717-721 | closing hands over the rest; every span but the last has the maximal size |
| `FileWrite.TransientFile.StartFlushing` | kmod/file.c:508-565 | the current span is handed over unless a non-blocking caller would have to wait |
| `FileWrite.TilesPlace` | kmod/file.c:596-636 | byte k*max + o of the file is byte o of span k |
| `FileWrite.TilesLength` | kmod/file.c:596-636 | the sealed spans cover the file contiguously from its start |
| `Latch.Counter.TryAcquire` | kmod/latch.h:21-25 | the latch is ours exactly when the counter was even; it is odd afterwards, and this is the step of the state machine |
| `Latch.Counter.Release` | kmod/latch.h:27-32 | the release of a holder is the step of the state machine; the counter passes what the holder and its waiters saw |
| `Latch.Counter.constructor` | kmod/latch.h:16-19 | a new latch is free |
| `Latch.MutualExclusion` | kmod/latch.h:16-32 | for any number of threads at most one holds the latch, and the counter is odd exactly when one does |
| `Latch.WaiterWakesOnRelease` | kmod/latch.h:34-47 | the condition of a waiter is true exactly when the holder it saw has released |
| `Latch.WaitStaysOver` | kmod/latch.h:34-47 | the counter never decreases, so the condition stays true |
| `Latch.HandOver` | kmod/latch.h:16-47 | who tries while the latch is held sees the holder and changes nothing; once the holder releases, that wait is over and the next one who tries has the latch |
| `Getattr.ExactlyOneOwesRelease` | kmod/inode.c:108-245 | while the update latch is held for an asynchronous getattr exactly one of the threads and the pending work owes its release; acquisitions and releases match |
| `Getattr.ReferencesBalance` | kmod/getattr_completion.h:10-16 | the inode references are those of their holders, each release is followed by one put, and none is left when nothing is in flight |
| `Getattr.NothingFails` | kmod/inode.c:108-245 | no assertion fails, no completion is lost and no linked request or attached reply is overwritten, in every run whose cancels are clean |
| `Getattr.FreeLatchIsClean` | kmod/inode.c:108-185 | a getattr starts with the init latch free, the request unlinked and no reply attached; synchronous and asynchronous holders exclude each other |
| `Getattr.NeverStuck` | kmod/inode.c:108-245 | while the update latch is held for an asynchronous getattr, its work can run or a thread inside the protocol can take its next step |
| `Getattr.ReplyArrives` | kmod/inode.c:130-245 | from every state in which a starter is about to send, the request can be sent and answered, and the work then runs at once and finds the reply |
| `Getattr.CollectedIsReleased` | kmod/getattr_completion.h:10-16 | the work takes the reply, frees the update latch with the number it was acquired with and drops the reference |
| `Getattr.UnsentIsUndone` | kmod/inode.c:126-168 | a starter that need not or cannot send while its work is pending leaves both latches free, the request unlinked, the work idle and one reference less |
| `Getattr.CancelSafeIffClean` | kmod/inode.c:161-168 | a cancel, of pending or of idle work, keeps every continuation from failing if and only if it takes over pending work with the init latch free, the request out of the tree and no reply attached |
| `Getattr.UnsafeCancelReachable` | kmod/inode.c:118-168 | a run in which a delayed starter cancels the work of a later one and the cancel is not safe |
| `Getattr.OwnCancelIsClean` | kmod/inode.c:161-168 | a starter that cancels its own work always does so cleanly |
| `Getattr.UncleanCancelFails` | kmod/inode.c:115-124 | after any cancel of pending work that is not clean, the next starter meets a failed assertion, a request that is linked already or a reply that would be lost |
| `Getattr.IdleCancelFails` | kmod/inode.c:124-165 | after any cancel that finds the work idle, whatever else is going on, someone can meet the assertion that the work is scheduled or lose the completion, because the cancel keeps the work from being scheduled until it returns |
| `Getattr.IdleCancelReachable` | kmod/inode.c:118-168 | a run in which a starter cancels idle work while the completion is leaving, and the next starter cannot schedule its work |
| `Getattr.StepKeepsInv` | kmod/inode.c:108-245 | every clean step of starters, completion work, reply callback and synchronous getattr keeps the invariant; a synchronous cancel is two steps that claim the work and give the claim up once no completion runs |
| `Getattr.StepKeepsCore` | kmod/inode.c:108-245 | all of the invariant but the claims survives cancels of idle work too |
| `Getattr.RunHasInv` | kmod/inode.c:108-245 | the invariant holds in every state of every clean run |
| `Metadata.ReturnsClean` | kmod/net.c:426-466 | when a call has returned, by success, timeout or send error, its request is out of the tree, nothing is attached to it, and a returned buffer is its own |
| `Metadata.BuffersOwned` | kmod/net.c:126-171 | every received buffer is attached to one live call, was returned by one call, or was freed; the next rows say which |
| `Metadata.SendsAndWaits` | kmod/net.c:262-310 | from every state of a run a call with an id can insert its request, send it and wait with the request in the tree |
| `Metadata.GivesUp` | kmod/net.c:290-357 | a call that cannot send takes its request out again and fails, and leaves the tree and the buffers as they were |
| `Metadata.ReplyIsReturned` | kmod/net.c:126-171 | from every state of a run in which a call waits, a reply with its id is attached to it, its completion is signalled and the call returns that buffer |
| `Metadata.ReplyIsCollected` | kmod/net.c:126-171 | the same for an asynchronous request, whose work takes the request out of the tree and collects that buffer |
| `Metadata.FreedExactlyWhen` | kmod/net.c:126-357 | a buffer is freed if and only if its id is in no entry of the tree, its datagram is dropped, or the call it is attached to has given up |
| `Metadata.WaitsInTree` | kmod/net.c:262-357 | a request that was inserted is in the tree exactly until its reply comes or it is taken out |
| `Metadata.SentBySend` | kmod/net.c:262-330 | a request that counts as sent was sent by an earlier step |
| `Metadata.NeverStuck` | kmod/net.c:262-357 | a call that has not returned can go on, or its reply is about to be completed |
| `Metadata.BufferSettles` | kmod/net.c:342-357 | a buffer that was returned or freed is never handed over or freed again |
| `Metadata.NothingFails` | kmod/net.c:40-357 | for synchronous and asynchronous requests: no duplicate id, no second reply to a request, no completion without a reply, no reply to an asynchronous request that could not be sent, and no callback that uses a request whose call has returned |
| `Metadata.RequestIdsCollide` | kmod/metadata.c:29-33 | two ids are equal exactly when one CPU allocated them a multiple of 2^54 allocations apart |
| `Metadata.IdsAreStriped` | kmod/metadata.c:29-33 | the id tells its CPU modulo 1024, and one allocation moves it by 1024 |
| `Metadata.LiveIdsDiffer` | kmod/metadata.c:1362-1369 | live calls have different ids as long as none outlives 2^54 allocations of its CPU |
| `Metadata.StepKeepsInv` | kmod/net.c:84-172 | every step of requesters and socket callback keeps the invariant, and none of them fails |
| `Metadata.RunHasInv` | kmod/net.c:262-466 | the invariant holds in every state of every run, for any number of calls |
| `Metadata.WaitsGrow` | kmod/net.c:329-330 | waits never get shorter, stay between the initial and the maximal timeout, and are half as long again each time, rounded down, until they reach it |
| `Metadata.SendsBoundedIff` | kmod/net.c:284-330 | for every initial and maximal timeout an unanswered request is sent a bounded number of times if and only if the initial timeout is not zero |
| `Readdir.ReadCtx.Read` | kmod/dir.c:349-501 | one read of the byte-packed pages emits, moves the cursor and sets the position exactly as the specification over the plain list |
| `Readdir.ReadCtx.Emit` | kmod/dir.c:441-497 | the emit loop over pages and packed entries scans the plain list |
| `Readdir.ReadCtx.FindPage` | kmod/dir.c:401-425 | the walk back and forward over the pages finds the last page that does not start after the position |
| `Readdir.ListsRightIff` | kmod/dir.c:349-501 | every run of reads with arbitrary buffer cutoffs emits the listing once, in order and without an error, if and only if the last hash and its successor fit a signed 64-bit position; equal hashes do no harm |
| `Readdir.ReadStep` | kmod/dir.c:349-501 | wherever the listing is, a read emits the next items, as many as fit, and none after the end |
| `Readdir.BigHashFails` | kmod/dir.c:452-453 | with too big a hash the next read fails or starts all over |
| `Readdir.FullIff` | kmod/dir.c:429-452 | the listing has all entries if and only if no hash is 0 or 1 |
| `Readdir.SeeksRightIff` | kmod/dir.c:384-427 | a seek within the hashes gives the entries from that hash on if and only if, for a reader that resumes there, its cursor is at the first entry of that hash, and otherwise no page starts with that hash while the page before ends with it |
| `Readdir.DistinctSeeksRight` | kmod/dir.c:384-427 | with distinct hashes every seek is right |
| `Readdir.DuplicateMissed` | kmod/dir.c:249-425 | sixteen entries with the longest names, the last two of one hash: the fill puts them on two pages and a seek to that hash misses the first of the two |
| `Readdir.ScanSorted` | kmod/dir.c:441-497 | for sorted entries the loop emits a run of the list from the first entry not before the position |
| `DirPages.DirFill.AddEntry` | kmod/dir.c:249-282 | appends one entry to the packed list, on a new page exactly when it does not fit, or fails for a long name or lack of memory and changes nothing; the second size check cannot fail |
| `DirPages.PackFlatten` | kmod/dir.c:249-282 | packing keeps the entries and their order |
| `DirPages.DirFill.StartPage` | kmod/dir.c:252-267 | records the count of the page and starts one that carries the hash |
| `DirPages.DirFill.Put` | kmod/dir.c:273-280 | writes the entry after the others of its page |
| `DirPages.DirFill.Finish` | kmod/dir.c:333-334 | the finished cache: counts, first hashes and largest hash of the pages |
| `DirPages.DirFill.constructor` | kmod/dir.c:296-321 | an empty directory |
| `DirPages.ParseAt` | kmod/dir.c:23-28 | parsing at the offset of entry i of a page gives entry i |
| `DirPages.ParseEncoded` | kmod/dir.c:19-32 | an encoded entry parses back to itself |
| `DirPages.EntryBytes` | kmod/dir.c:19-32 | the inode number is in the first eight bytes, the hash in the next eight, least significant byte first, then one byte for the length of the name |
| `DirCache.NothingFails` | kmod/dir.c:43-84 | no reader, dropper or grace-period callback uses a listing that is gone, no count goes below zero, and publishing never overwrites a published listing |
| `DirCache.FreedOnce` | kmod/dir.c:61-73 | every listing is freed at most once, and then no one refers to it or can still find it |
| `DirCache.NothingLeaks` | kmod/dir.c:104-145 | when no one is at work and no listing is published or waiting for a grace period, every listing ever made has been freed |
| `DirCache.ReaderFinds` | kmod/dir.c:43-60 | from every state of a run a reader that looks gets a reference to the listing that the directory has, if it has one |
| `DirCache.Publishes` | kmod/dir.c:104-145 | the latch holder that found no listing can publish its own, with one reference for the directory and one for itself |
| `DirCache.DropperRetires` | kmod/dir.c:61-84 | a dropper leaves the directory without a listing, and what was there waits for its grace period |
| `DirCache.PublishedStays` | kmod/dir.c:61-145 | a published listing outlives its reader, with the reference of the directory |
| `DirCache.KeptGoesWithReader` | kmod/dir.c:61-145 | a listing that was not published is freed by the put of its reader |
| `DirCache.RetiredGoes` | kmod/dir.c:61-84 | a retired listing that no reader has found or holds is freed after its grace period |
| `DirCache.NeverStuck` | kmod/dir.c:43-145 | whoever is in the middle of something can go on |
| `DirCache.StepKeepsInv` | kmod/dir.c:43-145 | every atomic step of readers, droppers, callbacks and the latch holder keeps the invariant |
| `DirCache.RunHasInv` | kmod/dir.c:43-145 | the invariant holds in every state of every run, for any number of threads |
| `FetchState.FreedOnceByCaller` | kmod/fetch_state.c:45-67 | the state is freed at most once, by the caller, when every callback has left its locked region and can take no further step |
| `FetchState.OneIsFinal` | kmod/fetch_state.c:62-67 | once the caller has seen a count of 1 it never rises again |
| `FetchState.NoLostWakeup` | kmod/fetch_state.c:45-67 | when the count is 1, a caller that looks sees it, and for one that sleeps a callback in the locked region is about to wake it |
| `FetchState.NeverStuck` | kmod/fetch_state.c:41-67 | until the state is freed someone can take a step |
| `FetchState.RunEnds` | kmod/fetch_state.c:41-67 | a fetch with n callbacks, retries included, takes at most 9n + 6 steps, so with the row above every fetch ends by being freed |
| `FetchState.ReferencesAreCounted` | kmod/fetch_state.c:41-52 | the count is that of the references held and never goes below zero |
| `FetchState.StepKeepsInv` | kmod/fetch_state.c:41-67 | every step of the caller and of any number of callbacks keeps the invariant |
| `FetchState.RunHasInv` | kmod/fetch_state.c:41-67 | the invariant holds in every state of every run |
| `SpanWire.RoundTrip` | kmod/metadata.c:1038-1152 | decoding an encoded list of inline and block spans over a service table reports exactly those spans and blocks, in order; bytes after it are ignored |
| `SpanWire.AcceptsIffEncoded` | kmod/metadata.c:1038-1152 | a buffer decodes without an error if and only if it begins with the encoding of a valid list |
| `SpanWire.EventsShaped` | kmod/metadata.c:1050-1148 | for every buffer whatsoever blocks are reported after their span, numbered 0, 1, 2, ... below D + P <= 16, and all of them when there is no error |
| `SpanWire.HeaderBytes` | kmod/bincodegen.h:1230-1292 | where each field of a span header is, byte by byte |
| `SpanWire.ServiceBytes` | kmod/metadata.c:1120-1139 | the same for a block service: addresses most significant byte first, the rest least significant byte first |
| `SpanWire.BlockBytes` | kmod/bincodegen.h:1134-1181 | the same for a block, with the service its index byte selects |
| `SpanWire.ShapeBytes` | kmod/bincodegen.h:1409-1483 | the same for the shape of a span of blocks, and how many bytes the span takes |
| `SpanWire.FileSpans` | kmod/metadata.c:1038-1152 | the decoder with its sticky error computes the specification on every buffer, never reading past the end |
| `SpanWire.ReadSpans` | kmod/metadata.c:1050-1150 | the loop over the spans |
| `SpanWire.ReadBlocksSpan` | kmod/metadata.c:1073-1107 | the body of a span of blocks, with its parity and count checks |
| `SpanWire.ReadBlocks` | kmod/metadata.c:1108-1147 | the loop over the blocks of a span on its own cursor |
| `SpanWire.ReadInline` | kmod/metadata.c:1064-1072 | the body of an inline span |
| `SpanWire.ReadHeader` | kmod/metadata.c:1051-1060 | 17 bytes of header or an error |
| `SpanWire.ReadBlock` | kmod/bincodegen.h:1134-1181 | 13 bytes of a block or an error |
| `SpanWire.ReadService` | kmod/metadata.c:1120-1139 | 21 bytes of a block service, addresses big-endian, the rest little-endian |
| `SpanWire.Cursor.GetLe` | kmod/bincode.h:86-99 | moves the cursor and gives the value, or sets the error and stays; an earlier error sticks |
| `SpanWire.Cursor.GetBe` | kmod/bincodegen.h:169-178 | the same, big-endian |
| `SpanWire.Cursor.Skip` | kmod/bincode.h:55-63 | the same without a value |
| `SpanWire.Cursor.constructor` | kmod/metadata.c:1120-1124 | a cursor over part of a buffer |

## Left out

- BlockSocket.StepKeepsInv: does not model left_to_write and left_to_read; which of its steps finishes a request is a free choice, and BlockStream and BlockWrite cover the byte counts.
- BlockSocket.RunHasInv: connecting and its timeouts are single steps; the socket state callbacks only lead to an error step.
- BlockStream.FetchRequest.ReceiveSingle: a request has at least one page, as every caller asks for.
- BlockWrite.WriteRequest.constructor: the block fits its pages, as the caller computes them; a block that does not would send its first pages again.
- Crc32c.Crc32cUpdate: models the plain loop; the folding kernel that uses carry-less multiplication instructions is not part of this model.
- DirCache.RunHasInv: one thread of the model is one open of the directory or one dropper; reading the entries under the latch is DirPages.
- FileWrite.TransientFile.Flush: only the hand-over of the last span; waiting for it and linking the file are not modelled.
- Latch.Counter.TryAcquire: the counter is unbounded; wrap-around after 2^63 acquisitions is not modelled.
- Metadata.RunHasInv: an asynchronous request ends when its work has run; how the work is scheduled is in Getattr. Which of the two shard addresses is used is left out.
- Readdir.ReadCtx.Read: requires entries in hash order and a position below 2^63; revalidation is not modelled.
- SpanChecksum.ArrangeSpan: parity pages are given, not computed; the Reed-Solomon arithmetic is not part of this model.
- SpanWire.FileSpans: starts at the body of the response; the protocol number and error kind are checked before it.
- BadAddrs.Table.IsBad: readers see the table between two updates; how RCU achieves that is not modelled.
- The response receiver of block writes, span fetching, read paths and page caches, inline span reads.
- Registry connection, mounting, debug files, tracing and counters: plumbing.
- The servers, and recovery in rename, link and unlink that depends on them.
- Error tables and the other generated accessors: repetitive easy members.
