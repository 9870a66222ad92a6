# Verification of the network server's core

This project models the stateful core of a C++ reactor-style network server in
Dafny and proves what it is meant to keep. Where the program changes things in
place, the model does too: classes with the program's fields, arrays, pointers
and loops, each method proved to do to an abstract state what a specification
function says. The theorems are about those functions, over every input, every
run and every interleaving. Where the program is a protocol between threads, its
atomic actions are the steps of a transition system.

| file | models |
|---|---|
| `LfuModel.dfy`, `LfuTheorems.dfy`, `LfuRuns.dfy`, `LfuFull.dfy`, `LfuSteps.dfy` | the LFU cache with aging as a value, one-step theorems, whole runs, full caches, the arithmetic of one step |
| `Lfu.dfy`, `HashLfu.dfy` | the cache as linked nodes, lists and counters; the sharded cache |
| `Text.dfy`, `Http.dfy`, `HttpTheorems.dfy`, `HttpStream.dfy` | the incremental HTTP parser, its language, and byte streams cut into chunks |
| `ByteBuffer.dfy`, `HttpParser.dfy` | the growing byte buffer, and parser and server callback as objects |
| `Wakeup.dfy`, `EventLoop.dfy` | the functor queue and its wakeup as interleaved steps; the loop's methods |
| `AsyncLog.dfy`, `AsyncLogging.dfy` | the double-buffered log as interleaved steps; its buffers as objects that move |
| `Decimal.dfy`, `LogStream.dfy` | decimal texts; the fixed buffer and the in-place integer printer |
| `MemoryPool.dfy`, `HashBucket.dfy` | the slab allocator over an integer address space; its size classes |
| `Poller.dfy`, `OutputPath.dfy`, `TcpConnection.dfy` | channels and the kernel's interest list; the output path as steps and as an object |

`dafny verify dfyconfig.toml` verifies the whole project.

## Results a reader may not expect

* `minFreq_` is meant to name the smallest frequency. It does so exactly for
  aging limits from 2 to 250 (`LfuRuns.MinFreqExactIffWorkingRange`). Outside
  that range a full cache of any capacity can find the list it names empty
  (`LfuFull.FullCacheEvictsIff`). The program then takes the tail sentinel of that
  list for a node: the total goes down by 1, no key leaves, and the cache grows
  past its capacity (`LfuFull.SizeWithinCapacityIff`) and evicts nothing more until
  it is purged (`LfuRuns.OutgrownKeepsAll`). For limits 0 and 1 the sum of the
  frequencies then exceeds the total (`LfuFull.SumWithinTotalIff`). If the key the
  sentinel was built with, the empty text for strings, is itself cached, that key
  is erased from the index while its node stays linked; this case is not modelled.
* `padPointer` is meant to align a slot to a multiple of its size. The unsigned
  difference does that only for sizes that divide the size of the address space
  (`MemoryPool.PadAlignsIff`); every slot is aligned to 8 bytes.
* `allocateNewBlock` empties the free list. Two threads can lose slots that way in
  every pool (`MemoryPool.SlotLostBetweenSections`), one thread cannot
  (`MemoryPool.OneThreadLosesNothing`); `MemoryPool.RunExactIff` says when.
* `shutdown()` from another thread shuts the write side cleanly exactly when no
  bytes wait at the call, in the buffer or in queued sends
  (`OutputPath.ShutsCleanlyIffNothingWaits`); otherwise it may be shut twice. In the
  loop thread only queued sends matter (`OutputPath.LoopShutsCleanlyIff`).
* `sendInLoop` on a closed connection logs that it gives up and then writes all the
  same; queued sends of other threads get there (`OutputPath.ClosedIsSilentIff`).
* A functor that a loop's own thread queues before `loop()` waits for the first poll
  to return, unless another thread wakes the loop (`Wakeup.NoLostWakeup`).
* A loop that quits leaves behind exactly the functors queued since it last took
  the queue, announced or not (`Wakeup.StoppedLoopHasRun`).
* A log that is stopped leaves unwritten exactly the lines appended since the back
  end last took the buffers (`AsyncLog.ExitedLogHasWritten`, `AsyncLog.StopLosesLine`).
* Slots are cut in steps of whole words, so slots whose size is no multiple of 8
  overlap (`MemoryPool.NeighboursApartIff`); `initMemoryPool` uses multiples of 8.
* `HttpContext::reset` keeps the receive time, because `HttpRequest::swap` leaves
  it out; the query keeps its question mark; a header section ends at the first
  line without a colon, empty or not. The request line follows section 3 of
  RFC 9112 and the header lines section 5 of RFC 9112 only as far as that.

## How to read the model

* The order in which a hash map is walked is unspecified. It is an argument of
  the cache's operations (`order`), and every theorem holds for every order.
* Results of system calls (`write`, `readv`, `operator new`, `epoll_wait`) are
  parameters, limited only by what the system promises: not more bytes than
  offered, new memory apart from old.
* Fields and parameters marked `ghost`, and those called history variables,
  record what has happened; no code reads them.

## Model

| member | source | states |
|---|---|---|
| `LfuRuns.MinFreqExactIffWorkingRange` | include/LFU.h:91-313 | For every capacity of at least 1: the shortcut `minFreq_` is the smallest frequency of any cached node after every sequence of put, get and purge, for every order in which the hash maps are walked, if and only if the aging limit is between 2 and 250. Below, aging subtracts 0 and a frequency reaches the sentinel 127; above, an aged frequency can still be 127 or more. |
| `LfuFull.FullCacheEvictsIff` | include/LFU.h:188-213 | For every capacity of at least 1 and that many keys: every full cache of every run finds a node to evict if and only if the limit is between 2 and 250. Outside, putting the keys and reading them until all are as frequent as the sentinel leaves the shortcut at an empty list. |
| `LfuFull.SizeWithinCapacityIff` | include/LFU.h:188-213 | For every capacity of at least 1 and one key more: the size stays within `capacity_` in every run if and only if the limit is between 2 and 250. |
| `LfuFull.SumWithinTotalIff` | include/LFU.h:206-268 | For every capacity of at least 1 and one key more: the sum of the frequencies stays within `curTotalNum_` in every run if and only if the limit is at least 2. |
| `LfuFull.ExcessWithoutAging` | include/LFU.h:206-268 | For limits 0 and 1 an operation that counts an access makes sum minus total larger by one exactly when it has to evict and finds no node. |
| `LfuRuns.RunKeepsAccounted` | include/LFU.h:98-313 | In every run, for every limit, the sum of the frequencies is at most one above `curTotalNum_`, and that only in a cache that has grown past its capacity; from a limit of 2 on it is within the total and the smallest frequency within the limit. |
| `LfuRuns.StepKeepsSizeIff` | include/LFU.h:188-213 | An operation keeps the size within the capacity if and only if it finds a node when it has to evict; otherwise the size ends one above. |
| `LfuRuns.OutgrownKeepsAll` | include/LFU.h:188-213 | A cache past its capacity is never full again: until a purge it keeps every key and takes in every key put. |
| `LfuRuns.RunKeepsNamed` | include/LFU.h:206-242 | In every run, for every limit, a non-empty cache has a list for `minFreq_` and one for the frequency of the sentinels, so that an eviction that finds no node meets no null pointer. |
| `LfuRuns.WithinLimitIffAtLeastTwo` | include/LFU.h:244-298 | The smallest frequency is at most the limit after every run if and only if the limit is at least 2; evictions that find no node included. |
| `LfuRuns.CanEvictIffWorkingRange` | include/LFU.h:206-213 | In every reachable non-empty cache the list that `minFreq_` names holds a node if and only if the limit is between 2 and 250. |
| `LfuRuns.RunKeepsInv` | include/LFU.h:98-313 | In the working range every state of every run is moreover exact: the shortcut is the smallest frequency, which is at most the limit. |
| `LfuTheorems.StepKeepsInv` | include/LFU.h:98-143 | One put, get or purge keeps that invariant; in particular a put into a full cache always finds a real node to evict. |
| `LfuTheorems.RefreshedIsLeast` | include/LFU.h:300-313 | The scan of the frequency lists returns the smallest frequency in use if that is below INT8_MAX and 1 otherwise, so the sentinel is harmless exactly below 127. |
| `LfuTheorems.CountKeepsLeast` | include/LFU.h:244-298 | Counting one access with a smallest frequency of at most limit + 1 leaves it at most the limit: either the average bounds it, or the aging pass lowers it, and then the scan finds it. |
| `LfuTheorems.CountKeepsInv` | include/LFU.h:244-298 | After the access is counted, aged or not, the whole invariant holds again. |
| `LfuTheorems.AccessedLeast` | include/LFU.h:169-182 | Moving one key up by one frequency leaves the shortcut the smallest frequency, because it follows by one exactly when the list it names runs empty. |
| `LfuTheorems.TouchKeepsInv` | include/LFU.h:169-186 | An access to a cached key keeps the invariant. |
| `LfuTheorems.InsertKeepsInv` | include/LFU.h:198-203 | Inserting a new key into a cache with room restores the invariant even from a stale shortcut, aging pass included. |
| `LfuTheorems.EvictionMakesRoom` | include/LFU.h:192-196 | In a full cache the list that the shortcut names is not empty, and evicting its first node makes room without disturbing links or accounts. |
| `LfuTheorems.FullCacheCanEvict` | include/LFU.h:207-209 | A non-empty cache always has a node in the list that the shortcut names. |
| `LfuTheorems.SetValueKeepsInv` | include/LFU.h:106-112 | Overwriting a value keeps the invariant. |
| `LfuTheorems.PurgeKeepsInv` | include/LFU.h:139-143 | A purge keeps the invariant although it resets no counter. |
| `LfuTheorems.AgeLowersEachOnce` | include/LFU.h:276-294 | Whatever the order of the walk, the aging pass takes half the limit off the frequency of every walked key, once, or sets it to 1 if no more than 1 would be left; it changes no other key, no value and no counter. |
| `LfuSteps.StepFrequencies` | include/LFU.h:169-204 | After any operation that counts an access: if the total shared among the keys is within the limit, only the key accessed has moved, by 1, or is new with 1; otherwise every key has besides lost half the limit, or fallen to 1 if that is not less. |
| `LfuSteps.StepCounters` | include/LFU.h:244-268 | The total goes up by 1 for the access and down by the frequency of a key evicted, or by 1 if none is found; the average is the total divided by the number of keys; other operations change neither, nor the shortcut. |
| `LfuSteps.StepShortcut` | include/LFU.h:169-204 | For every limit the shortcut is 1 after a new key; after an aging pass the smallest frequency if that is below 127 and else 1; otherwise it goes up by 1 exactly when the key accessed was the only one it named. |
| `LfuModel.AgeOneLowers` | include/LFU.h:283-293 | The same for one node of the pass. |
| `LfuTheorems.AgeClosedForm` | include/LFU.h:276-294 | A walk of all keys is the same map over the entries for every order. |
| `LfuTheorems.AgingIsMonotone` | include/LFU.h:276-294 | Aging keeps the order of any two frequencies and keeps the values. |
| `LfuTheorems.AgingLowersSum` | include/LFU.h:288-290 | Aging never raises the sum of the frequencies, so `curTotalNum_` stays an upper bound. |
| `LfuModel.MoveKeepsLinked` | include/LFU.h:176-178 | Relinking a node under another frequency changes only that frequency and leaves every entry in exactly the queue of its own frequency, each queue in order of latest arrival. |
| `LfuModel.LinkKeepsLinked` | include/LFU.h:226-242 | Linking an unlinked key at the tail of its queue gives a well-linked cache. |
| `LfuModel.UnlinkKeepsOthers` | include/LFU.h:215-224 | Unlinking one key leaves all other entries linked as they were. |
| `LfuModel.Age` | include/LFU.h:276-294 | After each node of the aging walk, in any order, the structure is well linked and the set of keys unchanged. |
| `LfuModel.Step` | include/LFU.h:98-143 | Every operation, an eviction that finds no node included, leaves every entry linked in exactly the list keyed by its own frequency and every linked key an entry, for any aging limit. |
| `LfuRuns.EvictsLeastFrequentOldest` | include/LFU.h:188-213 | An eviction removes a real key; every other key is more frequent, or as frequent and linked later. |
| `LfuRuns.EvictsOldestNamed` | include/LFU.h:206-213 | For every limit, if any key has the frequency the shortcut names, the eviction removes of these keys the one linked longest ago. |
| `LfuRuns.ArrivalsGrow` | include/LFU.h:98-129 | The history of links grows by the key accessed and, if the operation ages, by the walk; this is what "linked later" refers to. |
| `LfuRuns.StepAsMap` | include/LFU.h:98-143 | As a map from keys to values: a put sets its key and drops at most the victim, exactly when it has to evict and finds one; a get changes nothing, a purge empties it; aging changes no value. |
| `LfuRuns.HitIsLastPut` | include/LFU.h:98-129 | In every run, for any capacity and limit, a hit hands out the value last put under that key since the last purge. |
| `LfuRuns.TotalIsExactBeforeAging` | include/LFU.h:244-268 | Until the first aging pass or purge `curTotalNum_` equals the sum of the frequencies and the shortcut is exact, for every limit. |
| `LfuRuns.StepAccounts` | include/LFU.h:244-268 | One operation without aging pass or purge keeps that equality if and only if it finds a node when it has to evict. |
| `LfuRuns.StepKeepsShortcut` | include/LFU.h:98-257 | One operation without aging pass keeps the shortcut the smallest frequency, for every limit. |
| `Lfu.FreqList.constructor` | include/LFU.h:38-45 | A new list is well formed and empty. |
| `Lfu.FreqList.AddNode` | include/LFU.h:53-62 | Rewiring in front of the tail appends the node to a well-formed doubly linked chain. |
| `Lfu.FreqList.Detach` | include/LFU.h:71-74 | The four pointer writes of a removal join the two halves of the chain and clear the links of the node. |
| `Lfu.FreqList.RemoveNode` | include/LFU.h:64-75 | Exactly that node leaves the chain, which stays well formed; a node without neighbours is ignored. |
| `Lfu.FreqList.IsEmpty` | include/LFU.h:47-50 | True if and only if no node is between the sentinels. |
| `Lfu.FreqList.GetFirstNode` | include/LFU.h:77-77 | The oldest node, or the tail sentinel of an empty list. |
| `Lfu.LfuCache.constructor` | include/LFU.h:91-94 | The new object represents the empty cache, with the shortcut at 127 and both counters 0. |
| `Lfu.LfuCache.Put` | include/LFU.h:98-115 | The linked structure after a put represents the put of the abstract cache, for the aging order taken, also when the list at the shortcut is empty. |
| `Lfu.LfuCache.Get` | include/LFU.h:118-129 | A get hands out the stored value or nothing, and represents the get of the abstract cache. |
| `Lfu.LfuCache.Purge` | include/LFU.h:139-143 | Index and lists are empty, counters and shortcut stay. |
| `Lfu.LfuCache.GetInternal` | include/LFU.h:169-186 | Relinking the node one list up, with the shortcut and the counters, is an access of the abstract cache. |
| `Lfu.LfuCache.Promote` | include/LFU.h:176-182 | The shortcut follows the node when its old list has run empty. |
| `Lfu.LfuCache.PutInternal` | include/LFU.h:188-204 | If full, an eviction or the attempt at one; then insertion. |
| `Lfu.LfuCache.KickOut` | include/LFU.h:206-213 | The first node of the list named by the shortcut leaves list, index and counters; if there is none the tail sentinel is taken, which changes only total and average. |
| `Lfu.LfuCache.RemoveFromFreqList` | include/LFU.h:215-224 | Unlinks the node from the list of its frequency only; for the tail sentinel nothing changes. |
| `Lfu.LfuCache.AddToFreqList` | include/LFU.h:226-242 | Links the node into the list of its frequency, creating the list if there is none. |
| `Lfu.LfuCache.AddFreqNum` | include/LFU.h:244-257 | Counts the access and ages when the average passes the limit. |
| `Lfu.LfuCache.DecreaseFreqNum` | include/LFU.h:259-268 | Takes the frequency of an evicted node off the total. |
| `Lfu.LfuCache.HandleOverMaxAverageNum` | include/LFU.h:270-298 | Ages every node and refreshes the shortcut. |
| `Lfu.LfuCache.AgeNodes` | include/LFU.h:276-294 | The loop over the index visits every node once, in any order, and all lists are intact at every iteration. |
| `Lfu.LfuCache.AgeNode` | include/LFU.h:283-293 | Relinks one node under its frequency less half the limit, or under 1 if that is not less. |
| `Lfu.LfuCache.UpdateMinFreq` | include/LFU.h:300-313 | The scan over the lists, in any order, computes the least non-empty frequency below the sentinel, or 1. |
| `HashLfu.ShardedSizeBound` | include/LFU.h:320-329 | In the working range the slices together hold at most n * ceil(capacity / n) entries, which is less than capacity + n. |
| `HashLfu.SliceSizeRoundsUp` | include/LFU.h:324-324 | The rounded-up slice size covers the capacity and wastes less than one entry per slice. |
| `HashLfu.ShardedMap` | include/LFU.h:331-343 | Over all slices, for every limit, an operation on one key sets that key and changes no other except the victim, if it has to evict and finds one, in the same slice. |
| `HashLfu.FoundInOwnSlice` | include/LFU.h:331-343 | A key is only ever held by the slice its hash names. |
| `HashLfu.ShardedStepKeepsInv` | include/LFU.h:331-343 | An operation on one slice keeps the invariant of all slices, for every limit; in the working range it always finds a node when it has to evict. |
| `HashLfu.SliceStepKeepsInv` | include/LFU.h:331-343 | For every limit a slice keeps well-linked entries of its own keys only; in the working range it keeps the whole cache invariant and always finds a node to evict. |
| `HashLfu.HashLfuCache.constructor` | include/LFU.h:320-329 | Builds the given number of empty caches, or one for every thread of the machine, of the rounded-up size, for any limit; they share no memory. |
| `HashLfu.HashLfuCache.Put` | include/LFU.h:331-336 | Acts on the one slice the hash names and leaves the others as they were, for every limit. |
| `HashLfu.HashLfuCache.Get` | include/LFU.h:338-343 | Answers from the slice the hash names. |
| `HttpTheorems.ChunkIndependence` | src/http/HttpContext.cpp:67-136 | From either live state, parsing b1, appending b2 and parsing again ends in the same state, request, verdict and unread bytes as one parse of b1 + b2, wherever the cut falls, a CR LF pair and a bad line included; only the receive time depends on the call that read the request line. |
| `HttpTheorems.CompleteRequestIsFinal` | src/http/HttpContext.cpp:116-122 | Bytes behind a complete request are left unread and do not change it. |
| `HttpTheorems.RequestLineIdempotent` | src/http/HttpContext.cpp:17-64 | Reading a request line again, on the fields a failed attempt left behind, gives the same result; a bad line stays in the buffer and is read again. |
| `HttpTheorems.BadLineStaysBad` | src/http/HttpContext.cpp:81-92 | A rejected request line is rejected again at any later time. |
| `HttpTheorems.ReturnsIffLive` | src/http/HttpContext.cpp:67-136 | The loop ends if and only if it is entered while expecting a request line or headers; in the other two states it spins. |
| `HttpTheorems.LiveLoopEnds` | src/http/HttpContext.cpp:71-133 | From a live state the loop ends with the specified outcome, and an iteration that goes on has consumed at least two bytes. |
| `HttpTheorems.IdleForever` | src/http/HttpContext.cpp:129-133 | In kExpectBody and kGotAll no iteration changes anything. |
| `HttpTheorems.AcceptedIffRequestLine` | src/http/HttpContext.cpp:17-64 | A request line is accepted if and only if it is a known method, a space, a target without spaces, a space, and "HTTP/1." with 0 or 1. |
| `HttpTheorems.RequestLineRead` | src/http/HttpContext.cpp:25-58 | An accepted line sets exactly its method, the two parts of its target and its version. |
| `HttpTheorems.TargetIsPathAndQuery` | src/http/HttpContext.cpp:30-39 | Path and query together are the target; the path has no question mark, and a query starts with one. |
| `HttpTheorems.RoundTrip` | src/http/HttpContext.cpp:17-136 | Every printable request, printed with its headers in any order and followed by any bytes, is read back exactly, with exactly those bytes unread. |
| `HttpTheorems.CompleteIffRequestText` | src/http/HttpContext.cpp:67-136 | A request is complete if and only if the bytes are a request line, lines with a colon, one line without, and a rest, each line ended by CR LF; and for every such reading it is the request those lines spell, with exactly the rest unread. |
| `HttpTheorems.PrintedRequestIsRead` | src/http/HttpContext.cpp:67-136 | The same for lists of header lines with repeated names: the last one wins. |
| `HttpTheorems.FieldRead` | include/HttpRequest.h:89-106 | A header line gives back the name in front of its first colon and the value, whatever white space is in front of the value and behind it. |
| `HttpTheorems.HeaderLineStores` | include/HttpRequest.h:89-106 | Of every header line exactly one text is stored under the name: what is left behind the colon when the white space at both ends (the six characters of `isspace`) is taken away; no other field changes. |
| `HttpTheorems.RejectedLineLeaves` | src/http/HttpContext.cpp:17-64 | A rejected line leaves behind the method, known or not, if a space ends it, and then the target if a space ends that too. |
| `HttpTheorems.RejectedIffStartsBadly` | src/http/HttpContext.cpp:71-96 | While a request line is expected, the bytes are rejected if and only if their first line is complete and is no request line; all of them then stay unread. |
| `HttpTheorems.ReceiveTimeIsOfRequestLine` | src/http/HttpContext.cpp:81-92 | A request carries the receive time of the call that has read its request line. |
| `HttpStream.StreamTheorem` | src/http/HttpServer.cpp:59-82 | However a byte stream is cut into chunks, the requests handed to the callback are, in order, a prefix of those one pass over the whole stream extracts; the rest is extracted from the unread bytes, which are the end of the stream. |
| `HttpStream.ServeConserves` | src/http/HttpServer.cpp:59-82 | One call hands out exactly its share: handing it out and extracting the rest from the reset state and the unread bytes gives what one pass over present and later bytes would. |
| `HttpStream.ServeIsPrompt` | src/http/HttpServer.cpp:73-78 | A call hands out the next request of the stream if and only if the bytes so far hold it. |
| `HttpStream.RequestLeftUnreadIff` | src/http/HttpServer.cpp:73-78 | After a call a complete request is left unread if and only if the bytes held at least two. |
| `HttpStream.PipelinedRequestWaits` | src/http/HttpServer.cpp:73-78 | A printed request followed by another is handed out alone; the bytes of the second stay unread. |
| `HttpStream.BadForever` | src/http/HttpServer.cpp:66-71 | After a bad request line every later call rejects it again, hands out nothing and reads nothing. |
| `HttpStream.ServedBadIff` | src/http/HttpServer.cpp:66-71 | A call answers 400 if and only if a request line is expected and the first line of the bytes is complete and is none. |
| `HttpStream.ServedTime` | src/http/HttpServer.cpp:73-78 | The request handed out carries the time of the call that has read its request line, and the parser keeps that time when it is reset. |
| `HttpStream.BadIsFinal` | src/http/HttpContext.cpp:81-92 | More bytes do not change the verdict on a bad request line. |
| `HttpStream.TimeOnlyLabels` | src/http/HttpContext.cpp:83-88 | The receive time is copied into the request and influences nothing else. |
| `Http.ParseLeavesSuffix` | src/http/HttpContext.cpp:67-136 | The unread bytes are the end of the input; a complete request has taken at least two bytes; a bad line leaves the parser expecting a request line. |
| `HttpParser.HttpContext.ParseRequest` | src/http/HttpContext.cpp:67-136 | The loop over the buffer computes the specified outcome, and terminates when entered in a live state. |
| `HttpParser.HttpContext.ReadNextLine` | src/http/HttpContext.cpp:73-132 | One iteration takes one complete line from the buffer and preserves the outcome still to come. |
| `HttpParser.HttpContext.ProcessRequestLine` | src/http/HttpContext.cpp:17-64 | The fields set one after the other are those of the specification, on failure too. |
| `HttpParser.HttpContext.Reset` | include/HttpContext.h:31-36 | Every field but the receive time is that of a new request. |
| `HttpTheorems.MethodNames` | include/HttpRequest.h:34-72 | Exactly the texts GET, POST, HEAD, PUT and DELETE are read as methods, each as its own, and `methodString` prints them so. |
| `HttpParser.HttpRequest.AddHeader` | include/HttpRequest.h:89-106 | The two trimming loops store the one text left when the white space at both ends is taken away, and change no other header. |
| `HttpTheorems.HeaderIsLastPrinted` | include/HttpRequest.h:89-117 | After a printed request has been read, `getHeader` answers the value of the last header line of that name, and the empty text if there is no such line. |
| `HttpTheorems.ClosesIff` | src/http/HttpServer.cpp:85-90 | A printed request closes the connection if and only if its last Connection line says "close", or its version is 1.0 and that line does not say "Keep-Alive". |
| `HttpParser.HttpConnection.OnRequest` | src/http/HttpServer.cpp:85-90 | The request is handed out with that decision. |
| `HttpParser.HttpRequest.Swap` | include/HttpRequest.h:121-128 | Exchanges everything except the receive time. |
| `HttpParser.HttpConnection.OnMessage` | src/http/HttpServer.cpp:59-82 | Parser, buffer and callbacks after one message are those of the specified call, each request with its decision to close. |
| `HttpParser.HttpConnection.HandleRead` | src/TcpConnection.cpp:163-179 | What the socket delivers is appended to the unread bytes and served; end of file goes to the close handler and an error to the error handler, with the parser untouched. |
| `Text.FindCrlf` | include/Buffer.h:48-53 | The first CR LF, or the length if there is none. |
| `Text.FindCrlfExtended` | include/Buffer.h:48-53 | Bytes that arrive later do not move a CR LF already found. |
| `ByteBuffer.Buffer.Append` | src/Buffer.cpp:72-77 | The readable bytes grow by exactly the input; the array is replaced if and only if the room in front of them and behind does not hold it; 8 <= reader <= writer <= size holds throughout. |
| `ByteBuffer.Buffer.ReadFd` | src/Buffer.cpp:80-119 | Whatever the scattered read delivers, within the space and the stack buffer offered, is appended in order. |
| `ByteBuffer.Buffer.Retrieve` | src/Buffer.cpp:10-27 | Drops a prefix; asking for all there is, or for more, moves both indices to the front. |
| `ByteBuffer.Buffer.RetrieveAsString` | src/Buffer.cpp:37-42 | The string handed out and the bytes that remain are the bytes there were. |
| `ByteBuffer.Buffer.MakeSpace` | src/Buffer.cpp:54-69 | The readable bytes are kept and the room is there afterwards; the array grows by exactly what is needed if sliding the bytes to the front would not do, and else they are slid. |
| `ByteBuffer.Buffer.Compact` | src/Buffer.cpp:62-67 | The overlapping copy towards the front is exact. |
| `ByteBuffer.Buffer.EnsureWritableBytes` | src/Buffer.cpp:45-51 | The room asked for is there and the readable bytes are unchanged; nothing moves if the room was there. |
| `ByteBuffer.Buffer.SearchCrlf` | include/Buffer.h:48-53 | The search loop finds the first CR LF of the readable bytes. |
| `Wakeup.NoLostWakeup` | src/EventLoop.cpp:63-141 | In every interleaving, whenever the loop is about to block with functors pending, the eventfd is readable or a queuing thread has its wakeup still to do, if and only if some other thread has queued or woken, or the queue has been taken before; otherwise all functors were queued by the loop's own thread before loop(). |
| `Wakeup.SleepsOnlyWhenDone` | src/EventLoop.cpp:63-177 | If the loop can block with no wakeup on its way, every functor ever queued has run, with exactly the same exception. |
| `Wakeup.EarlyFunctorSleeps` | src/EventLoop.cpp:63-119 | The exception occurs: a concrete run in which the loop blocks with a functor that its own thread queued before loop(). |
| `Wakeup.FirstRound` | src/EventLoop.cpp:63-119 | While nobody else has queued or woken and the queue has not been taken, nothing has run and the eventfd is not readable; and conversely a loop still asleep with its early functors has not been woken. |
| `Wakeup.NextDrainRunsAll` | src/EventLoop.cpp:162-177 | Whatever was queued before a drain takes the queue has run when that drain ends. |
| `Wakeup.RunsInOrder` | src/EventLoop.cpp:110-177 | Functors run in the order they were queued, each at most once. |
| `Wakeup.QueuedArePushes` | src/EventLoop.cpp:110-119 | The history of the queue is the functors pushed, in the order of the locked sections. |
| `Wakeup.RunKeepsInv` | src/EventLoop.cpp:63-177 | In every interleaving the flag is set exactly during a drain, queued = run + taken + pending, and a pending queue is announced. |
| `Wakeup.StepKeepsInv` | src/EventLoop.cpp:63-177 | Every atomic action of either side keeps that invariant. |
| `Wakeup.StoppedLoopHasRun` | src/EventLoop.cpp:71-96 | A loop that has stopped has run exactly the functors queued before it last took the queue; it leaves none behind if and only if none was queued since. |
| `Wakeup.TakenUpToSwap` | src/EventLoop.cpp:162-177 | What has been run and what has been taken are together what was queued before the queue was last taken. |
| `Wakeup.QuitStrandsFunctors` | src/EventLoop.cpp:71-96 | The other case occurs: a concrete run in which quit() ends the loop with an announced functor still queued. |
| `Wakeup.QuitIsRemembered` | src/EventLoop.cpp:63-107 | The flag is set if and only if quit() has been called and loop() has not been entered since. |
| `Wakeup.LoopEndsIffAsked` | src/EventLoop.cpp:63-96 | At every test the loop is left if and only if quit() has been called since loop() was entered, and it is left nowhere else. |
| `Wakeup.LoopGoesRounds` | src/EventLoop.cpp:63-177 | In every interleaving the thread of the loop goes its rounds in the order of the program: test, poll, the eventfd if it was readable, take the queue, run functors, test again. |
| `Wakeup.NeverStuck` | src/EventLoop.cpp:63-177 | In every state the thread of the loop can take its next action, and other threads can queue, wake and quit. |
| `Wakeup.CounterCountsWakeups` | src/EventLoop.cpp:122-141 | The eventfd holds the number of wakeups since it was last read, up to its maximum. |
| `Wakeup.ReadableIffWoken` | src/EventLoop.cpp:122-141 | The loop can be woken from poll by the eventfd if and only if there has been a wakeup since it was last read; it is asleep if and only if there has been none and none is owed. |
| `Wakeup.OwingIffOwes` | src/EventLoop.cpp:110-119 | A thread owes a wakeup exactly from its push to its wakeup. |
| `EventLoop.EventLoop.QueueInLoop` | src/EventLoop.cpp:110-119 | From another thread: the locked push and the wakeup, after which the queue is announced. |
| `EventLoop.EventLoop.QueueFromLoop` | src/EventLoop.cpp:110-119 | From the loop's own thread, before loop() or inside: the push, and a wakeup exactly while functors are being run. |
| `EventLoop.EventLoop.HandleRead` | src/EventLoop.cpp:122-130 | The read empties the counter: it is 0 afterwards. |
| `EventLoop.EventLoop.EnterLoop` | src/EventLoop.cpp:63-69 | Entering the loop clears the flag. |
| `EventLoop.EventLoop.TestQuit` | src/EventLoop.cpp:71-71 | The loop goes round again if and only if the flag is not set. |
| `EventLoop.EventLoop.Quit` | src/EventLoop.cpp:89-96 | The flag is set, and the loop woken if the call comes from another thread. |
| `EventLoop.EventLoop.RunFunctor` | src/EventLoop.cpp:172-174 | What a functor queues goes behind the queue, and the loop is woken if it queues anything. |
| `EventLoop.EventLoop.DoPendingFunctors` | src/EventLoop.cpp:162-177 | All functors that were waiting run in their order; what they queue waits, in order, and the eventfd is readable if that is anything. |
| `AsyncLog.LogIsConserved` | src/log/AsyncLogging.cpp:24-104 | In every interleaving the file, the unwritten part of the batch, the full buffers and the current buffer are, in this order, all lines appended that are shorter than the large buffer; so the file is a prefix of that stream. |
| `AsyncLog.AcceptedAreLines` | src/log/AsyncLogging.cpp:24-48 | The lines accepted are, in the order of the locked sections, all lines shorter than the large buffer. |
| `AsyncLog.EveryStepIsSafe` | src/log/AsyncLogging.cpp:71-102 | No step of any run moves from a null buffer or takes the last of an empty batch. |
| `AsyncLog.SparesAtCycleStart` | src/log/AsyncLogging.cpp:62-102 | At every start of a cycle the back end has two empty spare buffers, and a missing next buffer implies a full one is waiting, also for lines appended before start(). |
| `AsyncLog.CycleWritesAll` | src/log/AsyncLogging.cpp:71-103 | Everything accepted before the back end takes the buffers is in the file when it recycles them. |
| `AsyncLog.ExitedLogHasWritten` | src/log/AsyncLogging.cpp:51-104 | A back end that has exited has written exactly the lines appended before it last took the buffers; the file holds every line appended if and only if the full buffers and the current buffer are empty. |
| `AsyncLog.TakenUpToCollect` | src/log/AsyncLogging.cpp:64-83 | What is written and what is still to be written of the batch are together the lines appended before the buffers were last taken. |
| `AsyncLog.StopLosesLine` | src/log/AsyncLogging.cpp:62-104 | The other case occurs: a concrete run in which a line appended before the stop is never written. |
| `AsyncLog.RunKeepsInv` | src/log/AsyncLogging.cpp:24-104 | The invariant behind these holds in every state of every run. |
| `AsyncLog.StepKeepsInv` | src/log/AsyncLogging.cpp:24-104 | Every locked section and every back-end action keeps it and is safe. |
| `AsyncLog.AppendExtendsStream` | src/log/AsyncLogging.cpp:24-48 | Whether or not it turns the buffer over, a line comes behind everything waiting; only a line too long for an empty buffer is lost. |
| `AsyncLog.TurnsOverIff` | src/log/AsyncLogging.cpp:24-48 | A buffer is handed over if and only if the line does not fit with room to spare; the line then starts the next buffer, or is lost if it is too long for any. |
| `AsyncLog.CollectTakesBuffers` | src/log/AsyncLogging.cpp:64-78 | Taking the buffers puts everything, the unfinished buffer last, into the batch and leaves the front end with two empty ones. |
| `AsyncLog.LogGoesRounds` | src/log/AsyncLogging.cpp:62-103 | In every interleaving the back end goes its rounds in the order of the program, and writes at least one buffer in each. |
| `AsyncLog.NeverStuck` | src/log/AsyncLogging.cpp:62-103 | In every state the back end can take its next action, however little there is to write. |
| `AsyncLog.LogEndsIffStopped` | src/log/AsyncLogging.cpp:62-62 | At every loop test the back end goes on if and only if the log has not been stopped since it was started; it exits nowhere else. |
| `AsyncLogging.AsyncLogging.Append` | src/log/AsyncLogging.cpp:24-48 | The buffers moved and filled in place make the specified step, before start() and after, and no buffer is then held in two places. |
| `AsyncLogging.AsyncLogging.constructor` | src/log/AsyncLogging.cpp:5-21 | The initial state of the protocol, with two distinct empty buffers. |
| `AsyncLogging.AsyncLogging.CollectBuffers` | src/log/AsyncLogging.cpp:64-78 | The pointer moves and the swap make the specified step; each buffer still has one owner. |
| `AsyncLogging.AsyncLogging.WriteOne` | src/log/AsyncLogging.cpp:80-83 | The bytes of the next buffer of the batch are appended to the file. |
| `AsyncLogging.AsyncLogging.RecycleBuffers` | src/log/AsyncLogging.cpp:84-102 | Trimming, taking back, resetting and clearing leave two empty spares, missing ones taken from the first two of the batch, and touch no buffer of the front end. |
| `AsyncLogging.AsyncLogging.Start` | src/log/AsyncLogging.cpp:51-61 | Starting the thread is the specified step: two more empty buffers, distinct from all others, and what has been appended stays. |
| `AsyncLogging.AsyncLogging.Cycle` | src/log/AsyncLogging.cpp:62-104 | One undisturbed round of the back end writes every line appended before it. |
| `LogStream.FixedBuffer.Append` | include/FixedBuffer.h:20-27 | A text is kept whole if it leaves room to spare and dropped whole otherwise. |
| `LogStream.FixedBuffer.Reset` | include/FixedBuffer.h:40-44 | The buffer is empty and reusable. |
| `LogStream.Stream.FormatInteger` | include/LogStream.h:100-126 | For every signed or unsigned 64-bit value the buffer grows by exactly its decimal text, with a NUL behind it inside the buffer, if 32 bytes are available, and not at all otherwise. |
| `LogStream.Stream.WriteBackwards` | include/LogStream.h:106-116 | The do-while loop, with truncating division and remainders of either sign, writes the digits last one first, the most negative value included. |
| `LogStream.Stream.WriteTextBackwards` | include/LogStream.h:106-121 | Sign and NUL follow, within the 32 bytes required. |
| `LogStream.Stream.ReverseRange` | include/LogStream.h:122-122 | The range is reversed in place and nothing outside it changes. |
| `LogStream.DigitTable` | include/LogStream.h:108-114 | Indexing the 19-character table from its middle gives the digit for every remainder from -9 to 9. |
| `LogStream.ReverseOfBackwardsText` | include/LogStream.h:106-122 | Reversing the digits and sign written gives the canonical text. |
| `Decimal.TextRead` | include/LogStream.h:100-126 | Reading the printed text gives the number back, and it has no leading zero and no negative zero. |
| `Decimal.TextUnique` | include/LogStream.h:100-126 | The printed text is the only canonical text of that number. |
| `Decimal.TextLength` | include/LogStream.h:88-104 | Every 64-bit value prints in at most 20 characters. |
| `MemoryPool.LiveSlotsNeverOverlap` | src/memorypool/MemoryPool.cpp:31-91 | However lock sections interleave, a slot in use lies wholly inside one block behind its link word, at a word boundary, and shares no byte with another slot in use, a free slot, a link word or the uncut space. |
| `MemoryPool.BlocksAreFilled` | src/memorypool/MemoryPool.cpp:49-91 | In every interleaving the slots cut from a block are exactly those that lie a whole number of slots behind its first, padded, place and have room in it, in the newest block as far as the cursor. |
| `MemoryPool.BlockOpensIffFull` | src/memorypool/MemoryPool.cpp:49-58 | A section opens a block if and only if it cuts and the newest block has no room for a whole slot behind the cursor. |
| `MemoryPool.GiveBackThenTake` | src/memorypool/MemoryPool.cpp:37-73 | The free list is a stack: taking a slot undoes giving it back. |
| `MemoryPool.ThreadStepIs` | src/memorypool/MemoryPool.cpp:31-73 | Each action of a thread brings a free slot or one never cut before into use, or frees the slot given back, or changes nothing. |
| `MemoryPool.RunKeepsInv` | src/memorypool/MemoryPool.cpp:31-91 | The layout invariant holds in every state of every interleaving. |
| `MemoryPool.DoKeepsInv` | src/memorypool/MemoryPool.cpp:31-91 | Every lock section keeps it, for any new block the system may return. |
| `MemoryPool.LostSlots` | src/memorypool/MemoryPool.cpp:75-91 | A section loses slots only by opening a block, and then exactly those on the free list. |
| `MemoryPool.LostForever` | src/memorypool/MemoryPool.cpp:75-91 | A lost slot is never handed out again. |
| `MemoryPool.RunExactIff` | src/memorypool/MemoryPool.cpp:31-91 | Over any interleaving "cut = in use + free" still holds if and only if no section has opened a block while slots were free. |
| `MemoryPool.ExactKeptIff` | src/memorypool/MemoryPool.cpp:31-91 | The same for one section. |
| `MemoryPool.SequentialRunsLoseNothing` | src/memorypool/MemoryPool.cpp:31-73 | When calls do not overlap, cut slots are always exactly the slots in use and the free ones. |
| `MemoryPool.SlotLostBetweenSections` | src/memorypool/MemoryPool.cpp:31-91 | In a pool of any slot and block size two threads, each following `allocate` and `deallocate`, can lose a slot. |
| `MemoryPool.OneThreadLosesNothing` | src/memorypool/MemoryPool.cpp:31-73 | One thread alone never does, whatever it calls: it comes to the block only with the free list empty. |
| `MemoryPool.ThreadsKeepInv` | src/memorypool/MemoryPool.cpp:31-91 | However threads interleave at their looks at the free list and their lock sections, the layout invariant holds. |
| `MemoryPool.ThreadStepIsSection` | src/memorypool/MemoryPool.cpp:31-73 | What a thread does is nothing to the pool, or one of its lock sections. |
| `MemoryPool.PadAlignsIff` | src/memorypool/MemoryPool.cpp:93-98 | The padded pointer is a multiple of the slot size, as its comment says, if and only if the slot size divides the size of the address space. |
| `MemoryPool.PadMissesTwentyFour` | src/memorypool/MemoryPool.cpp:93-98 | For slots of 24 bytes it never is one. |
| `MemoryPool.PadKeepsWordAlignment` | src/memorypool/MemoryPool.cpp:83-85 | But it is always a multiple of 8, and the padding leaves room for a word of the slot. |
| `MemoryPool.PadPointer` | src/memorypool/MemoryPool.cpp:93-98 | With wrap-around subtraction the padding is less than the slot size. |
| `MemoryPool.FirstSlotFitsIff` | src/memorypool/MemoryPool.cpp:75-91 | A new block has room for a first slot, wherever the system puts it, if and only if it is at least two slots long; `allocate` does not look again. |
| `MemoryPool.NeighboursApartIff` | src/memorypool/MemoryPool.cpp:56-58 | Slots cut one after the other are apart, wherever they are cut, if and only if the slot size is a multiple of 8, because the cursor moves by whole words. |
| `MemoryPool.Pool.Init` | src/memorypool/MemoryPool.cpp:21-29 | An initialised pool is empty and valid. |
| `MemoryPool.Pool.PopSlot` | src/memorypool/MemoryPool.cpp:37-43 | The first free slot is handed out and the list in memory goes on at its link word. |
| `MemoryPool.Pool.CutSlot` | src/memorypool/MemoryPool.cpp:49-58 | A slot never cut before is handed out, from a new block if the current one is used up. |
| `MemoryPool.Pool.Allocate` | src/memorypool/MemoryPool.cpp:31-62 | One undisturbed call hands out the first free slot, or one never cut before if none is free, and loses none. |
| `MemoryPool.Pool.Deallocate` | src/memorypool/MemoryPool.cpp:64-73 | The slot becomes the first free one through its own first word; a null pointer is ignored. |
| `MemoryPool.Pool.AllocateNewBlock` | src/memorypool/MemoryPool.cpp:75-91 | The block is linked in front, the cursor padded, the limit set so that it is passed exactly when no slot fits, and the free list dropped. |
| `MemoryPool.Pool.StoreWord` | include/MemoryPool.h:17-20 | Whatever its owner writes into a slot, both intrusive lists stay intact. |
| `MemoryPool.Pool.Destroy` | src/memorypool/MemoryPool.cpp:7-19 | The walk returns every block to the system, each once. |
| `HashBucket.LeastClassThatFits` | include/MemoryPool.h:54-63 | A request of 1 to 512 bytes goes to the pool with the smallest slots that hold it. |
| `HashBucket.SlotsOfDifferentPools` | include/MemoryPool.h:48-63 | Slots in use never overlap, even across pools. |
| `HashBucket.NoSlotsEverOverlap` | include/MemoryPool.h:48-63 | In every interleaving of lock sections over all 64 pools, from their initialisation on, two slots in use share no byte, of one pool or of two. |
| `HashBucket.PoolsKeepInv` | src/memorypool/MemoryPool.cpp:31-106 | Every state of every such interleaving keeps the layout of every pool and shares no block between two pools. |
| `HashBucket.Buckets.constructor` | src/memorypool/MemoryPool.cpp:100-106 | All 64 pools are initialised with their slot sizes and share no block. |
| `HashBucket.Buckets.UseMemory` | include/MemoryPool.h:54-63 | Nothing for 0, the system for more than 512, otherwise a slot large enough from the pool of its class, a free one if there is any, and no other pool changes. |
| `HashBucket.Buckets.FreeMemory` | include/MemoryPool.h:65-76 | The slot returns to the pool it came from; null and large pointers leave all pools alone. |
| `OutputPath.StreamIntactIff` | src/TcpConnection.cpp:53-120 | In every run, the bytes on the wire followed by the output buffer are all bytes sent while connected, in order, those of other threads in the order their functors run, if and only if no non-empty direct write has failed with EPIPE or ECONNRESET. |
| `OutputPath.WriteTakesWhatItReturns` | src/TcpConnection.cpp:70-120 | In every state, for every action: exactly the bytes that `write` says it has taken go on the wire, and are not kept; the rest of what was handed over or waiting is kept, unless the write has failed for good. |
| `OutputPath.WireIsWhatWritesReturned` | src/TcpConnection.cpp:70-210 | In every run the length of the wire is the sum of what all calls of `write` have returned. |
| `OutputPath.CallsCanHappen` | src/TcpConnection.cpp:53-223 | In which states each call can happen: sends, shutdowns and writable events always, with any result of the write that is not more than was offered; functors once they are queued. |
| `OutputPath.PhaseChanges` | src/TcpConnection.cpp:123-223 | The state changes when the connection is established, half-closed while up, closed by the system or destroyed while up, and not otherwise. |
| `OutputPath.WritingAndShutdownFollow` | src/TcpConnection.cpp:109-210 | Writing is switched on by the first byte that waits and off by the last one or with the connection; the write side is shut by a half-close that finds writing off and by the write that takes the last byte of a half-closed connection. |
| `OutputPath.WritingIffWaiting` | src/TcpConnection.cpp:109-119 | While the connection is up or half closed, writing is enabled if and only if the output buffer is not empty. |
| `OutputPath.ShutdownOnceAfterLastByte` | src/TcpConnection.cpp:123-138 | With send() and shutdown() called in the loop thread, the write side is shut at most once, when every byte kept is on the wire, and in the half-closed state exactly when nothing waits. |
| `OutputPath.NothingAfterShutdown` | src/TcpConnection.cpp:53-138 | After that no byte is accepted or written and the write side is not shut again. |
| `OutputPath.ShutsCleanlyIffNothingWaits` | src/TcpConnection.cpp:123-138 | After shutdown() in another thread every continuation shuts the write side at most once and with nothing waiting, if and only if at the call the output buffer is empty and no queued send of another thread has bytes. |
| `OutputPath.LoopShutsCleanlyIff` | src/TcpConnection.cpp:123-138 | After shutdown() in the loop thread the same holds if and only if no queued send of another thread has bytes, whatever waits in the buffer. |
| `OutputPath.ClosedIsSilentIff` | src/TcpConnection.cpp:70-120 | After handleClose nothing more is written in any continuation if and only if no queued send of another thread has bytes: sendInLoop reports that it gives up and goes on. |
| `OutputPath.SendsElsewhereInOrder` | src/TcpConnection.cpp:53-64 | Sends of other threads made while connected are carried out in the order they were queued, each at most once, and those not carried out are still queued. |
| `OutputPath.ShutTwiceFromAnotherThread` | src/TcpConnection.cpp:123-138 | The other case occurs from the start: a concrete run that shuts the write side twice. |
| `OutputPath.ToldInOrder` | src/TcpConnection.cpp:141-160 | The user is told that the connection is up, down and closed in this order, each at most once, if and only if handleClose has not come again when it was down; and that it is down exactly when it is. |
| `OutputPath.CallbacksAreExact` | src/TcpConnection.cpp:82-116 | A write-complete callback is queued by exactly the steps that hand the last byte to the system, a high-water callback by exactly those that cross the mark upwards. |
| `OutputPath.RunKeepsInv` | src/TcpConnection.cpp:53-223 | The invariants of the output path hold in every state of every run. |
| `OutputPath.StepKeepsInv` | src/TcpConnection.cpp:53-223 | Every action keeps them. |
| `OutputPath.StepKeepsHalfClosed` | src/TcpConnection.cpp:123-204 | Every action of the loop thread, a queued send without bytes included, keeps the half-close account, and so does every call of another thread once the connection is no longer up. |
| `OutputPath.TotalIsSent` | src/TcpConnection.cpp:53-64 | The history of accepted bytes is the data of all sends made while connected, in order, those of other threads where their functors run. |
| `OutputPath.DroppedIffFaulty` | src/TcpConnection.cpp:93-99 | Bytes have been dropped if and only if some direct write of a non-empty send, made in the loop thread or run for another, has failed for good. |
| `TcpConnection.TcpConnection.Send` | src/TcpConnection.cpp:53-64 | On the object, with its buffer and its channel, a send in the loop thread is the specified step. |
| `TcpConnection.TcpConnection.SendElsewhere` | src/TcpConnection.cpp:53-64 | A send in another thread queues its functor while the connection is up, and nothing else. |
| `TcpConnection.TcpConnection.RunSend` | src/TcpConnection.cpp:70-120 | The functor carries out the send in whatever state the connection then is, closed ones included. |
| `TcpConnection.TcpConnection.SendInLoop` | src/TcpConnection.cpp:70-120 | Direct write, fault, callbacks and buffering as specified, for every result of the write and every state after connecting; what the write returns is what goes on the wire. |
| `TcpConnection.TcpConnection.HandleWrite` | src/TcpConnection.cpp:182-210 | A writable event takes from the buffer exactly what the write returns, and on the last byte stops writing, queues the callback and finishes a half-close. |
| `TcpConnection.TcpConnection.Shutdown` | src/TcpConnection.cpp:123-138 | In the loop thread: half-closes, and shuts the write side at once if nothing waits. |
| `TcpConnection.TcpConnection.HandleClose` | src/TcpConnection.cpp:213-223 | Nothing is watched any more, and both callbacks are called, in order, also if the connection was down already. |
| `TcpConnection.TcpConnection.ConnectEstablished` | src/TcpConnection.cpp:141-149 | The connection is up and registered for reading. |
| `TcpConnection.TcpConnection.ConnectDestroyed` | src/TcpConnection.cpp:152-160 | The descriptor has left the interest list of the kernel and the map of the poller. |
| `TcpConnection.KernelWatchesForRoom` | src/TcpConnection.cpp:109-119 | While the connection is up or half closed the kernel reports room in its socket exactly while bytes are waiting. |
| `Poller.KernelIsExactlyTheAdded` | src/EPollPoller.cpp:66-108 | With distinct descriptors, the interest list of the kernel is exactly the channels that are added, each with its current mask, and the map holds exactly those not new. |
| `Poller.EPollPoller.UpdateChannel` | src/EPollPoller.cpp:66-93 | Repairs the registration of a channel whose mask has changed, and no call into the kernel is refused: ADD is used only for descriptors it does not know, MOD and DEL only for those it does. |
| `Poller.EPollPoller.RemoveChannel` | src/EPollPoller.cpp:96-108 | The descriptor leaves map and kernel, with a DEL only if it is registered. |
| `Poller.Channel.constructor` | src/Channel.cpp:26-32 | A new channel is not registered. |
| `Poller.Channel.EnableReading` | include/Channel.h:56-56 | Registers the channel for reading too and keeps poller and kernel in step. |
| `Poller.Channel.DisableReading` | include/Channel.h:57-57 | Takes the read events out, and the channel out of the kernel if nothing remains. |
| `Poller.Channel.EnableWriting` | include/Channel.h:58-58 | Writing is on, reading as before, poller and kernel in step. |
| `Poller.Channel.DisableWriting` | include/Channel.h:59-59 | Writing is off, reading as before, poller and kernel in step. |
| `Poller.Channel.DisableAll` | include/Channel.h:60-60 | The mask is empty; a registered channel leaves the kernel, a deleted one enters it again with an empty mask. |
| `Poller.Channel.Remove` | src/Channel.cpp:50-53 | The channel is new again. |

## Left out

- Lfu.LfuCache.constructor: capacity and aging limit are natural numbers here; negative values of the two `int` parameters are not modelled.
- Lfu.LfuCache.Put: requires, of a put that finds no node to evict, that the key of the sentinel it takes instead is not in the cache; that key is not initialised for built-in key types, and with it cached the index and the lists no longer agree.
- Lfu.LfuCache.PutInternal: requires the same, for the same reason.
- Lfu.LfuCache.KickOut: requires the same, for the same reason.
- LfuModel.Step: no key of a run is the key of the sentinels.
- Lfu.LfuCache.Get: the overload that returns a default-constructed value on a miss is not modelled.
- HashLfu.HashLfuCache.constructor: the number of threads of the machine is a parameter, positive if it is used; the rounding of `std::ceil` on doubles is an exact integer ceiling.
- HashLfu.HashLfuCache.Put: requires of the slice what `Lfu.LfuCache.Put` does. `HashLfuCache::purge`, a loop of purges, is not modelled.
- HttpParser.HttpConnection.OnRequest: the decision to close is part of the event; `HttpResponse`, the response callback and the shutdown that follows are not modelled.
- HttpParser.HttpConnection.OnMessage: the 400 answer and the shutdown are one event; that a second answer is dropped, because the connection is no longer up, is a matter of `OutputPath`.
- HttpParser.HttpConnection.HandleRead: the close handler is an event here; what it does is modelled in `TcpConnection`, and the two objects are not joined.
- ByteBuffer.Buffer.RetrieveAsString: asking for more bytes than there are, which the source would read past its end, is excluded.
- EventLoop.EventLoop.DoPendingFunctors: proved without other threads in between; what they add at any point is covered by the theorems of `Wakeup`.
- Wakeup.NextDrainRunsAll: says nothing about a loop that has quit, see `Wakeup.StoppedLoopHasRun`.
- AsyncLogging.AsyncLogging.WriteOne: `LogFile` and `FileUtil` are one append-only sink; rolling and flushing are not part of this model.
- LogStream.Stream.FormatInteger: the other overloads of the stream operators are not modelled.
- MemoryPool.Pool.Init: the source asks only for a positive size; the model asks for a multiple of 8, without which neighbouring slots overlap (`MemoryPool.NeighboursApartIff`), and for blocks of at least two slots, without which a slot may overrun its block (`MemoryPool.FirstSlotFitsIff`). `initMemoryPool` always gives both.
- MemoryPool.ThreadsKeepInv: lock sections are atomic; the write to `freeList_` under the other lock is not interleaved with a section on the free list.
- MemoryPool.Pool.Deallocate: the caller gives back a slot that is in use, once.
- HashBucket.Buckets.UseMemory: exhaustion of memory is not modelled.
- Poller.EPollPoller.UpdateChannel: descriptors of live channels are distinct, as the system promises; a channel is destroyed only after its removal.
- Poller.EPollPoller.RemoveChannel: failures of `epoll_ctl` other than an illegal operation are not modelled.
- TcpConnection.TcpConnection.RunSend: the functor binds raw pointers; the model takes the connection and the text to be still there when it runs.
- TcpConnection.TcpConnection.HandleClose: what the two callbacks do is not modelled.
- Counters, lengths and sizes are unbounded; overflow of 32-bit counters and of `size_t` is not modelled, except where pointers wrap around in the memory pool.
- Lifetimes under `shared_ptr` and `weak_ptr`, leaks of the frequency lists, and races between unlocked reads are not modelled.
- `Socket`, `Acceptor`, `InetAddress`, `Thread`, `EventLoopThreadPool`, `Timestamp`, `HttpResponse` and the benchmark client are not modelled: wrappers of the system, or easy.
- HTTP bodies (section 6 of RFC 9112) do not exist in the program: `kExpectBody` is never entered.
