# fatdog

Fatdog is a small C++ server framework: fibers scheduled over threads, an epoll loop with
timers, a chunked byte buffer with a typed codec, and HTTP on top. This project models the
parts of it whose correctness is not visible from one function, and proves what they are for.

| files | what they model |
|---|---|
| `Codec`, `Chain`, `Wire` | the encodings, the arithmetic of the node chain, and each typed value as bytes, as functions |
| `ByteArray`, `TypedStream` | `ByteArray` as a class over linked nodes with a cached cursor, and its typed writers and readers |
| `Stream` | `SocketStream` and the fixed-size loops of `Stream` over a socket that transfers what it likes |
| `TimerSpec`, `Timer` | what a `TimerManager` promises, on values; the ordered set of timers that change their own keys |
| `SchedulerSpec`, `SchedulerDrain`, `SchedulerSafe` | the worker loop, `schedule`, `idle`, `stop` and the fiber states as a machine of atomic steps; when the queue drains and what `stopping()` promises; when the assertions about fiber states hold |
| `Scheduler` | the classes that take those steps, and a whole turn of `run()` |
| `EventSpec`, `IOManager` | the event bookkeeping on values; the classes that do it, over a scheduler and a timer manager |
| `HttpSpec`, `HttpMachine`, `HttpRuns` | requests and their text; the generated parser's machine, and runs over a character or a few |
| `HttpGrammar`, `HttpLanguage`, `HttpRoundTrip`, `Http` | what the parser accepts is in a grammar; what is in the grammar is accepted; print then parse, and parse, print and parse; the classes |
| `LogFormatter` | the pattern tokeniser |

Two layers recur. The classes update their fields as the source does, and each method is
proved against a function on values (`Written`, `After`, `Dispatch`, `Run`, ...). The lemmas
about those functions then say what holds over whole runs.

## What is taken for granted

- Sizes, positions and deadlines do not overflow their 64-bit types. Where a width matters it
  is written out: the fixed-width and variable-length integers, zigzag, the 16-bit string
  length, `npos` in the log formatter, the 31-bit length assertion of the HTTP parser.
- Zigzag: the minimum integer is not encoded (its negation is undefined), and `v * 2` wraps.
- `ByteArray`: a write needs an `addCapacity` that suffices, and `AddCapacityExact` says when
  it does; a read of zero bytes needs a current node, so it is not made at full capacity; the
  const `read` starts in the cursor's node whatever position it is given, and `AtCursorIsPos`
  says when that is the position. Writers cut a string's length to the prefix;
  `TextSurvivesIff` says when the string survives.
- Streams: the socket stays connected and every transfer moves a positive amount.
- Timers: callbacks are not null; a new timer has an address no known timer has.
- Scheduler: three stretches that touch shared state are atomic, although the source takes no
  lock: the scan with its removal and the count; each push to `m_fibers`; and what becomes of a
  picked entry, from the test at fatdog/scheduler.cpp:192 to the write at fatdog/fiber.cpp:138,
  or to the count at line 239. So two workers that both pass the assertion in `swapIn` before
  either writes EXEC are not modelled. The other reads and writes are steps of their own;
  `stopping()` is up to three. `start()` is called once. Nothing queued is a thread's main
  fiber, fibers that user code makes have a callback, and no code outside this scheduler runs
  its fibers. Drain also needs that nothing is scheduled from outside after `stop()`. The early
  test in `stop()` for a scheduler without spawned threads repeats the test before
  `m_rootFiber->call()`, so it is modelled once. Each thread has an id of its own.
- A fiber that has ended and is swapped in again, because another worker overwrote its state,
  fails the assertion at the end of MainFunc. The machine lets it go on instead, which only adds
  runs; no run that is built here to show a failure uses one of these.
- IOManager: descriptors are not negative; `contextResize` never shrinks the table; `epoll_ctl`
  may fail for reasons of its own and then changes nothing. `addEvent` is called on a
  scheduler's thread, by the fiber that runs there. A failed assertion ends the run.
- HTTP: one `execute` on a fresh parser. `uri_relaxed`, which nothing initialises, is a
  parameter. A char is a byte; `*p` is signed.

## What is false of the code, and exactly when

- `addCapacity` can leave room for less than was asked: `Chain.AddCapacityExact`,
  `Chain.AddCapacityFallsShort`.
- The write-then-read test needs that an empty string does not end at full capacity:
  `TypedStream.ReadersSafeIff`.
- The queue need not drain. With one worker it always does; with more it does as long as nothing
  is bound to a thread, and only so long: `SchedulerDrain.DrainsIff`,
  `SchedulerDrain.BoundEntryLeftBehind`.
- `stopping()` can hold while work is still to come. It does exactly while some worker is about
  to put a fiber back: `SchedulerDrain.StoppingTooEarlyIff`, `SchedulerDrain.StoppingTooEarly`.
- The assertions in `swapIn`, `reset` and the yields hold in every run exactly if there is one
  worker: `SchedulerSafe.SafeIff`. With one worker, `cb_fiber` stays the worker's own exactly if
  callbacks that hand out their fiber then yield: `SchedulerSafe.OwnedIff`.
- An event that was triggered cannot be armed again, a hang-up with one of two events armed
  ends the run, and after `cancelAll` the manager never stops: `EventSpec.AddAborts`,
  `EventSpec.ArmAgain`, `EventSpec.DispatchMeans`, `EventSpec.ExactIff`, `EventSpec.NeverStops`.
- A request comes back exactly if its method is not M-SEARCH and its version is 1.0 or 1.1:
  `HttpRoundTrip.RoundTripIff`.
- The parser takes control characters, LF among them, inside a header key, and CR at its front:
  `HttpGrammar.HeaderChars`, `HttpGrammar.Accepted`.
- Text after the last directive of a log pattern is lost: `LogFormatter.TrailingTextLost`.

## Model

| member | source | states |
|---|---|---|
| `Codec.FixedBytesAreWireBytes` | fatdog/endian.h:17-67 | swapping when the wanted order is not the host's gives the same bytes on every host: the two's complement pattern in the wanted order |
| `Codec.WireByteAt` | fatdog/bytearray.cpp:66-127 | byte k of the little endian form holds bits 8k to 8k + 7 of the two's complement value, and in big endian order it is the k-th from the end |
| `Codec.FixedValueIsWireValue` | fatdog/bytearray.cpp:242-297 | reading undoes that swap: the value read depends on the bytes and the wanted order only |
| `Codec.FixedRoundTrip` | fatdog/bytearray.cpp:66-127 | a fixed-width integer written on one host is read back on any other |
| `Codec.VarintLength` | fatdog/bytearray.cpp:168-197 | one byte for each started group of seven bits, and at least one |
| `Codec.VarintIsLeb` | fatdog/bytearray.cpp:168-197 | the low seven bits of the bytes, least significant first, make up the value, and only the last byte has its high bit clear |
| `Codec.VarintReadMeans` | fatdog/bytearray.cpp:304-345 | on any input the readers take the bytes up to the first with the high bit clear, or as many as the word has groups, fail exactly when the input ends before, and give what those bytes stand for, cut to the word |
| `Codec.VarintFitsBuffer` | fatdog/bytearray.cpp:170-196 | five bytes are enough for 32 bits and ten for 64, so tmp never overflows |
| `Codec.VarintRoundTrip` | fatdog/bytearray.cpp:304-345 | the reader returns the value and takes exactly the bytes written, whatever follows them |
| `Codec.VarintLoopBound` | fatdog/bytearray.cpp:304-345 | on any input the value read fits the word |
| `Codec.ZigzagDecodeEncode` | fatdog/bytearray.cpp:129-161 | decode undoes encode away from the minimum integer |
| `Codec.ZigzagEncodeDecode` | fatdog/bytearray.cpp:129-161 | encode undoes decode for every code word but the one that means the minimum integer |
| `Codec.ZigzagMeans` | fatdog/bytearray.cpp:129-161 | 2v for v from zero up and -2v - 1 below, and the inverse |
| `Chain.WalkIsDivision` | fatdog/bytearray.cpp:530-551 | walking the nodes from the root ends at position / base, with position % base left |
| `Chain.AddCapacityExact` | fatdog/bytearray.cpp:601-637 | enough room is left if and only if the shortage is a multiple of the base or its remainder exceeds the old capacity; otherwise it is one node short; no node is ever unneeded |
| `Chain.SufficesAlways` | fatdog/bytearray.cpp:601-637 | with base size 1, or no capacity left, every request is met |
| `Chain.AddCapacityFallsShort` | fatdog/bytearray.cpp:614-616 | 10000 bytes into two empty nodes of 4096: no node is added |
| `Chain.UnitNodesFitAll` | tests/test_bytearray.cpp:35-43 | with base size 1 any list of writes fits |
| `Chain.WrittenAllAtOnce` | fatdog/bytearray.cpp:414-455 | writes one after the other are one write of them all |
| `Chain.FlatAt` | fatdog/bytearray.cpp:429-448 | a run inside one node is a run of the flat sequence |
| `Chain.FlatUpdate` | fatdog/bytearray.cpp:429-448 | laying bytes inside one node lays them into the flat sequence |
| `Wire.DecodeEncode` | fatdog/bytearray.cpp:66-397 | each reader gives back what its writer wrote, and takes exactly that, for every value within its limits |
| `Wire.CutShort` | fatdog/bytearray.cpp:251-397 | an encoded value that is cut off anywhere is not read, and how much each reader takes then |
| `Wire.IntLaidOut` | fatdog/bytearray.cpp:66-211 | the bytes each integer writer lays down |
| `Wire.TextLaidOut` | fatdog/bytearray.cpp:213-240 | a string is its length in two, four or eight bytes or as a varint, cut to what the prefix holds, and then the text |
| `Wire.TextSurvivesIff` | fatdog/bytearray.cpp:213-235 | a string survives exactly when it is shorter than 65536 bytes with a 16-bit prefix and than 4294967296 with a 32-bit one |
| `Wire.LongStringLosesItsTail` | fatdog/bytearray.cpp:213-217 | 65536 bytes through writeStringF16 come back empty |
| `ByteArrays.ByteArray.constructor` | fatdog/bytearray.cpp:33-36 | one node, big endian, position and size 0 |
| `ByteArrays.ByteArray.SetIsLittleEndian` | fatdog/bytearray.cpp:54-64 | sets the byte order and nothing else |
| `ByteArrays.ByteArray.CursorMeaning` | fatdog/bytearray.cpp:421-423 | capacity is base times nodes; m_cur is the node position / base steps from the root, null exactly at full capacity, and holds the current byte |
| `ByteArrays.ByteArray.AddCapacity` | fatdog/bytearray.cpp:601-637 | contents, position, size and cursor agreement kept; the capacity is the one AddCapacityExact speaks of |
| `ByteArrays.ByteArray.Write` | fatdog/bytearray.cpp:414-455 | the chain stands for the flat sequence with the bytes laid over it at the position, which moves on |
| `ByteArrays.ByteArray.Read` | fatdog/bytearray.cpp:457-491 | the next bytes, in order, if there are that many; otherwise nothing changes |
| `ByteArrays.ByteArray.ReadAt` | fatdog/bytearray.cpp:493-528 | the bytes from that offset in the cursor's node on |
| `ByteArrays.ByteArray.AtCursorIsPos` | fatdog/bytearray.cpp:493-528 | that is the position asked for exactly when it lies in the cursor's node |
| `ByteArrays.ByteArray.SetPosition` | fatdog/bytearray.cpp:530-551 | refused beyond capacity; otherwise the size grows to the position and the cursor agrees with it |
| `ByteArrays.ByteArray.Clear` | fatdog/bytearray.cpp:399-412 | empty, with the first node only |
| `ByteArrays.ByteArray.ToString` | fatdog/bytearray.cpp:639-649 | the readable bytes, without moving |
| `ByteArrays.ByteArray.GetReadBuffers` | fatdog/bytearray.cpp:669-704 | the slices of the next readable bytes are appended; nothing changes |
| `ByteArrays.ByteArray.GetReadBuffersAt` | fatdog/bytearray.cpp:706-747 | the slices from an explicit position; the same slices when it is the position |
| `ByteArrays.ByteArray.GetWriteBuffers` | fatdog/bytearray.cpp:749-783 | room is made, and the slices are those of the next len positions; the position does not move |
| `ByteArrays.ByteArray.GatherSlices` | fatdog/bytearray.cpp:669-783 | the slices of a range hold exactly its bytes, in order |
| `ByteArrays.ByteArray.SlicesApart` | fatdog/bytearray.cpp:749-783 | no two slices share memory |
| `TypedStream.WriteFixed` | fatdog/bytearray.cpp:66-127 | lays down the wire bytes of the value |
| `TypedStream.VarintBuffer` | fatdog/bytearray.cpp:168-197 | the loop over tmp produces the encoding |
| `TypedStream.WriteVarint` | fatdog/bytearray.cpp:168-197 | lays down the encoding |
| `TypedStream.WriteText` | fatdog/bytearray.cpp:213-235 | lays down the prefix, cut to its width, then the text |
| `TypedStream.ReadFixed` | fatdog/bytearray.cpp:251-297 | the value of the next bytes, or out_of_range with nothing taken |
| `TypedStream.ReadVarint` | fatdog/bytearray.cpp:304-345 | the loop over bytes is the reader function, on any input |
| `TypedStream.ReadText` | fatdog/bytearray.cpp:363-397 | prefix then text; when the text is too short the prefix stays taken |
| `TypedStream.ReadersSafeIff` | fatdog/bytearray.cpp:457-465 | reading back touches a null cursor exactly when the last item is an empty string and the items fill the array |
| `TypedStream.RoundTrip` | tests/test_bytearray.cpp:17-27 | any list of typed values, written and read back with the matching readers, comes back in order and leaves nothing to read |
| `Streams.Poured` | fatdog/socket_stream.cpp:40-45 | filling slices in order lays the data over the flat sequence at the position |
| `Streams.SocketStream.Write` | fatdog/socket_stream.cpp:58-72 | sends a non-empty prefix of the readable bytes and moves on by as much |
| `Streams.SocketStream.Read` | fatdog/socket_stream.cpp:33-47 | stores what arrived at the position and moves on by as much |
| `Streams.SocketStream.WriteFixSize` | fatdog/stream.cpp:55-68 | however the transfers fall, exactly the next length bytes are sent, in order |
| `Streams.SocketStream.ReadFixSize` | fatdog/stream.cpp:23-36 | however the bytes come in, it is one write of all of them |
| `Streams.SocketStream.WriteFixSizeFrom` | fatdog/stream.cpp:38-53 | the same from plain memory |
| `Streams.SocketStream.ReadFixSizeInto` | fatdog/stream.cpp:7-21 | the same into plain memory, the rest of which is untouched |
| `TimerSpec.ComparatorIsOrder` | fatdog/timer.cpp:6-29 | a strict total order on timers by deadline and address, null first |
| `TimerSpec.SortedUnique` | fatdog/timer.cpp:6-29 | there is one way to list a set of keys in that order |
| `TimerSpec.FiredUnique` | fatdog/timer.cpp:153-192 | so the callbacks handed out are determined |
| `TimerSpec.AddArms` | fatdog/timer.cpp:112-117 | the new timer is armed and due at now + ms, and no other timer changes |
| `TimerSpec.CancelKills` | fatdog/timer.cpp:43-53 | true exactly for an armed timer, which is dead then, and no other timer changes |
| `TimerSpec.RefreshMoves` | fatdog/timer.cpp:55-70 | an armed timer becomes due at now plus its period, and no other changes |
| `TimerSpec.ResetMoves` | fatdog/timer.cpp:72-102 | granted for the period it has, or if armed; it becomes due at now, or where its period began, plus the new period |
| `TimerSpec.ExpireMoves` | fatdog/timer.cpp:178-191 | a due recurring timer is armed again for now plus its period, any other due one is dead |
| `TimerSpec.FiresOnTime` | fatdog/timer.cpp:153-192 | over any run that leaves it alone, a timer fires exactly as often as its deadline is found passed, counting on from each firing |
| `TimerSpec.FiredIff` | fatdog/timer.cpp:153-192 | listExpiredCb hands out something exactly if the deadline of some armed timer has come |
| `TimerSpec.NothingOverdue` | fatdog/timer.cpp:178-191 | exactly the due timers are disarmed or moved to now + period; the others stay as they are |
| `TimerSpec.NoMissedWakeup` | fatdog/timer.cpp:43-207 | over any run since getNextTimer returned a wait, onTimerInsertedAtFront has been called, once, or no armed timer is due before that wait is over |
| `TimerSpec.BegunAlways` | fatdog/timer.cpp:55-102 | in every run the current period of each timer began in the past |
| `TimerSpec.FiresOnce` | fatdog/timer.cpp:153-192 | over any run a timer that does not recur fires once at most, and never when dead |
| `Timers.TimerManager.LowerBound` | fatdog/timer.cpp:171-176 | the ordered search |
| `Timers.TimerManager.Find` | fatdog/timer.cpp:43-102 | finds every member of the set and nothing else |
| `Timers.Timer.SetDeadline` | fatdog/timer.cpp:55-102 | the only place a key changes; not while its timer is a member |
| `Timers.Timer.Cancel` | fatdog/timer.cpp:43-53 | true exactly for an armed timer, which loses its callback and its place; a timer is in the set if and only if it holds a callback |
| `Timers.Timer.Refresh` | fatdog/timer.cpp:55-70 | an armed timer moves to now + period, without notification |
| `Timers.Timer.Reset` | fatdog/timer.cpp:72-102 | granted at once for the period it has; otherwise an armed timer moves, and may be announced as first |
| `Timers.TimerManager.AtFront` | fatdog/timer.cpp:194-207 | the new timer is at the front exactly when no armed timer comes before it |
| `Timers.TimerManager.Enter` | fatdog/timer.cpp:194-207 | notifies exactly when the timer is first and nobody was notified since getNextTimer |
| `Timers.TimerManager.AddTimer` | fatdog/timer.cpp:112-117 | a new armed timer due at now + ms |
| `Timers.TimerManager.GetNextTimer` | fatdog/timer.cpp:133-151 | none exactly when nothing is armed; 0 exactly when a deadline has come; otherwise the time to an armed deadline, which no other armed deadline precedes |
| `Timers.TimerManager.HasTimer` | fatdog/timer.cpp:209-212 | whether any timer is armed |
| `Timers.TimerManager.DueBefore` | fatdog/timer.cpp:170-176 | wherever the probe stands in the order, the search ends behind exactly the due timers |
| `Timers.TimerManager.FireOne` | fatdog/timer.cpp:180-191 | a fired timer is back in the set at now + period, or dead |
| `Timers.TimerManager.ListExpiredCb` | fatdog/timer.cpp:153-192 | each due timer's callback once, in deadline order, whatever the probe's address |
| `Schedulers.Fiber.SwapIn` | fatdog/fiber.cpp:133-144 | the assertion holds unless the fiber executes already; it executes then |
| `Schedulers.Fiber.Reset` | fatdog/fiber.cpp:158-175 | the assertion holds for INIT, TERM and EXCEPT; the fiber is INIT then, with the callback given |
| `Schedulers.Scheduler.Schedule` | fatdog/scheduler.h:56-71 | one entry more at the back, with the job, the thread and a new ticket; none for a null fiber or callback; tickles exactly if the queue was empty |
| `Schedulers.Scheduler.ScanQueue` | fatdog/scheduler.cpp:163-184 | the loop finds the first entry for this thread whose fiber does not execute, and tickles exactly if it passed one for another |
| `Schedulers.Scheduler.Pick` | fatdog/scheduler.cpp:163-248 | that entry goes to the worker; with none it turns idle, or leaves if its idle fiber is done |
| `Schedulers.Scheduler.Dispatch` | fatdog/scheduler.cpp:192-240 | the entry's fiber, or cb_fiber with its callback, is swapped in; a fiber that has ended is dropped |
| `Schedulers.Scheduler.CbFiber` | fatdog/scheduler.cpp:209-216 | cb_fiber is reset if it may be, or made |
| `Schedulers.Scheduler.Return` | fatdog/fiber.cpp:194-249 | the running code ends or throws whatever its state, and yields only if it still executes |
| `Schedulers.Scheduler.RequeueFiber` | fatdog/scheduler.cpp:199-223 | it is scheduled again, for any thread, and cb_fiber let go |
| `Schedulers.Scheduler.Settle` | fatdog/scheduler.cpp:201-227 | an ended cb_fiber is reset; a suspended fiber goes on to be held |
| `Schedulers.Scheduler.HoldFiber` | fatdog/scheduler.cpp:203-232 | the state of the fiber is HOLD and cb_fiber is let go |
| `Schedulers.Scheduler.Idle` | fatdog/scheduler.cpp:260-277 | one read of stopping(), in its order |
| `Schedulers.Scheduler.Check` | fatdog/scheduler.cpp:108-114 | the root worker is called unless stopping() holds |
| `Schedulers.Scheduler.Turn` | fatdog/scheduler.cpp:157-255 | a whole turn of run(), whatever the fiber that is swapped in does and however it comes back: which entry is taken, what is swapped in, that a fiber that yields is HOLD, or READY and last in the queue, what becomes of one that ends and of cb_fiber, what a worker without work does; it is a run of the machine by this worker alone, and both counters are as before |
| `SchedulerSpec.CountersExact` | fatdog/scheduler.cpp:157-255 | in every reachable state the active count is the number of workers between pick and decrement, the idle count that of workers in their idle fiber |
| `SchedulerSpec.EntryInOnePlace` | fatdog/scheduler.cpp:163-240 | every entry ever scheduled is in the queue, held by one worker, or done with |
| `SchedulerSpec.FateSealedOnce` | fatdog/scheduler.cpp:192-240 | it is swapped in once, or discarded, and that only because its fiber is TERM or EXCEPT |
| `SchedulerSpec.OverOnlyByEnd` | fatdog/scheduler.cpp:192-233 | over every run, with any number of workers, a fiber comes to be TERM, EXCEPT or READY only because some worker ran it and its own code ended, threw or yielded |
| `SchedulerSpec.DiscardedOnlyAfterEnd` | fatdog/scheduler.cpp:192-240 | an entry is discarded only because the code of its fiber had ended or thrown at an earlier step |
| `SchedulerSpec.RootCalledUnless` | fatdog/scheduler.cpp:108-114 | when nobody else moves, stop() calls the root worker unless stopping() holds |
| `SchedulerSpec.FourKinds` | fatdog/scheduler.cpp:157-255 | a step leaves the queue alone, appends one entry, moves the first eligible one to its worker, or settles a held one |
| `SchedulerSpec.BypassNext` | fatdog/scheduler.cpp:163-184 | a pick takes a waiting entry or one ahead of it; nothing else moves it |
| `SchedulerSpec.BoundedBypass` | fatdog/scheduler.h:56-71 | over any run in which the fiber of an unbound entry does not execute while the entry waits, it is taken within as many picks as there are entries ahead of it, and one |
| `SchedulerDrain.Drains` | fatdog/scheduler.cpp:242-278 | when all workers are gone, only entries bound to a thread other than that of the worker that looked last are left; all others were swapped in or discarded, and both counters are zero |
| `SchedulerDrain.DrainsUnbound` | fatdog/scheduler.h:56-71 | a complete run in which nobody binds a job to a thread empties the queue, and every entry was swapped in or discarded |
| `SchedulerDrain.DrainsAlone` | fatdog/scheduler.cpp:242-278 | so does every complete run of a lone worker, whatever is bound |
| `SchedulerDrain.BoundEntryLeftBehind` | fatdog/scheduler.cpp:166-171 | every scheduler with two workers or more, spawned or not, has a complete run that leaves an entry bound to one of them |
| `SchedulerDrain.DrainsIff` | fatdog/scheduler.cpp:157-278 | all complete runs empty the queue exactly if there is one worker or nothing is bound to a thread |
| `SchedulerDrain.StoppingLeaves` | fatdog/scheduler.cpp:260-263 | whenever stopping() holds, a fiber still held has been counted off, and only the step that puts one back fills the queue |
| `SchedulerDrain.StoppingTooEarlyIff` | fatdog/scheduler.cpp:195-199 | after stopping() has held the queue can fill again exactly if some worker is about to put a fiber back |
| `SchedulerDrain.StoppingTooEarly` | fatdog/scheduler.cpp:195-199 | every scheduler can come to that |
| `SchedulerSafe.OneWorkerSafe` | fatdog/scheduler.cpp:207-233 | with one worker no assertion of swapIn, reset or a yield ever fails, and reset overwrites no suspended callback |
| `SchedulerSafe.TwoWorkersClash` | fatdog/fiber.cpp:133-138 | every scheduler with two workers or more has a run in which the assertion in swapIn fails |
| `SchedulerSafe.SafeIff` | fatdog/fiber.cpp:133-208 | so the assertions hold in all runs exactly if there is one worker |
| `SchedulerSafe.DiscourteousCallback` | fatdog/scheduler.cpp:225-228 | with one worker, a callback that hands out its fiber and ends leaves an entry for the fiber that the worker keeps |
| `SchedulerSafe.OwnedIff` | fatdog/scheduler.cpp:153-233 | with one worker, cb_fiber is null, or INIT and out of reach, at each loop head of all runs exactly if callbacks that hand out their fiber then yield |
| `EventSpec.CtlFits` | fatdog/iomanager.cpp:114-120 | the operation asked of epoll_ctl is always one epoll can do |
| `EventSpec.Bookkeeping` | fatdog/iomanager.cpp:93-252 | after every operation of any run the mask is the event bits, the count is the armed events and those cancelAll lost, and the jobs accepted are those armed, those scheduled and those deleted, each as often |
| `EventSpec.AddAborts` | fatdog/iomanager.cpp:106-131 | addEvent fails an assertion exactly for an armed event or a slot that was triggered |
| `EventSpec.ArmAgain` | fatdog/iomanager.cpp:35-50 | after cancelEvent the slot cannot be armed again; after delEvent it can |
| `EventSpec.AddMeans` | fatdog/iomanager.cpp:93-144 | the event bit, the slot, the count and the size of the table afterwards, and that nothing else changes |
| `EventSpec.DelMeans` | fatdog/iomanager.cpp:146-179 | the same for delEvent, which schedules nothing |
| `EventSpec.CancelMeans` | fatdog/iomanager.cpp:181-212 | the same for cancelEvent, whose job is appended to the queue |
| `EventSpec.CancelAllMeans` | fatdog/iomanager.cpp:214-252 | the same for cancelAll: both jobs, READ before WRITE, and the count as it was |
| `EventSpec.CancelAllKeeps` | fatdog/iomanager.cpp:214-252 | cancelAll leaves nothing armed and its assertions hold, but the count stays up |
| `EventSpec.DispatchAborts` | fatdog/iomanager.cpp:356-399 | dispatch fails an assertion exactly when some armed event is reported, or the descriptor hung up, together with one that is not armed, and the kernel agrees |
| `EventSpec.DispatchMeans` | fatdog/iomanager.cpp:356-399 | for each report, hang-up and kernel: when the loop fails an assertion, and otherwise which event bits are left, that the jobs of the armed reported events are appended, READ before WRITE, that the count falls by as many, and that nothing else changes |
| `EventSpec.ExactIff` | fatdog/iomanager.cpp:93-252 | over any run the count is at least the number of armed events, and equal to it exactly if no cancelAll succeeded |
| `EventSpec.ZeroIff` | fatdog/iomanager.cpp:269-273 | the count is zero, as stopping() asks, exactly if nothing is armed and no cancelAll succeeded |
| `EventSpec.NeverStops` | fatdog/iomanager.cpp:214-273 | after a successful cancelAll the count is never zero again, so stopping() never holds |
| `IOManagers.IOManager.ContextResize` | fatdog/iomanager.cpp:281-293 | new contexts behind the old ones, each with its descriptor, or the table cut |
| `IOManagers.IOManager.TriggerEvent` | fatdog/iomanager.cpp:35-50 | the assertion, the event bit, the job pushed to the scheduler's queue, the scheduler cleared |
| `IOManagers.IOManager.AddEvent` | fatdog/iomanager.cpp:93-144 | does what EventSpec.AddEvent says, and keeps the invariant |
| `IOManagers.IOManager.DelEvent` | fatdog/iomanager.cpp:146-179 | the same, for delEvent |
| `IOManagers.IOManager.CancelEvent` | fatdog/iomanager.cpp:181-212 | the same, for cancelEvent, which never fails an assertion; the scheduler's queue gets what was triggered and nothing else |
| `IOManagers.IOManager.CancelAll` | fatdog/iomanager.cpp:214-252 | the same, for cancelAll |
| `IOManagers.IOManager.Dispatch` | fatdog/iomanager.cpp:356-399 | the same, for one turn of the dispatch loop |
| `IOManagers.IOManager.Stopping` | fatdog/iomanager.cpp:269-279 | when it holds nothing is armed, no timer exists, and the scheduler's own stopping() holds |
| `HttpSpec.MethodReadBack` | fatdog/http/http.cpp:20-46 | a printed method is read back whatever follows: no name in the table begins another |
| `HttpSpec.PlainNumbers` | fatdog/http/http.h:17-59 | the numbers of GET, POST and the other plain methods |
| `HttpSpec.DavNumbers` | fatdog/http/http.h:17-59 | those of the WebDAV methods |
| `HttpSpec.OtherNumbers` | fatdog/http/http.h:17-59 | and of the rest |
| `HttpSpec.KeyOrder` | fatdog/http/http.cpp:62-65 | the comparator is a strict weak order that ignores case and nothing else |
| `HttpSpec.SameKeyMeans` | fatdog/http/http.cpp:62-65 | two keys are one exactly if they are equal but for ASCII letters 32 apart |
| `HttpSpec.KeyLessMeans` | fatdog/http/http.cpp:62-65 | one key is less than another exactly by the first place where they differ, letters ranked as small ones |
| `HttpSpec.PutOrdered` | fatdog/http/http.cpp:90-93 | setting a header keeps the map in order |
| `HttpSpec.GetPut` | fatdog/http/http.cpp:72-93 | what was set is found under every spelling; other keys are untouched |
| `HttpSpec.FoundHeaders` | fatdog/http/http.cpp:186-204 | the headers found are those of the request, but for connection, which is close or keep-alive, and, with a body, content-length |
| `HttpSpec.FoundLength` | fatdog/http/http_parser.cpp:131-134 | the length found is that of the body, or without one what the request's own headers say |
| `HttpSpec.LengthUnderAnySpelling` | fatdog/http/http_parser.cpp:131-134 | a decimal content-length is found under any spelling of its key |
| `HttpMachine.RunInside` | fatdog/http/http11_parser.rl.cc:6657-6669 | the assertions about the marks hold after every run, on any input, up to where it leaves the modelled states |
| `HttpRuns.TokensAreKeys` | fatdog/http/http11_parser.rl.cc:376-445 | the machine takes every token of RFC 7230 for a header key |
| `HttpGrammar.TargetChars` | fatdog/http/http11_parser.rl.cc:739-1136 | exactly which characters a path, a query or a fragment takes as they are, and which an escape |
| `HttpGrammar.HeaderChars` | fatdog/http/http11_parser.rl.cc:374-518 | exactly which characters a method, a field name and a field value take |
| `HttpGrammar.Accepted` | fatdog/http/http11_parser.rl.cc:91-6672 | any run, on any input, that comes to the final state has read a head of the grammar, has filled the request which that head says, has set an error exactly if the text begins with no method's name, and leaves what is behind the head |
| `HttpLanguage.MethodRun` | fatdog/http/http11_parser.rl.cc:118-156 | one to twenty capitals or digits and a blank lead to state 3, with the method looked up |
| `HttpLanguage.PathRun` | fatdog/http/http11_parser.rl.cc:900-1002 | a path, with or without a slash in front, is recovered whole, whatever ends it |
| `HttpLanguage.QueryRun` | fatdog/http/http11_parser.rl.cc:1005-1136 | so is a query, empty or not |
| `HttpLanguage.FragmentRun` | fatdog/http/http11_parser.rl.cc:739-868 | and a fragment |
| `HttpLanguage.VersionRun` | fatdog/http/http11_parser.rl.cc:275-352 | and the version, with either end of line |
| `HttpLanguage.FieldRun` | fatdog/http/http11_parser.rl.cc:374-518 | a header line sets its key to its value, blanks before it dropped |
| `HttpLanguage.GrammarAccepted` | fatdog/http/http11_parser.rl.cc:91-6672 | every head of the grammar, with anything behind it, is accepted, and the request is the one the head says |
| `HttpLanguage.AcceptedIff` | fatdog/http/http11_parser.rl.cc:91-6672 | so inside the modelled states the parser accepts exactly the texts that begin with a head of the grammar |
| `HttpRoundTrip.RoundTrip` | fatdog/http/http.cpp:169-206 | parsing dump(r) finishes, recovers method, target, version and headers, and leaves exactly the body |
| `HttpRoundTrip.DumpIsHead` | fatdog/http/http.cpp:169-206 | what dump prints of a well-formed request is a head of the grammar and the body |
| `HttpRoundTrip.Reprinted` | fatdog/http/http.cpp:169-206 | what the parser fills from any accepted text, if the path begins with a slash and no key with CR, is well-formed: printed and parsed again it gives the same request |
| `HttpRoundTrip.MSearchFails` | fatdog/http/http.h:45-46 | M-SEARCH, printed with blanks, does not come back |
| `HttpRoundTrip.BadVersionFails` | fatdog/http/http.cpp:181-185 | nor does any version but 1.0 and 1.1 |
| `HttpRoundTrip.RoundTripIff` | fatdog/http/http11_parser.rl.cc:91-6672 | for the rest well-formed, a request comes back exactly otherwise |
| `Http.HttpRequest.SetHeader` | fatdog/http/http.cpp:90-93 | the map law, on the object |
| `Http.HttpRequest.Dump` | fatdog/http/http.cpp:169-206 | prints the text the round trip is about |
| `Http.HttpRequestParser.Do` | fatdog/http/http_parser.cpp:39-113 | each action does to the object what it does to the machine |
| `Http.HttpRequestParser.HttpParserExecute` | fatdog/http/http11_parser.rl.cc:91-6672 | on any input the loop is the machine's run, up to where it leaves the modelled states, and its closing assertions hold |
| `Http.HttpRequestParser.Execute` | fatdog/http/http_parser.cpp:139-144 | the same, and the bytes left are moved to the front of the buffer |
| `Http.PrintAndParse` | fatdog/http/http_parser.cpp:115-154 | end to end on the objects: finished, no error, everything recovered, the body left, and its length found |
| `LogFormatter.TilesCover` | fatdog/log.cpp:456-547 | the spans are the pattern, in order, nothing skipped or read twice |
| `LogFormatter.TilesUnique` | fatdog/log.cpp:456-547 | there is only one way to cut a pattern |
| `LogFormatter.CopyRun` | fatdog/log.cpp:461-463 | with npos for an end the rest of the pattern is taken |
| `LogFormatter.TrailingTextLost` | fatdog/log.cpp:528-547 | text is scanned but never emitted exactly when it comes last |
| `LogFormatter.ErrorIffBroken` | fatdog/log.cpp:537-546 | an error is recorded exactly when a brace is left open |
| `LogFormatter.OneLetterEach` | fatdog/log.cpp:555-566 | each of the twelve kinds of item has one letter, and each letter one kind |
| `LogFormatter.OneDirective` | fatdog/log.cpp:555-588 | a percent sign and a letter give the item log.cpp lists for the letter, and the error text for any other letter |
| `LogFormatter.SpeltItemsBack` | fatdog/log.cpp:452-592 | every list of items is what init makes of a pattern spelt for it, but for a text at the end |
| `LogFormatter.OpenBraceIsText` | fatdog/log.cpp:537-546 | behind any spelt items a directive whose brace is left open records an error and becomes text, to the end of the pattern |
| `LogFormatter.LogFormatter.ParseDirective` | fatdog/log.cpp:496-526 | the inner loop finds a directive, or an open brace that never closes |
| `LogFormatter.LogFormatter.Turn` | fatdog/log.cpp:458-547 | one turn takes one span, and ++i ends behind it |
| `LogFormatter.LogFormatter.Init` | fatdog/log.cpp:452-592 | it ends on every pattern; the items are those of the spans that cover it; a pattern spelt for a list of items gives that list but for a text at the end; a percent sign and a letter give the kind log.cpp lists |

## Left out

- ucontext switching, stacks, threads, semaphores, thread-local storage and hooked calls: a fiber is a state and an arbitrary outcome.
- Negative results in the stream loops: `size_t len` at fatdog/stream.cpp:12 hides them from the test that follows.
- Sockets, addresses, DNS, TcpServer, HttpServer, servlets, Config, FdManager and the log appenders.
- The HTTP response machine, HttpConnection, and HttpSession's assembly of the body.
- The URI machine, and the request machine's states for targets that begin with a letter or with two slashes, for XML and for JSON.
- A second `execute` on the same parser, which starts from the marks' reset values.
- Request parameters and cookies, which dump does not print.
- writeToFile, readFromFile, toHexString, float and double: thin wrappers or file access.
- The delivery of tickle through its pipe, and epoll timeouts.
- addConditionTimer: it wraps the callback of addTimer.
- `HttpSpec.LexicalCast` gives no result for texts with signs or blanks.
- ByteArrays.ByteArray.Clear: unlinks the further nodes; that they are deleted is not modelled.
- Scheduler: liveness, and the races that its atomic stretches assume away.
- Http.HttpRequestParser.HttpParserExecute: follows the run only up to a transition that leaves the modelled states, and then says so.
- Http.HttpRequestParser.Execute: the same.
- HttpMachine.RunInside: a run ends where it leaves the modelled states.
- Schedulers.Scheduler.Schedule: returns whether tickle would be called; what tickle does is not modelled.
- What idle() hands to schedule for expired timers, and the scheduler steps that run between two operations of IOManager.
