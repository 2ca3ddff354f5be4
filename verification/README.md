# A model of the ADS driver's sum-read engine and connection life cycle

The driver reads all PLC variables of an EPICS IOC at once: variables are dealt into bounded chunks, one
ADS sum-read request (index group 0xF080) fills one buffer per chunk, and record handlers read their
variable's slot of a buffer. A scan thread connects, acquires handles, polls, and tears everything down
again when the device stops answering. The project models that code and proves what it keeps.

| module | models |
|---|---|
| `Types`, `Errors` | integer widths, data types, named ports; ADS return codes and their translation |
| `AddressText` | record addresses as text: printing and parsing |
| `Wire` | request tables, device memory, the reply to a sum-read, the 32-bit copy of a buffer size |
| `Connections` | classes `ADSAddress`, `AdsDevice` (may refuse any request with any code), `Connection` |
| `Variables` | classes `ADSVariable` and `SumReadBuffer` |
| `Packing` | the greedy dealing of variables into chunks, as a function of the list |
| `SumReadRequests` | classes `ReadRequestChunk` and `SumReadRequest` |
| `Readback`, `Digital` | the one-shot value last written, and masked digital writes through it |
| `Lifecycle` | scan thread, record handlers and shutdown as a state machine, one step at a time |
| `Drivers` | class `ADSPortDriver`: scan loop, record handlers, shutdown |

How the parts hang together:

- The classes follow the code method by method; their contracts tie each new state to functions (`Pack`,
  `ReadCell`, `SumReply`, `Step`, ...) about which the lemmas speak.
- `Drivers` carries a ghost state of the `Lifecycle` machine. `InStep` says that it is reachable there and that
  connection, session, tables, handles, buffers and pending values agree with it. Every method of the driver,
  the read and write handlers included, plays its part of a run and ends in step, so the theorems of `Lifecycle`
  over all interleavings are about this driver.
- `live` and `leaked` are ghost counts of handles; `session` numbers the connections opened so far.
- The device keeps ghost logs of what it was asked and answered: `replies` to all requests of the scan thread but
  the releases of handles, `releases`, `writes`, `singles` (reads of one place), and `answers` to sum-reads with the
  memory they were read from. `NoRefusal(was, now)` says that none of the replies in between is a refusal
  (`Connections.NoRefusalMeans`); methods that ask the device succeed if and only if that holds.
- `RunDriver` takes a driver from its constructor through records, `initHook` and the scan thread.

## Findings

Properties one would expect and the code does not have, each with the exact condition under which it has it.

- Masked writes can lose a bit (adsApp/src/ADSPortDriver.cpp:873-883, adsApp/src/epics-ads/Variable.cpp:89-92).
  A partial write reads the current value through the overlay, and reading uses the pending value up. After
  write, read, partial write without a sum-read in between, the second write puts the bits of the first back
  (`Digital.ReadLosesABit`; with a refused write in place of the read, `Digital.RefusedWriteLosesABit`). The scan
  thread itself makes such reads for I/O Intr records. `Digital.LastWinsIffNothingLost` gives the exact condition.
- A value from before a reconnect can reach a record (adsApp/src/ADSPortDriver.cpp:381-404,
  adsApp/src/epics-ads/Variable.cpp:89-92): a disconnect leaves the value last written in place
  (`Lifecycle.UnreadWriteOutlivesSession`). Bytes from the buffers never are; the exact condition is
  `Lifecycle.FreshIffNothingUnread`.
- `resolve_variables` can report failure though everything listed is resolved
  (adsApp/src/epics-ads/Connection.cpp:88-137): when a variable that is not resolved is listed twice and only its
  first attempt fails. `Connections.TellsIffPendingOnce`: only such lists can do that. The driver's own lists name a
  variable once, unless the framework lists an I/O Intr variable twice.
- A sum-read can leave the end of a buffer unfilled and still report success
  (adsApp/src/epics-ads/SumReadRequest.cpp:265-270), if the device accepts the shorter length: the size is copied to
  32 bits. `Wire.ExactIffSizeFits32Bits`: exactly when it needs more. `SumReadRequests.SumReadRequest.ChunkBounded`
  says which lists are safe.
- The size of a variable is not always element size times element count (adsApp/src/epics-ads/Variable.cpp:13-15):
  `Variables.SizeIsExactIff` has the condition, `Variables.SizeWraps` a documented address whose variable has size 0.
- `read_from_buffer` does not return what went wrong in the buffer, but "unhandled"
  (adsApp/src/epics-ads/Variable.cpp:79-82): it translates the driver's own code like one of the device.
  `Errors.TranslationKeeps` says which codes survive. For an allocated variable it does not matter:
  `SumReadRequests.SumReadRequest.LookupFailsIffInvalid`.

- An element count whose `N=` is missing is not noticed: the first character of the word is skipped, whatever it
  is, and the rest is the count (adsApp/src/epics-ads/ADSAddress.cpp:291; `AddressText.NelemWithoutKey`). A port
  number of more than 16 bits is not refused either, but cut (`AddressText.PortByNumber`).

## Model

| member | source | states |
|---|---|---|
| Errors.EpicsCode | adsApp/src/err.cpp:159-167 | a failed ADS call never turns into success; exactly the missing route and the timeout read as a lost connection; no device code turns into the driver's own "not initialized" |
| Errors.TranslationKeeps | adsApp/src/err.cpp:29-36 | the translation in numbers: what each code of the driver stands for; exactly 0, -1 and "unhandled" come out as they went in; the driver's own codes come out as unhandled |
| Types.ElementSizes | adsApp/src/epics-ads/Types.cpp:11-16 | which types have 1, 2, 4 and 8 bytes |
| AddressText.AcceptedAddress | adsApp/src/epics-ads/ADSAddress.cpp:124-169 | an accepted address has enough words, a known type, the operation that its word names, a name, and at least one element, just one unless it is an array or string |
| AddressText.AddressRoundTrip | adsApp/src/ADSPortDriver.cpp:41-61 | any documented address, printed with its port in decimal, in hexadecimal or by a documented name, split at blanks and parsed, gives the same fields back |
| AddressText.PortRoundTrip | adsApp/src/epics-ads/ADSAddress.cpp:348-364 | every 16-bit port comes back, given in decimal, in hexadecimal or by any name that the documentation has for it |
| AddressText.NamedPorts | adsApp/src/epics-ads/Types.cpp:37-44 | a name stands for a port if and only if the documentation says so (documentation/source/reference-manual/index.rst, lines 256-276) |
| AddressText.PortByNumber | adsApp/src/epics-ads/ADSAddress.cpp:348-364 | a port given by number is that number modulo 2^16; more than 63 bits are refused; no number is taken for a name |
| AddressText.NumberRoundTrip | adsApp/src/epics-ads/ADSAddress.cpp:449-455 | a printed number of up to 63 bits comes back as its low 32 bits, in either radix; a longer one is refused |
| AddressText.NelemRoundTrip | adsApp/src/epics-ads/ADSAddress.cpp:287-310 | a count behind `N=` is accepted if and only if it has 32 bits and is not zero |
| AddressText.NelemWithoutKey | adsApp/src/epics-ads/ADSAddress.cpp:287-310 | without `N=` the first character of the word is skipped and the rest is taken for the count |
| AddressText.FunctionRoundTrip | adsApp/src/epics-ads/ADSAddress.cpp:233-249 | scalar, digital and array forms of a type name are told apart and give the type back |
| Wire.BatchedReadRefinesSingleRead | adsApp/src/epics-ads/SumReadBuffer.cpp:111-138 | slot `i` of a sum-read reply, cut out at its result and data offset, is the code and data of reading that place alone |
| Wire.ExactIffSizeFits32Bits | adsApp/src/epics-ads/SumReadRequest.cpp:265-270 | the 32-bit copy of the size fills the buffer for every device memory if and only if the size fits |
| Wire.TruncatedDeliveryLosesBytes | adsApp/src/epics-ads/SumReadRequest.cpp:265-270 | for every larger size some device memory is not delivered in full |
| Connections.ADSAddress.Resolve | adsApp/src/epics-ads/ADSAddress.cpp:171-182 | a resolved address refuses a second handle and keeps the first |
| Connections.ADSAddress.Unresolve | adsApp/src/epics-ads/ADSAddress.cpp:184-197 | a named address drops its handle; a nameless one is refused and unchanged |
| Connections.Connection.Connect | adsApp/src/epics-ads/Connection.cpp:30-53 | asks for the route, then for a port; 0 iff neither is refused: then a new session over that port; failure changes nothing |
| Connections.Connection.Disconnect | adsApp/src/epics-ads/Connection.cpp:55-72 | always ends disconnected; the port is closed, if there was one; reports whether there was |
| Connections.Connection.ReadDeviceInfo | adsApp/src/epics-ads/Connection.cpp:202-248 | without a connection the device is not asked; with one it is asked once, over the open port, and the code is its answer, translated |
| Connections.Connection.AcquireHandle | adsApp/src/epics-ads/Connection.cpp:100-133 | one request for one handle, with the variable's port and name; one more live handle and one more resolved address, or neither |
| Connections.Connection.ResolveVariables | adsApp/src/epics-ads/Connection.cpp:88-137 | keeps live handles one-for-one with resolved addresses and leaked handles; the device is asked once for each address unresolved at its turn, in order, by port and name; the status is the last of its refusals, translated, and 0 iff it refused none; success iff all listed end resolved, when nothing unresolved is listed twice; resolved ones keep their handle |
| Connections.StatusTellsResolution | adsApp/src/epics-ads/Connection.cpp:99-136 | success always means that all listed are resolved; the converse when nothing unresolved is listed twice |
| Connections.TellsIffPendingOnce | adsApp/src/epics-ads/Connection.cpp:99-136 | for every answer of the device status and outcome agree, if and only if no unresolved variable is listed twice |
| Connections.Connection.DropHandle | adsApp/src/epics-ads/Connection.cpp:158-191 | a handle is released only while live, at most once, on its variable's port, and counts as leaked unless the release was acknowledged |
| Connections.Connection.UnresolveVariables | adsApp/src/epics-ads/Connection.cpp:146-200 | whatever the device replies everything listed ends unresolved; the handles of all that were resolved are offered back, each once and in order, until contact is lost; just the acknowledged ones leave the device; 0 iff connected, non-empty and nothing leaked; the code follows from the answers |
| Connections.DueOnce | adsApp/src/epics-ads/Connection.cpp:157-178 | what is to be offered back: the handle of every listed address that was resolved, once |
| Connections.Connection.HandleIsLive | adsApp/src/epics-ads/Connection.cpp:88-200 | the handle of a resolved address is one the device has given out and not taken back |
| Variables.ADSVariable.ReadFromBuffer | adsApp/src/epics-ads/Variable.cpp:47-95 | delivers what the one-place cell over the buffer shows, and consumes a pending value only when it succeeds |
| Variables.ADSVariable.Write | adsApp/src/epics-ads/Variable.cpp:121-163 | exactly one block, the bytes zero-padded to the variable's size, goes to the variable's own place if the name is resolved and the bytes fit, and none otherwise; 0 iff it was sent and acknowledged, and else the refusal, or the answer translated; an acknowledged block is on the device and, with readback, pending |
| Variables.ADSVariable.Read | adsApp/src/epics-ads/Variable.cpp:165-206 | each refusal; else one request for the variable's own place, and its answer translated; success delivers the single read of that place |
| Variables.SizeIsExactIff | adsApp/src/epics-ads/Variable.cpp:13-15 | the size is element size times element count iff that is below 2^32 |
| Variables.SizeWraps | adsApp/src/epics-ads/Variable.cpp:13-15 | an address with 2^29 elements of LREAL parses, its variable has size 0, and a good buffered read delivers no byte |
| Variables.SumReadBuffer.AddVariable | adsApp/src/epics-ads/SumReadBuffer.cpp:71-109 | refused exactly when storage exists or the buffer is full; otherwise the slot continues the layout, and no counter wraps |
| Variables.SumReadBuffer.Bounded | adsApp/src/epics-ads/SumReadBuffer.cpp:27-30 | data passes the soft limit by less than the last variable; size and capacity queries are exact |
| Variables.SumReadBuffer.ReadData | adsApp/src/epics-ads/SumReadBuffer.cpp:111-138 | each error case, and on success the slot's code and bytes |
| Variables.SumReadBuffer.InitializeBuffer | adsApp/src/epics-ads/SumReadBuffer.cpp:140-167 | storage is had iff the supply of memory covers the buffer twice; a failure changes nothing and gives memory back |
| Variables.SumReadBuffer.SaveBuffer | adsApp/src/epics-ads/SumReadBuffer.cpp:169-177 | the previous contents are a full copy, if there is storage |
| Packing.PackIsGreedy | adsApp/src/epics-ads/SumReadRequest.cpp:101-134 | the chunks of a port hold its variables in order; none is empty or overfull, and all but the last are at capacity |
| Packing.GreedyIsPack | adsApp/src/epics-ads/SumReadRequest.cpp:101-134 | no other division into chunks meets these conditions |
| Packing.PortsPartition | adsApp/src/epics-ads/SumReadRequest.cpp:105-118 | every variable goes to its own port as often as it is listed, and to no other |
| Packing.ChunkCount | adsApp/src/epics-ads/SumReadRequest.cpp:120-134 | n variables with less than 1000000 bytes of data make exactly ceil(n / max) chunks |
| Packing.GroupClosed | adsApp/src/epics-ads/SumReadBuffer.cpp:27-30 | a chunk is closed only when it holds max variables or at least 1000000 bytes |
| Packing.SlotsTile | adsApp/src/epics-ads/SumReadBuffer.cpp:98-106 | every data byte lies in exactly one slot |
| Packing.SlotsOrdered | adsApp/src/epics-ads/SumReadBuffer.cpp:98-106 | slots do not overlap and stand in the order of adding |
| Packing.OnePlace | adsApp/src/epics-ads/SumReadRequest.cpp:101-134 | a variable listed once has one chunk and one slot |
| Packing.StorageConserved | adsApp/src/epics-ads/SumReadRequest.cpp:138-151 | dealing variables into ports and chunks does not change the storage they need |
| SumReadRequests.ReadRequestChunk.AddVariable | adsApp/src/epics-ads/SumReadRequest.cpp:38-48 | throws exactly when the buffer refuses; otherwise the variable sits in its slot of this chunk |
| SumReadRequests.ReadRequestChunk.Refill | adsApp/src/epics-ads/SumReadRequest.cpp:258-306 | one request, for the chunk's port; the code is its answer translated; success puts the device's reply, cut to the 32-bit length, into the buffer and makes it Valid, with the previous contents saved; failure leaves buffer and state alone |
| SumReadRequests.ReadRequestChunk.SlotHoldsSingleRead | adsApp/src/epics-ads/Variable.cpp:47-95 | for any one variable of a filled chunk the buffer offers what its single read gives |
| SumReadRequests.SumReadRequest.GetChunks | adsApp/src/epics-ads/SumReadRequest.cpp:77-93 | every chunk once, by port |
| SumReadRequests.SumReadRequest.Insert | adsApp/src/epics-ads/SumReadRequest.cpp:101-134 | one turn of the allocation loop turns the greedy dealing of a list into that of the list with one more |
| SumReadRequests.SumReadRequest.Allocate | adsApp/src/epics-ads/SumReadRequest.cpp:95-160 | succeeds iff the supply of memory covers 2 * (4n + data bytes); then every variable has its slot in a live chunk, chunks dealt greedily; otherwise every variable is left without a position |
| SumReadRequests.SumReadRequest.Deallocate | adsApp/src/epics-ads/SumReadRequest.cpp:162-186 | from a complete or half-done allocation: no chunks left, and no variable points into one |
| SumReadRequests.SameLayout | adsApp/src/epics-ads/SumReadRequest.cpp:95-160 | allocating the same list again makes the same chunks, slot by slot |
| SumReadRequests.SameSlot | adsApp/src/epics-ads/SumReadRequest.cpp:95-160 | and gives a variable listed once the same slot |
| SumReadRequests.SumReadRequest.ChunkBounded | adsApp/src/epics-ads/SumReadRequest.cpp:265-270 | a chunk's data is at most 999999 plus its largest variable, so the 32-bit size is exact when that and the codes fit |
| SumReadRequests.SumReadRequest.ChunkClosed | adsApp/src/epics-ads/SumReadRequest.cpp:120-124 | every chunk but the last of its port holds exactly the maximum of variables, or at least 1000000 data bytes |
| SumReadRequests.SumReadRequest.Initialize | adsApp/src/epics-ads/SumReadRequest.cpp:188-224 | 0 iff every listed variable is resolved, and then row i of every table is group, handle and size of variable i |
| SumReadRequests.SumReadRequest.Deinitialize | adsApp/src/epics-ads/SumReadRequest.cpp:226-240 | every row is blank; buffers and their states are untouched |
| SumReadRequests.SumReadRequest.SetBuffersState | adsApp/src/epics-ads/SumReadRequest.cpp:242-250 | every buffer has the state |
| SumReadRequests.SumReadRequest.Read | adsApp/src/epics-ads/SumReadRequest.cpp:252-310 | one request per chunk, in the order of ports, up to the first refusal; 0 iff the device refuses none: then every buffer is Valid, filled from an answer that the device gave to this chunk's own table during this call, in this session; otherwise every buffer is Invalid; "not initialized" is never answered |
| SumReadRequests.SumReadRequest.BatchedReadIsSingleRead | adsApp/src/epics-ads/SumReadRequest.cpp:252-310 | once all tables are current and all buffers filled, every listed variable, read from its buffer, gives the code and bytes of its single read on the memory its chunk was answered from |
| SumReadRequests.SumReadRequest.LookupFailsIffInvalid | adsApp/src/epics-ads/Variable.cpp:47-82 | for an allocated variable the lookup fails iff its buffer is Invalid, and then as "disconnected" |
| Readback.ReadbackIsOneShot | adsApp/src/epics-ads/Variable.cpp:87-92 | after any run of writes, refreshes and reads, a read fails iff the buffer offers nothing good, and otherwise shows the latest acknowledged write not read since, or the buffer |
| Digital.MaskedWritesCompose | adsApp/src/ADSPortDriver.cpp:863-895 | over runs of masked writes, reads and scans that lose no bit, the last acknowledged write covering a bit wins, for 8, 16 and 32 bits |
| Digital.LastWinsIffNothingLost | adsApp/src/ADSPortDriver.cpp:863-895 | for fixed masks, verdicts, reads and scans, the last covering write wins bit b for every start and all values iff no bad write follows it: an acknowledged partial write past b, b written since the last scan, the pending value used up |
| Digital.AcknowledgedWritesCompose | adsApp/src/ADSPortDriver.cpp:863-895 | with every write acknowledged and no other reads, the last covering write wins every bit |
| Digital.KeepsOthersIffOverlayAgrees | adsApp/src/ADSPortDriver.cpp:873-883 | one masked write leaves the other bits alone iff the overlay showed them as the device held them |
| Digital.OverlayIsTrue | adsApp/src/epics-ads/Variable.cpp:87-92 | a pending value is what the device holds; bits not written since the last scan agree in buffer and device |
| Digital.MaskedBits | adsApp/src/ADSPortDriver.cpp:794 | bit by bit, a masked value is what value and mask share |
| Digital.ByteOrder | adsApp/src/ADSPortDriver.cpp:784-794 | the bytes of a value, low byte first, in numbers for each width |
| Digital.ReadLosesABit | adsApp/src/ADSPortDriver.cpp:873-883 | write, read, partial write: the first write's bit is gone although all were acknowledged |
| Digital.RefusedWriteLosesABit | adsApp/src/ADSPortDriver.cpp:873-883 | the same with a refused partial write in between |
| Lifecycle.SessionFreshness | adsApp/src/ADSPortDriver.cpp:743-768 | in every interleaving, buffer bytes that reach a record were filled over the connection its handler saw |
| Lifecycle.FreshIffNothingUnread | adsApp/src/epics-ads/Variable.cpp:87-92 | in every run, a value handed out is of the session it was asked for in iff no write of the variable acknowledged in an earlier session is still unread |
| Lifecycle.UnreadWriteOutlivesSession | adsApp/src/epics-ads/Variable.cpp:87-92 | a run in which a value of session 1 is handed out in session 2 |
| Lifecycle.OldBuffersStayUsable | adsApp/src/epics-ads/SumReadRequest.cpp:226-240 | buffers of an old session stay usable after a disconnect and into the next connection, so the handlers' guard is needed |
| Lifecycle.AtLoopHead | adsApp/src/ADSPortDriver.cpp:406-442 | at every head of the scan loop connected iff tables are filled; nothing held without a connection unless shutting down |
| Lifecycle.NoStaleRequest | adsApp/src/ADSPortDriver.cpp:508-517 | in every interleaving, a sum-read is sent only while connected, with tables filled and everything resolved |
| Lifecycle.NeverAlreadyConnected | adsApp/src/ADSPortDriver.cpp:315-318 | ADSConnect never takes its early way out |
| Lifecycle.ConnectedMeansFilled | adsApp/src/ADSPortDriver.cpp:361-378 | a connect that reports success leaves every handle held and every buffer filled in the new session |
| Lifecycle.FailedReadInvalidatesAll | adsApp/src/epics-ads/SumReadRequest.cpp:299-302 | a refused sum-read leaves no buffer usable |
| Lifecycle.EndsClean | adsApp/src/ADSPortDriver.cpp:463-470 | a scan thread that has ended is disconnected and deinitialized |
| Lifecycle.LockIsExclusive | adsApp/src/ADSPortDriver.cpp:425-433 | scan thread and handler never hold the lock together |
| Lifecycle.NeverStuck | adsApp/src/ADSPortDriver.cpp:406-471 | the scan thread waits for nothing but a handler that can release the lock |
| Lifecycle.ShutdownEnds | adsApp/src/ADSPortDriver.cpp:248-259 | once exit is called the scan thread ends within a bounded number of its own steps, in every reachable state, allocated or not, whatever the device answers and whatever comes in between |
| Drivers.ADSPortDriver.CreateDeviceVariable | adsApp/src/ADSPortDriver.cpp:68-88 | a new variable joins the list of its operation, at any time, and all invariants stand |
| Drivers.ADSPortDriver.InitHook | adsApp/src/ADSPortDriver.cpp:261-301 | whenever the lock is free: just those I/O Intr records that write get readback and join the reads; buffers are allocated iff memory covers them; once only |
| Drivers.ADSPortDriver.ADSConnect | adsApp/src/ADSPortDriver.cpp:303-379 | past its guards it asks the device, and succeeds iff nothing is refused: then a new session, all variables resolved, tables filled, all buffers of this session; failure: tables blank, and no handle held if left disconnected |
| Drivers.ADSPortDriver.FillTables | adsApp/src/ADSPortDriver.cpp:361-369 | after both lists resolved, initialize cannot fail |
| Drivers.ADSPortDriver.ADSDisconnect | adsApp/src/ADSPortDriver.cpp:381-404 | ends disconnected and deinitialized; unless shutting down no variable keeps a handle, and a handle leaks iff the device refused a release |
| Drivers.ADSPortDriver.TablesAreLive | adsApp/src/epics-ads/SumReadRequest.cpp:214-219 | whenever tables are filled, every row of every table names a handle that is live on the device |
| Drivers.ADSPortDriver.DoSumRead | adsApp/src/ADSPortDriver.cpp:508-517 | 0 iff the device refuses nothing: then it was asked once for each chunk, and every buffer holds what it answered during this call; failure invalidates all and cuts the connection |
| Drivers.ADSPortDriver.ReadADSDevice | adsApp/src/ADSPortDriver.cpp:473-506 | asks the device once; 0 iff that is not refused, and then nothing changes; failure cuts the connection |
| Drivers.ADSPortDriver.AdsScan | adsApp/src/ADSPortDriver.cpp:406-471 | however long it runs, whatever the device answers and with records read and written in between: at loop heads connected iff initialized, buffers fresh, no handle held while disconnected, handles conserved and leaked only by refused releases, in step with a run of the machine. Once allocated, every turn asks the device; as long as it refuses nothing the connection is up after the first turn, with everything resolved and every buffer filled since the start. Finished means disconnected and deinitialized |
| Drivers.ADSPortDriver.Turn | adsApp/src/ADSPortDriver.cpp:412-460 | one turn ends connected iff the device refused nothing it was asked, unless shutdown comes in between; then every buffer holds what the device answered in this turn. A turn that begins disconnected opens a session and resolves everything; one that begins and ends connected sends just the device-information requests, if due, and one sum-read per chunk, and then hands out the value of every I/O Intr variable whose buffer offers a good one, once and in order |
| Drivers.ADSPortDriver.LetOthersRun | adsApp/src/ADSPortDriver.cpp:248-253 | shutdown, or a record's read or write of any variable, between the scan thread's steps keeps every invariant |
| Drivers.ADSPortDriver.PerformIOIntr | adsApp/src/ADSPortDriver.cpp:536-741 | every I/O Intr variable is read once, and handed out, pending value first, exactly if its buffer offers a good value |
| Drivers.ADSPortDriver.Handles | adsApp/src/epics-ads/Connection.cpp:88-200 | live handles are those of resolved variables and leaked ones, one for one; nothing leaks iff every release was acknowledged, and then none is live while disconnected and not shutting down |
| Drivers.ADSPortDriver.RecordSeesDevice | adsApp/src/ADSPortDriver.cpp:743-768 | while connected, a record reads from the buffer the code and bytes of its variable's single read, on a memory from which the device answered, in this session, a table with the variable's row |
| Drivers.ADSPortDriver.ReadRecord | adsApp/src/ADSPortDriver.cpp:743-768 | refused without connection or readback; otherwise what the cell shows, and the machine's log gains just that delivery |
| Drivers.ADSPortDriver.WriteRecord | adsApp/src/ADSPortDriver.cpp:825-842 | sends one zero-padded block to the variable's place, unless the name is unresolved or the bytes are too many, and then none; 0 iff the block was sent and acknowledged; then it is on the device and, with readback, pending |
| Drivers.ADSPortDriver.DigitalRead | adsApp/src/ADSPortDriver.cpp:770-796 | bit by bit, what the cell shows where the mask has a bit, and nothing elsewhere |
| Drivers.ADSPortDriver.DigitalWrite | adsApp/src/ADSPortDriver.cpp:863-895 | does to device and pending value just what the step of the masked-write model does; sends one block, the bytes of the value under a full mask and of the blended value otherwise; 0 iff it was sent and acknowledged; an acknowledged full-mask write puts the value on the device, readback or not |
| Drivers.ADSPortDriver.SumReadIsScan | adsApp/src/epics-ads/SumReadRequest.cpp:252-310 | a good sum-read is the scan step of the masked-write model, on the bytes the device held as it answered |
| Drivers.RunDriver | adsApp/src/ADSPortDriver.cpp:90-259 | from construction through records and initHook to the end of the scan thread: all invariants; reads and I/O Intr records that write are in the sum-read; while running, the connection is up unless the device refused something, and then everything is resolved and read; if every release was acknowledged, live handles are exactly those of resolved variables, and none when disconnected and not shutting down; a finished thread is disconnected and deinitialized |

## Left out

- Beckhoff ADS calls, AMS routes, ports, sockets: a device that may refuse any request with any code. A refused
  request neither hands out nor takes back a handle. Values of Beckhoff's own constants are taken as known; its
  headers are not part of this model.
- Read and write locks of buffers, and torn reads: a buffer is filled in one step, for `SumReadRequest::read` does
  not take the write lock.
- A write that runs while the connection is torn down without the lock: writes are steps of their own.
- Variables.ADSVariable.ReadFromBuffer: a caller whose memory is smaller than a pending value; the source then writes
  past its end.
- Variables.SumReadBuffer.ReadData: offsets so large that offset and size wrap; no position the driver gives has one.
- Digital.MaskedWritesCompose: a refused write is taken not to have reached the device; one that timed out after it
  was applied is not covered, and neither are other writers to the device.
- Digital.LastWinsIffNothingLost: the same.
- Drivers.ADSPortDriver.DigitalWrite: when the read inside a partial write fails, the source uses an undefined
  value; then only the refusal of unresolved variables is stated.
- Drivers.ADSPortDriver.PerformIOIntr: every variable is read with memory of its own size; the type switch, the
  callbacks, array hashes, and the 64-bit read of DWORD and UDINT scalars are not modelled. The set of I/O Intr
  variables is that of `initHook`.
- Drivers.ADSPortDriver.AdsScan: the loop is bounded by a number of turns, for any number; sleeps and the clock are
  not modelled, and whether device information is due is decided freely. Other threads come in where it does not hold
  the lock and between its calls; handlers in the middle of a sum-read or a disconnect are in `Lifecycle`.
- Drivers.ADSPortDriver.ReadRecord: asks for memory of at least the variable's size if it has readback, for the same
  reason, as do `DigitalRead` and `DigitalWrite`; the check of an array record's capacity before the read is left out.
- Connections.Connection.ResolveVariables: takes the variables' addresses rather than the variables.
- Connections.Connection.ReadDeviceInfo: name, version and state of the device are dropped, only the code counts.
- `std::map` of chunks by port: a map visited in ascending order of port.
- `std::bad_alloc` inside containers, and a `size_t` of 32 bits.
- The single-string `ADSAddress` constructor; missing arguments, which the source reads past the end of its list.
- Handler registration, conversions of floats, arrays and strings, `get_read_data`, reports, logging, iocsh commands.
- `resolve_variable` and `unresolve_variable` for one variable, and a configurable soft limit: the driver uses neither.
