# AxiomVM in Dafny

AxiomVM runs commands for an agent inside a micro virtual machine. A guest daemon, process 1 of
the machine, is written in C++; the host side is a Python SDK. This project models the algorithms
of both sides that hold state or cross the boundary between them, and proves what each of them
promises on every input or every run.

| files | what they model |
|---|---|
| `Bytes`, `Wire`, `Messages`, `FixedVector`, `Search`, `Decimal` | little-endian integers, frame headers, request payloads, the fixed-capacity vector, first occurrences in text, decimal numbers |
| `Framing`, `Sessions`, `Server` | one connection's byte stream against a pure parser of the concatenated stream; a run as its events tell it; the connection table with its buffers updated in place |
| `Crc64`, `Snapshot` | the table-driven checksum against the bit-serial one, what it detects, and path rewriting inside sealed snapshots |
| `JsonScan`, `AxTree`, `AxTreeLaws`, `AxFields`, `AxNodes`, `AxLists`, `AxRefused`, `AxLines` | the brace, quote and escape scanner against a JSON grammar; filtering, handles and printing of the accessibility tree; field lookup by text search in printed nodes and lists of nodes; reading the printed tree back |
| `RingBuffer`, `Ansi`, `Exec` | the output path of a command: circular buffer, escape-sequence filter, response |
| `Diff`, `DiffText`, `HostSync`, `HostRun`, `HostPaths` | the printed file diff, its reading back, its parsing and replay on the host; a whole run from the command to the host's directories; where the replay writes |
| `FileTransfer` | chunked file reads and writes: message layouts, guest handlers, client loops |
| `Ast`, `AstPaths`, `AstPatch` | bounded symbol collection over an abstract syntax tree, and what it collects by the paths from the root; finding, slicing and patching symbols |

Code that the program updates in place is modelled by classes and methods over arrays and
fields; each such method is proved against a function of the old state, and the theorems are about
those functions. What the operating system, the network and the parser answer comes in as
parameters: the outcome of each `read`, `accept4`, `epoll_ctl` and `write`, the descriptors that
`accept4` returns (only assumed not to be open already), the reads of a pipe, how the reads of a
connection cut what was sent, how each request for a file fares (the open fails, the size is not
found out, the read fails, or it returns some number of bytes), and the syntax tree (assumed to be
ordered and nested, with rows that count newlines).

Where the code does not meet a promise on all inputs, the exact condition is proved:

- The receive path does not depend on how a stream is cut into reads if and only if no frame longer
  than 61441 bytes has more than 65536 bytes of the stream at and behind its start
  (`Framing.ChunkIndependence`). Two requests sent without waiting, the first with a payload of 65524
  bytes, are such a stream (`Framing.PipelinedRequestsCanBeLost`).
- `read_file_all` returns the whole file if and only if its size is below 4 GiB, no request that the
  file takes fails, and its size was found out if it takes more than one (`FileTransfer.WholeFile`).
  Otherwise it returns a proper beginning of the file without an error, or an error if the first
  request failed. A file of 1 MiB whose second request fails loses three quarters
  (`FileTransfer.SecondRequestFails`).
- After a diff replay every host file is as before or as after the command if and only if every
  replayed addition and modification is refused at once, arrives whole, or is of a file that began with
  what it was before and the transfer stops there (`HostSync.NoThirdState`; for the synchronization as it
  runs, `HostRun.SyncAfterCommand`). A changed file of 1 MiB whose second request fails ends up truncated
  (`HostSync.TruncatedFile`, `HostRun.TruncatedRun`).
- A relative path stays inside the mount's directory on the host, at every step, if and only if no
  beginning of it has more ".." than names (`HostPaths.WalkStaysInside`); "../../x" does not
  (`HostPaths.UpAndOut`), every path that a directory scan records does (`HostPaths.ScannedStaysInside`).
- `write_file_all` does not look at the status of its only request when the content is empty. What it
  reports then is true if and only if the guest could open the file or the file was already there and
  empty (`FileTransfer.EmptyWrite`); a refused open is reported as written
  (`FileTransfer.RefusedOpenIsReportedAsWritten`).
- The host recovers the lines of a diff if and only if no path in it is empty or has white space
  (`HostSync.PathSurvives`); a path with a space names another file (`HostSync.SpaceCutsPath`).
- Rewriting a snapshot path back restores the snapshot if and only if the new path does not occur,
  with its length in front, before the place of the rewrite (`Snapshot.RewriteBack`,
  `Snapshot.RewriteBackHitsAnother`).
- A filtered response of a truncated output is the end of the filtered output if and only if the cut
  falls between escape sequences (`Exec.FilteredResponse`, `Exec.CutBehindEscape`).
- A node with a role, printed as an object, and a value of its own gets its own value if and only if it
  is printed before the role or the two are the same string (`AxNodes.ValueIsOwn`): behind the role, the
  text search for `"value"` finds the one inside the role (`AxNodes.OwnValueLost`).
- Every handle that resolves belongs to a listed node if and only if the object that the full node list
  refused, if there is one, is not actionable, had no handle left or has backend id 0
  (`AxTreeLaws.ClicksAreExact`). Behind 256 headings, a refused button is hit by a click on handle 1
  (`AxRefused.ClickOnRefused`).
- A recorded method answers to its qualified name if and only if that has at most 95 characters, and then to the
  spelling with a dot if and only if its scope does not end in an odd number of colons
  (`AstPatch.MethodAnswers`).

## Model

| member | source | states |
|---|---|---|
| Framing.ChunkIndependence | include/axiom/server.hpp:213-281 | with successful writes, every cut of a byte stream into reads of 1 to 4096 bytes dispatches exactly the frames of the pure parse, with the unconsumed suffix in the buffer or the connection dropped at the same bad header, if and only if no frame longer than 61441 bytes has more than a buffer's worth of bytes at and behind its start |
| Framing.UnsafeStreamLosesFrames | include/axiom/server.hpp:222-231 | for every stream outside that condition, a cut into legal reads that overflows the buffer, drops the connection and loses frames |
| Framing.PipelinedRequestsCanBeLost | include/axiom/server.hpp:222-231 | two host requests, the first with a 65524-byte payload: some legal reads close the connection and lose frames |
| Framing.ShortFramesAreSafe | include/axiom/server.hpp:259-268 | the condition covers every stream whose frames before the first bad header are at most 61441 bytes long |
| Framing.FeedAllIsParse | include/axiom/server.hpp:221-281 | the forward half for a connection that already holds an unfinished frame |
| Framing.DispatchedIsPrefixOfParse | include/axiom/server.hpp:249-281 | with no assumption on lengths, reads or writes: the dispatched frames are a prefix of the pure parse, and all of it, with the suffix in the buffer, while the connection is open |
| Framing.ClosedStaysClosed | include/axiom/server.hpp:213-219 | a closed connection dispatches nothing more, whatever arrives |
| Framing.DrainIsParse | include/axiom/server.hpp:249-281 | without write failures the frame loop is the pure parser |
| Framing.DrainIsPrefix | include/axiom/server.hpp:249-281 | with write failures the frame loop stops inside the parse |
| Framing.ParseAppend | include/axiom/server.hpp:249-281 | parsing may be split at any byte: the parse of the first part, then of its rest with the second |
| Framing.NextMonotone | include/axiom/server.hpp:250-268 | the verdict on the front of a stream does not change when more bytes arrive |
| Framing.HostFramesArrive | host/axiom/wire.py:44-47 | whatever requests of safe length the host encodes and sends, the guest dispatches exactly those, in order, and ends with an empty buffer, however the reads cut the stream |
| Framing.LoneRequestArrives | include/axiom/server.hpp:258-263 | a request sent alone arrives, under every cut, exactly when its frame fits the 65536-byte buffer; otherwise the connection is dropped |
| Framing.ParseSendAll | host/axiom/wire.py:44-61 | parsing inverts encoding for every list of requests |
| Wire.HeaderRoundTrip | include/axiom/wire.hpp:49-75 | decoding an encoded header, whatever follows it, gives the header back |
| Wire.DecodeHeaderPrefix | host/axiom/wire.py:50-61 | a header is decoded from its first twelve bytes alone |
| Wire.HeaderAccepted | include/axiom/wire.hpp:48-59 | a header is accepted if and only if it has twelve bytes and begins with 55 AA; too few bytes and a wrong magic are told apart |
| Messages.PingAnswered | include/axiom/server.hpp:315-369 | a ping is always answered, and no opcode but the eight with a handler ever is |
| Messages.ExecAnswered | include/axiom/server.hpp:372-388 | a payload that is a host's exec request cut short, or with bytes behind it, is answered if and only if the request is there in full |
| Messages.SymbolsAnswered | include/axiom/server.hpp:519-533 | the same for a symbols request |
| Messages.SliceAnswered | include/axiom/server.hpp:601-616 | the same for a slice request |
| Messages.PatchAnswered | include/axiom/server.hpp:681-697 | the same for a patch request |
| Messages.CdpAnswered | include/axiom/server.hpp:763-778 | the same for a browser request |
| Server.ApplianceServer.Run | include/axiom/server.hpp:79-105 | a run handles exactly the events of the answers before the first failed wait, or up to and with the answer that stopped it, in order; afterwards, and after every event, a descriptor is live if and only if it was admitted and no hangup, failed read, overflow, bad header or failed response has come since, its stream is all bytes that its events have brought since, its log the parse of that, the number of dispatched frames and the running flag are those that the events tell, and live, open and registered client descriptors are the same; a stopped run cleans up once and leaves nothing open; a failed wait returns without cleaning up, and as the first answer it changes nothing |
| Server.ApplianceServer.Serve | include/axiom/server.hpp:82-101 | the same for the event loop without its cleanup |
| Server.ApplianceServer.HandleEvent | include/axiom/server.hpp:92-99 | one event of any kind is added to the trace, and the state is again the one that the trace tells |
| Server.ApplianceServer.HandleIncoming | include/axiom/server.hpp:169-190 | a connection request admits a descriptor that is not live if and only if it was accepted, could be registered and fewer than four connections live; it then lives with nothing received |
| Server.ApplianceServer.HandleClient | include/axiom/server.hpp:213-246 | an event of a live descriptor adds its bytes to its stream or ends the connection, as the trace tells; any other descriptor's event changes nothing |
| Sessions.ClientStory | include/axiom/server.hpp:213-281 | the step of the buffered machine ends a connection exactly on a hangup, a failed read, an overflow, a bad header or a failed response, and dispatches the newly completed frames up to the first failed response |
| Sessions.IncomingStory | include/axiom/server.hpp:169-190 | admitting a descriptor changes the live connections by exactly that one |
| Sessions.EndedStaysEnded | include/axiom/server.hpp:221-245 | behind a hangup, a failed read or an overflow, a descriptor is not live until it is admitted again, whatever else happens |
| Sessions.AdmittedLives | include/axiom/server.hpp:169-190 | an admitted descriptor lives, with nothing received, while no event comes for it |
| Server.ApplianceServer.HandleClientEvent | include/axiom/server.hpp:213-246 | an event on a live connection makes exactly the step of the buffered machine (frames, buffer, dispatch count, shutdown, hangup), keeps its log faithful and leaves all other connections untouched; an event on a descriptor that is not live changes nothing |
| Server.ApplianceServer.ClientStep | include/axiom/server.hpp:221-245 | the same for the connection itself: overflow, bad frames, failed reads, hangup and failed writes all deregister and close it exactly once |
| Server.ApplianceServer.ProcessClientFrames | include/axiom/server.hpp:249-281 | the in-place loop, with wrapped `size_t` arithmetic and `memmove`, terminates and refines the recursive frame loop, and drops the slot exactly when that does |
| Server.ApplianceServer.Consume | include/axiom/server.hpp:272-279 | shifting a consumed frame out leaves the rest of the buffer in order; after a dispatch that closed the slot, the difference wraps modulo 2^64 and the empty buffer stays empty |
| Server.ApplianceServer.TakeFront | include/axiom/server.hpp:270-279 | dispatching and consuming the front frame keeps the final outcome of the loop and shrinks the buffer |
| Server.ApplianceServer.ProcessFront | include/axiom/server.hpp:250-279 | one round of the loop, bad header, over-long frame and unfinished frame included, keeps the final outcome |
| Server.ApplianceServer.DispatchFrame | include/axiom/server.hpp:315-369 | a dispatch logs the frame at the front, stops the server on a shutdown frame and closes the slot exactly when an answered frame's response cannot be written |
| Server.ApplianceServer.Receive | include/axiom/server.hpp:224-231 | a chunk is appended byte by byte; it overflows exactly when it exceeds the room left, and then drops the connection |
| Server.ApplianceServer.HandleAccept | include/axiom/server.hpp:169-190 | a connection is admitted exactly when it was accepted, a slot is free and it could be registered; otherwise its descriptor is closed; live connections are not touched |
| Server.ApplianceServer.Admit | include/axiom/server.hpp:184-189 | a failed registration leaves neither an open descriptor nor a live slot |
| Server.ApplianceServer.FindFreeSlot | include/axiom/server.hpp:193-200 | finds a free slot exactly when there is one |
| Server.ApplianceServer.FindSlotByFd | include/axiom/server.hpp:203-210 | finds the slot of a descriptor exactly when there is one |
| Server.ApplianceServer.AtMostFourLive | include/axiom/server.hpp:30-46 | in every valid state at most four connections are live |
| Server.ApplianceServer.Drop | include/axiom/server.hpp:253-254 | dropping a connection deregisters and closes its descriptor and no other |
| Server.ApplianceServer.Cleanup | include/axiom/server.hpp:1070-1078 | no connection stays live, open or registered |
| Server.ClientSlot.Append | include/axiom/server.hpp:225-231 | byte-wise appending is concatenation up to the capacity |
| Server.ClientSlot.Reset | include/axiom/server.hpp:39-45 | a reset slot is free, its buffer empty and its descriptor closed |
| Server.EventIsFaithful | include/axiom/server.hpp:213-281 | every event extends a faithful log to a faithful log of the longer stream, or closes the connection with a prefix of the parse, which with successful writes and a safe stream is all of it |
| FixedVectors.FixedVector.PushBack | include/axiom/fixed_vector.hpp:26-32 | appends exactly when there is room |
| FixedVectors.FixedVector.PopBack | include/axiom/fixed_vector.hpp:44-50 | removes the last element exactly when there is one |
| Crc64.FcCrc64 | host/axiom/snapshot.py:37-43 | for every byte string and start value, the table-driven checksum equals eight bit-serial reflected steps a byte with polynomial 0x95AC9329AC4BC9B5 |
| Crc64.ComputeCrc64Entry | host/axiom/snapshot.py:25-34 | the loop over the basis constants computes the table entry |
| Crc64.BasisIsSteps | host/axiom/snapshot.py:13-22 | each basis constant is the register after feeding its one bit, so that all eight follow from the polynomial |
| Crc64.EntryIsAbsorb | host/axiom/snapshot.py:25-30 | a table entry is the register after feeding the eight bits of its index |
| Crc64.LookupIsSteps | host/axiom/snapshot.py:41-42 | one table lookup is eight bit-serial steps |
| Crc64.AbsorbLinear | host/axiom/snapshot.py:37-43 | the register is linear: two runs differ by the run of the difference |
| Crc64.ZerosKeepDifference | host/axiom/snapshot.py:37-43 | equal continuations keep different registers different |
| Crc64.BurstDetected | host/axiom/snapshot.py:37-43 | two bit strings that differ only inside at most 64 consecutive bits end in different registers |
| Crc64.BurstChangesChecksum | host/axiom/snapshot.py:37-43 | two messages of equal length that differ only inside 64 consecutive bits, at any alignment, have different checksums |
| Crc64.WindowChangesChecksum | host/axiom/snapshot.py:37-43 | a change inside eight consecutive bytes always changes the checksum |
| Snapshot.UpdateSnapshotState | host/axiom/snapshot.py:57-67 | fails exactly on too short snapshots and on paths that do not occur; otherwise the result validates (its checksum, seal included, is 0), its payload is the rewritten payload and its length grew by the sum of new minus old path lengths |
| Snapshot.TailValidates | host/axiom/snapshot.py:66-67 | the checksum over a payload and eight more bytes is 0 if and only if those bytes are the little-endian checksum of the payload |
| Snapshot.SealIsUnique | host/axiom/snapshot.py:66-67 | one payload has one valid seal |
| Snapshot.DamageIsSeen | host/axiom/snapshot.py:33-43 | damage confined to eight consecutive bytes, seal included, makes a valid snapshot invalid |
| Snapshot.RewriteIsSplice | host/axiom/snapshot.py:46-54 | a rewrite succeeds exactly when the old path occurs with its length in front; it replaces the first occurrence and keeps every other byte |
| Snapshot.NeedleHoldsLength | host/axiom/snapshot.py:50-51 | the eight bytes in front of a written path read back as the number of its bytes |
| Snapshot.UnpackedOfPacked | host/axiom/snapshot.py:50-51 | little-endian packing of any number below 256 to the k reads back |
| Snapshot.RewriteBack | host/axiom/snapshot.py:46-54 | rewriting back restores the snapshot if and only if the new path does not occur earlier in the result |
| Snapshot.RewriteBackHitsAnother | host/axiom/snapshot.py:52-54 | path "b" in front of path "a": rewriting "a" to "b" and back exchanges the two |
| Snapshot.RewriteAllGrows | host/axiom/snapshot.py:64-65 | a list of rewrites lengthens the payload by the sum of the path differences |
| JsonScan.SlicingIsExact | include/axiom/cdp.hpp:230-277 | for every list of JSON objects printed per RFC 8259, with any spacing and any strings (escaped quotes, backslashes, braces), the scanner cuts out exactly the printed objects in order and stops at the closing bracket |
| JsonScan.SlicesObject | include/axiom/cdp.hpp:242-277 | one printed object is cut out whole, whatever follows it |
| JsonScan.PassesJson | include/axiom/cdp.hpp:246-275 | no value inside an object ends the object or changes the scanner's depth, quote or escape state |
| AxTree.ScanObject | include/axiom/cdp.hpp:242-275 | on any text the scanning loop terminates and takes the specified slice; the depth never underflows |
| AxTree.FilterNext | include/axiom/cdp.hpp:235-277 | one round of the outer loop moves forward and keeps the final result |
| AxTree.FilterAndFormat | include/axiom/cdp.hpp:210-385 | on any text the filter terminates and fills its node list, handle map and text buffer as the specification says, errors included; what the specified text says is the matter of AxLines.FilteredIsRead |
| AxTree.AddObject | include/axiom/cdp.hpp:279-384 | one object is skipped, refused, or stored, given a handle and printed; what its line says is the matter of AxLines.NodeIsRead |
| AxLines.FilterAndRead | include/axiom/cdp.hpp:345-378 | reading the lines of the output buffer back gives, for every listed node in order, the handle, role, name, value and description of a control, the level and name of a heading, or the name of a text, when the lines fit and no string has a quote or a line feed |
| AxLines.FilteredIsRead | include/axiom/cdp.hpp:345-378 | the same for the specified text |
| AxLines.TreeIsRead | include/axiom/cdp.hpp:345-378 | the same for any list of nodes |
| AxLines.NodeIsRead | include/axiom/cdp.hpp:345-378 | one node's pieces are one whole line that says this, or nothing when there is nothing to say |
| AxTree.Examine | include/axiom/cdp.hpp:279-329 | which objects are left out and which node an object makes |
| AxTree.FindRepeat | include/axiom/cdp.hpp:298-304 | reports exactly whether a text repeats the name or value of an earlier node |
| AxTree.ExtractFieldStr | include/axiom/cdp.hpp:63-123 | the text search for a string field: first occurrence, entered object value, escape-aware closing quote |
| AxTree.ExtractFieldInt | include/axiom/cdp.hpp:126-163 | the text search for an integer field, with its error values |
| AxTree.ExtractFieldBool | include/axiom/cdp.hpp:166-185 | the text search for a boolean field |
| AxTree.AppendToBuf | include/axiom/cdp.hpp:188-196 | a string is appended whole or not at all |
| AxFields.FieldStrOfPrinted | include/axiom/cdp.hpp:63-123 | a printed string field comes back as it was printed, whatever its string contains, when its name's first occurrence is the field |
| AxFields.FieldStrOfObject | include/axiom/cdp.hpp:82-96 | a field whose value is an object comes back as the string behind the first `"value"` in it |
| AxFields.StringEndIs | include/axiom/cdp.hpp:102-120 | the closing quote of any printed JSON string is found |
| AxFields.FieldIntOfPrinted | include/axiom/cdp.hpp:126-163 | a printed number comes back, negative ones included, if int32_t can hold it, and as 0 otherwise |
| AxFields.FieldIntOfObject | include/axiom/cdp.hpp:144-155 | so does a number behind the first `"value"` of an object |
| AxFields.FieldBoolOfPrinted | include/axiom/cdp.hpp:166-185 | a printed boolean comes back |
| AxFields.ValueIsRole | include/axiom/cdp.hpp:289-289 | when the first `"value"` is the one inside the role object, the node's value is its role |
| AxNodes.ValueIsOwn | include/axiom/cdp.hpp:283-289 | for a node printed with a role object and a value of its own, in either order and among other members: the stored value is its own if and only if it is printed first or equals the role |
| AxNodes.RoleFirst | include/axiom/cdp.hpp:283-289 | a role printed first as an object gives the node both its role and its value |
| AxNodes.OwnValueLost | include/axiom/cdp.hpp:283-289 | the node {"role":{"value":"a"},"value":"b"} gets the value "a" |
| AxNodes.FieldOf | include/axiom/cdp.hpp:63-123 | the first member of a name in a printed object, by itself or boxed, gives the field |
| AxNodes.Located | include/axiom/cdp.hpp:65-96 | in a printed object the search finds a member that nothing in front of it names, and where its value starts and ends |
| AxLists.NodeShown | include/axiom/cdp.hpp:279-329 | the filter makes exactly the node that a printed object shows |
| AxLists.TreeOfPrintedNodes | include/axiom/cdp.hpp:210-385 | the tree of a printed list of nodes is the tree of those nodes: roles, names, backend ids and marks are recovered from the text |
| AxLists.RoleOnlyShows | include/axiom/cdp.hpp:279-329 | the object {"role":{"value":"a"}} shows the node with role and value "a" and no other field |
| AxRefused.ClickOnRefused | include/axiom/cdp.hpp:331-342 | on the text {"nodes":[...]} of 256 headings {"role":"heading","name":"h"} and the button {"role":"button","backendDOMNodeId":5}, the filter lists no node with handle 1, but a click on handle 1 hits backend node 5 |
| AxRefused.HeadingShows | include/axiom/cdp.hpp:279-329 | the object {"role":"heading","name":"h"} shows a heading of level 1 with that name and no other field |
| AxRefused.ButtonShows | include/axiom/cdp.hpp:279-329 | the object {"role":"button","backendDOMNodeId":5} shows an actionable node with that backend id and no other field |
| AxTreeLaws.FilterIsLawful | include/axiom/cdp.hpp:210-385 | on any input text: non-zero handles are 1, 2, ..., k in node order, each on an actionable node and mapped to that node's backend id; an actionable node has handle 0 only when handles are used up; entry 0 of the map and the entries above k, or above k + 1 once a node was refused, are 0; no StaticText node is empty or repeats an earlier name or value; a text that fits is the nodes' lines in order |
| AxTreeLaws.StepKeepsHandles | include/axiom/cdp.hpp:331-342 | every object keeps the handle law |
| AxTreeLaws.StepKeepsTexts | include/axiom/cdp.hpp:294-308 | every object keeps the law of new texts |
| AxTreeLaws.StepKeepsText | include/axiom/cdp.hpp:344-384 | every object keeps the law of the printed text |
| AxTreeLaws.ClicksHitTheirNodes | include/axiom/cdp.hpp:650-657 | every printed handle with a backend id resolves to its own node, and, unless nodes were refused, every handle that resolves belongs to a listed node |
| AxTreeLaws.ClicksAreExact | include/axiom/cdp.hpp:331-342 | on any text: every handle that resolves belongs to a listed node with that backend id, if and only if the first object refused behind 256 listed nodes is absent, is not actionable, had no handle left, or has backend id 0 |
| AxTreeLaws.FullHasRefused | include/axiom/cdp.hpp:340-342 | the filtering ends early only at an object that is not left out and finds the node list full |
| AxTreeLaws.TreeOfPrintedList | include/axiom/cdp.hpp:220-277 | the tree of a printed list of objects behind the first `"nodes"` is made from exactly those objects in order |
| RingBuffers.RingBuffer.PushByte | include/axiom/ring_buffer.hpp:74-83 | the stored bytes, read from the head around the end, are always the last bytes written, in order |
| RingBuffers.RingBuffer.Write | include/axiom/ring_buffer.hpp:19-24 | a write appends all its bytes to the history; the stored bytes are the last ones of what was stored before and the data |
| RingBuffers.RingBuffer.Linearize | include/axiom/ring_buffer.hpp:27-33 | copies the last min(total, capacity) bytes in order, or as many of the oldest of them as fit |
| RingBuffers.RingBuffer.Accounting | include/axiom/ring_buffer.hpp:50-57 | stored plus dropped bytes are the bytes written; truncated exactly when more was written than the capacity |
| Ansi.AnsiFilter.ProcessByte | include/axiom/ansi.hpp:54-139 | one byte makes the transition of the seven-state machine and goes out exactly when it is visible text and there is room |
| Ansi.AnsiFilter.Filter | include/axiom/ansi.hpp:28-35 | the output is as much of the filtered input as fits; the state carried on does not depend on the room |
| Ansi.StripUndoesRender | include/axiom/ansi.hpp:54-139 | for every list of text, controls, CSI sequences, OSC strings ended by BEL or ST, two-byte and one-intermediate escapes (sections 5.4 and 5.6 of ECMA-48), filtering the rendered bytes gives exactly the text and ends in Ground |
| Ansi.Incremental | include/axiom/ansi.hpp:28-35 | filtering a concatenation is filtering the parts with the carried state |
| Ansi.ThroughOnlyDeletes | include/axiom/ansi.hpp:54-69 | the output is a subsequence of the input with nothing but newline, tab and bytes from 0x20 on |
| Ansi.StripFixpoint | include/axiom/ansi.hpp:143-148 | a byte string is left as it is if and only if all of it is visible |
| Ansi.StripIdempotent | include/axiom/ansi.hpp:143-148 | stripping twice is stripping once |
| Ansi.CleanCut | include/axiom/ansi.hpp:54-139 | a beginning can be dropped harmlessly for every continuation if and only if it ends in Ground |
| Exec.ProcessRunner.Run | include/axiom/process.hpp:116-213 | whatever reads the pipe is drained in, the response holds the last 65536 bytes, filtered on request, and the server's destination cuts nothing off; TRUNCATED is set exactly when more was written; the diff buffer holds the lines of the diff that fit; exit code, timeout and cycles are the child's; failures to start or wait are reported |
| Exec.ProcessRunner.Collect | include/axiom/process.hpp:259-270 | the drains of all events together append the whole output |
| Exec.ProcessRunner.DrainPipe | include/axiom/process.hpp:259-270 | draining appends exactly the bytes read |
| Exec.ProcessRunner.Assemble | include/axiom/process.hpp:196-203 | the assembled output is the response of the history, cut to the destination |
| Exec.FilteredResponse | include/axiom/process.hpp:196-203 | an untruncated response is the filtered output; a truncated one is its end, for all kept bytes, if and only if the cut falls between escape sequences |
| Exec.CutBehindEscape | include/axiom/process.hpp:196-203 | a cut right behind an escape character: visible text that the sequence would have taken comes back |
| Exec.TextComesBack | include/axiom/process.hpp:196-203 | terminal output that fits the ring comes back as exactly its text |
| Exec.TextOfTail | include/axiom/process.hpp:192-203 | of a longer output whose oldest kept byte starts a token, exactly the text of the kept tokens comes back |
| Diff.ComputeDiff | include/axiom/diff.hpp:146-209 | for any destination, the text is the whole lines that fitted, in order: first additions and modifications, then removals |
| DiffText.TextIsTrue | include/axiom/diff.hpp:154-206 | reading the printed text back, actions, paths and sizes, gives exactly the lines that fitted; for unique clean paths every line read is true of the snapshots, old and new size included, and with room every true line is read |
| DiffText.ReadPrinted | include/axiom/diff.hpp:168-203 | any printed list of lines with clean paths is read back whole, sizes included |
| DiffText.ComputeAndRead | include/axiom/diff.hpp:146-209 | the same for the buffer that the diff is computed into |
| Diff.DiffLinesAreTrue | include/axiom/diff.hpp:154-206 | for snapshots with unique paths, a line is in the diff if and only if what it says is true of the two snapshots |
| Diff.LinesInOrder | include/axiom/diff.hpp:154-206 | first come the additions and modifications in the order of the second snapshot, then the removals in the order of the first |
| Diff.KeptIsSelection | include/axiom/diff.hpp:171-173 | a bounded destination takes a selection of the lines, and all of them when together they are shorter than it |
| Diff.Snprintf | include/axiom/diff.hpp:168-173 | bounded printing: as much of the text as leaves room for a terminator is stored, then the terminator, the rest stays, and the full length is returned |
| Diff.DiffLinesApart | include/axiom/diff.hpp:154-206 | a diff has at most one line for a path |
| HostSync.Host.SyncMountsFromGuest | host/axiom/vm.py:484-514 | every mount's directory becomes the replay of all parsed facts on it, with contents as `read_file_all` returns them for the paths of the facts, and the number returned is that of the facts carried out |
| HostSync.NoThirdState | host/axiom/vm.py:498-513 | for any diff buffer and any fate of the reads: each host file is as before or as after the command, if and only if every replayed addition and modification is refused at once, arrives whole (below 4 GiB, no failing request), or is of a file that began with what it was before, and the transfer stops at that length |
| HostSync.DiffReplay | host/axiom/vm.py:489-513 | when all lines fit, the host directory mirrors the guest's files after the command, if and only if every addition and modification arrives whole or is refused and did not change, assuming equal size and time stamps mean equal content |
| HostSync.TruncatedFile | host/axiom/vm.py:505-509 | a changed file of 1 MiB whose second request fails leaves its first quarter on the host |
| HostRun.SyncAfterCommand | host/axiom/vm.py:484-514 | a command changed the guest's files, its diff went into a buffer of any size, and the host replayed the text: every mount's directory then has each file as before or as after the command exactly under the condition of NoThirdState, mirrors the files after it exactly under that of DiffReplay if all lines fit, and the number returned is that of the kept lines below each mount that remove a file or whose file is not refused |
| HostRun.TruncatedRun | host/axiom/vm.py:498-509 | such a run on one file, now of 1 MiB, whose second request fails: its first quarter is left in the mount, neither the old nor the new file |
| HostPaths.WalkStaysInside | host/axiom/vm.py:502-503 | from the mount's directory, every step along a relative path stays inside it if and only if no beginning of the path has more ".." than names |
| HostPaths.TargetStaysInside | host/axiom/vm.py:502-503 | the file itself is inside, whatever the mount's directory is called, under the same condition |
| HostPaths.ReplayStaysInside | host/axiom/vm.py:498-513 | if no fact climbs, every entry that a replay changes leads to a file inside the mount's directory |
| HostPaths.ClimbingFact | host/axiom/vm.py:510-512 | a removal whose relative path climbs is carried out, and for some mount directory it is of a file outside |
| HostPaths.UpAndOut | host/axiom/vm.py:502-503 | "../../x" leads to the file x two directories above the mount's |
| HostPaths.ScannedBelow | include/axiom/diff.hpp:111-128 | below a mount, a path that a directory scan records is a relative path of names alone |
| HostPaths.ScannedStaysInside | include/axiom/diff.hpp:111-128 | a fact on a scanned path never climbs, and meets what the laws of replay assume of paths |
| HostPaths.PlainTargets | host/axiom/vm.py:502-503 | relative paths of names alone lead to files inside the mount's directory, and different ones to different files |
| HostSync.FactsOfPrinted | host/axiom/vm.py:490-497 | from any printed selection of lines the host recovers exactly their actions and paths |
| HostSync.PathSurvives | host/axiom/vm.py:490-497 | a printed list of lines is recovered if and only if no path in it is empty or has white space |
| HostSync.SpaceCutsPath | host/axiom/vm.py:490-497 | a path with a space is cut at the space, so that another file is removed |
| HostSync.ReplayAt | host/axiom/vm.py:498-513 | after a replay each entry is what the facts on its own path, in order, make of it |
| HostSync.LineReplays | host/axiom/vm.py:504-513 | when the entry that a true line leaves is that before or that after the command, and when it is that after |
| HostSync.SelectionReplays | host/axiom/vm.py:498-513 | after replaying any selection of true lines, an entry without a line is as before, and an entry with one is as that line leaves it |
| HostSync.MissingLine | include/axiom/diff.hpp:167-199 | a path without a line is the same before and after |
| FileTransfer.RoundTrip | host/axiom/vm.py:422-458 | for any content below 4 GiB, any chunk size whose frames fit the receive buffer, any short reads of the file and any cut of the connection, writing in chunks and reading back returns the content and changes no other file |
| FileTransfer.WriteFileAll | host/axiom/vm.py:435-458 | a non-empty content is reported as written exactly when the path can be written to, the frames fit and every chunk's write goes through; then total_written is its length and the file holds it; no other file changes; an empty content returns 0 whatever the guest answered |
| FileTransfer.EmptyWrite | host/axiom/vm.py:444-446 | after writing an empty content the file is there and empty if and only if the guest could open it or it was so before |
| FileTransfer.RefusedOpenIsReportedAsWritten | host/axiom/vm.py:444-446 | a refused open returns 0 without an error and leaves the old content |
| FileTransfer.ReadFileAll | host/axiom/vm.py:422-433 | fails exactly when the file does not exist or its first request fails; terminates by the announced size minus the bytes received, and returns what the requests that succeeded brought, always a beginning of the file |
| FileTransfer.WholeFile | host/axiom/vm.py:422-433 | that is the whole file if and only if its size is below 4 GiB, no request that it takes fails, and its size was found out if it takes more than one |
| FileTransfer.WhichBeginning | host/axiom/vm.py:422-433 | a given content is returned if and only if the first request does not fail, the content is a beginning of the file, and its length is that at which the transfer stops |
| FileTransfer.SecondRequestFails | host/axiom/vm.py:430-431 | a file of 1 MiB whose second request fails: the first 256 KiB are returned without an error |
| FileTransfer.FourGiB | host/axiom/vm.py:428-428 | a file of 4 GiB announces size 0, and what the first request brought is returned |
| FileTransfer.ChunkSizeIsIrrelevant | host/axiom/vm.py:449-457 | every chunk size leaves the same files |
| FileTransfer.Guest.HandleReadFile | include/axiom/server.hpp:883-976 | malformed requests are not answered; all others get the specified status, total size and bytes at the offset, failing opens, sizes, seeks and reads included; which bytes these are is the matter of FileTransfer.AnswerIsPart |
| FileTransfer.AnswerIsPart | include/axiom/server.hpp:926-940 | an answer holds the bytes from the offset on, at most 256 KiB and, for a limit above 0, at most that many, some unless the file ends there, and all of these when the system's read returns all it can |
| FileTransfer.AnswerSucceeds | include/axiom/server.hpp:905-941 | a read succeeds if and only if the path has 1 to 4095 bytes, the file is there and open, seek and read go through; otherwise no bytes come |
| FileTransfer.CStringEnds | include/axiom/server.hpp:908-912 | the name that is opened is the path up to its first zero byte |
| FileTransfer.StepsGiveFile | include/axiom/server.hpp:921-940 | reading a file in steps of any limit, each at the offset reached, gives the whole file |
| FileTransfer.Guest.HandleWriteFile | include/axiom/server.hpp:979-1067 | malformed requests change nothing and are not answered; all others truncate or append, and answer, as specified |
| FileTransfer.WriteLeaves | include/axiom/server.hpp:1021-1044 | a write that could be opened leaves the content, or a proper beginning of it if the write fails, behind the old file or by itself as bit 0 of the flags says, and reports exactly which |
| FileTransfer.WriteFile | host/axiom/vm.py:370-420 | one request and response, through both codecs and the receive path, has the effect and answer of the guest; it fails exactly when its frame does not fit |
| FileTransfer.Deliver | include/axiom/server.hpp:221-281 | a request frame passes the receive path, under every cut, exactly when it fits the buffer |
| FileTransfer.ReplyArrives | host/axiom/vm.py:394-416 | the host takes the payload out of a response frame |
| FileTransfer.ReadFile | host/axiom/vm.py:322-368 | one request and response, through both codecs and the receive path, gives the guest's answer; a successful one is a part of the file from the offset on within the limits |
| FileTransfer.ReadRequestRoundTrip | host/axiom/wire.py:393-403 | the guest decodes what the host encodes |
| FileTransfer.WriteRequestRoundTrip | host/axiom/wire.py:421-433 | the guest decodes what the host encodes |
| FileTransfer.ReadResponseRoundTrip | host/axiom/wire.py:406-418 | the host decodes what the guest encodes |
| FileTransfer.WriteResponseRoundTrip | host/axiom/wire.py:436-446 | the host decodes what the guest encodes |
| FileTransfer.MalformedIsIgnored | include/axiom/server.hpp:895-897 | exactly the requests whose payload holds the lengths they announce are answered |
| Ast.CollectSymbolsRecursive | include/axiom/ast.hpp:429-698 | on any tree, source and language, the bounded in-place traversal stores the first 256 of the symbols of the unbounded preorder collection; which these are is the matter of AstPaths.CollectedByPath |
| AstPaths.CollectedByPath | include/axiom/ast.hpp:429-698 | a symbol is collected if and only if a path of visits from the root leads to a node that gives it: its kind by a table per language, a function in a class or impl being a method, its name from the node, qualified by the innermost class or impl above when it is a method and cut to 95 characters |
| AstPaths.SymbolsByPath | include/axiom/ast.hpp:205-232 | the symbols of a file are among these, and are all of them unless there are more than 256 |
| AstPaths.MethodOfClass | include/axiom/ast.hpp:538-554 | a function in the body of a class or impl named N is collected as the method N::name, cut to 95 characters |
| AstPaths.PlanTells | include/axiom/ast.hpp:429-698 | in every language a node records what the table says, and passes on to the nodes and with the scope that paths have |
| AstPaths.DescendantIsFirst | include/axiom/ast.hpp:371-391 | the descendant that is found is the first of the kinds in preorder |
| AstPaths.FieldIsFirst | include/axiom/ast.hpp:439-439 | a field is the first child that stands in it |
| AstPaths.TrimDrops | include/axiom/ast.hpp:460-468 | trimming an import's text drops exactly the characters of the set at its end |
| Ast.RecordAll | include/axiom/ast.hpp:394-426 | records are stored in order until the vector is full |
| Ast.CollectedIsStretch | include/axiom/ast.hpp:429-698 | on trees with ordered, disjoint, nested children: start bytes never decrease, any two ranges are nested or disjoint, and names have 1 to 95 characters |
| Ast.CollectedLines | include/axiom/ast.hpp:418-423 | every symbol's lines are those of its byte range |
| Ast.SymbolsAreSound | include/axiom/ast.hpp:205-232 | the same for the bounded list that callers see |
| Ast.ExtractSymbols | include/axiom/ast.hpp:205-232 | fills the vector with the file's symbols, those of AstPaths.SymbolsByPath, and returns their number, or fails, for the first of its reasons, without touching it |
| Ast.PlanShape | include/axiom/ast.hpp:437-692 | in every language a node records at most itself and descends to its own or its body's children, except for lists of type specs |
| Ast.MethodName | include/axiom/ast.hpp:401-416 | a method is recorded under its qualified name, cut to 95 characters, and under its cut scope alone when the scope has more than 93; any other symbol under its name, cut to 95 |
| AstPatch.MethodAnswers | include/axiom/ast.hpp:701-755 | a recorded method answers to its qualified name if and only if that has at most 95 characters; it then answers to its bare name, and to the spelling with a dot if and only if its scope does not end in an odd number of colons |
| AstPatch.FindSymbol | include/axiom/ast.hpp:701-755 | returns the first of the best answers (exact, equal up to separators, scoped suffix), and none exactly when no name answers |
| AstPatch.AnswerByPass | include/axiom/ast.hpp:701-755 | that answer is the first name that is the query; without one, the first that is the query up to separators; without one, the first of which the query is a scoped suffix; else none |
| AstPatch.MatchesLoop | include/axiom/ast.hpp:712-738 | the two-index loop decides the recursive match |
| AstPatch.MatchesIsDotted | include/axiom/ast.hpp:710-741 | for all names, a match is equality up to writing separators as "::" or ".", where a dot of the name itself is not a separator |
| AstPatch.ScopedSuffixAt | include/axiom/ast.hpp:746-751 | the third test holds exactly when the name is a non-empty scope, "::" and the query |
| AstPatch.SliceSymbol | include/axiom/ast.hpp:235-253 | returns lines and text of the symbol found, or the exact error, those of the parser included |
| AstPatch.PatchSymbol | include/axiom/ast.hpp:256-301 | the destination begins with the patched source and is otherwise unchanged; a failure, with its exact cause, those of the parser included, writes nothing |
| AstPatch.PatchUndoes | include/axiom/ast.hpp:270-287 | slicing the patched range gives the replacement, and patching it with the old text restores the source |
| AstPatch.OwnSliceIsIdentity | include/axiom/ast.hpp:256-301 | patching a symbol with its own slice changes neither source nor lines |
| AstPatch.ReplacedLines | include/axiom/ast.hpp:289-298 | the reported new end line is the line on which the replacement ends in the new source |
| AstPatch.PatchShiftsLines | include/axiom/ast.hpp:289-298 | text before the symbol stays; every position behind it moves by new_end_line minus old_end_line lines |
| AstPatch.DisjointPatchesCommute | include/axiom/ast.hpp:270-287 | patches of disjoint symbols give the same source in either order |
| AstPatch.NestedOrIndependent | include/axiom/ast.hpp:256-301 | any two symbols of a file are nested, or their patches commute |

## Left out

- System calls, epoll, signals, process creation, timeouts, cycle counters, vsock and Firecracker: only their outcomes, as parameters.
- What a dispatched handler computes, except for file reads and writes: at the frame level a dispatch either closes its slot or does not.
- Responses sent on a connection: only whether writing them succeeded. A response that cannot be written closes the slot only; the bytes already sent are not modelled.
- The listener and signal descriptors in the reactor set: the table is about client descriptors.
- The order and batches in which epoll reports events: any list of events is covered.
- JSON field lookup as the meaning of a field: it is modelled as the text search it is, which finds a nested or earlier occurrence of the field's name first.
- JSON numbers and literal names finer than their characters, and Unicode: no such text contains a structural character.
- Escape sequences outside the token grammar (escapes with several intermediate bytes, strings opened by ESC P, X, ^ or _, an OSC interrupted by another escape): the filter's behaviour on them is covered by the laws for all bytes, not by the rendering law.
- Directory scanning (`scan_recursive`, its depth and capacity): snapshots are lists of records, and the replay law assumes that they describe the files. Of scanned paths, only that they are made of names is used.
- Host paths: a mount is a map from relative names to contents, and paths are followed upwards by name, so that links, directories in the place of files and several mounts on one host directory are not modelled; names with ".." in them are entries of their own in the map.
- UTF-8: the encoding of paths is a parameter, and text is modelled as characters; `splitlines` is modelled up to empty lines, which the caller skips.
- File modes, `mkdir` of parents, directories opened as files and a write that returns 0: the guest's files are a map from paths to contents, with failing opens, reads and writes.
- The loss of the connection between a request and its response, which the host reports as an error.
- Concurrent changes of a file between the reads of `read_file_all`.
- FileTransfer.ReadFile: assumes the 32-bit offset and limit that the client loops use.
- Parsing source code: the tree is given. Two C-string reads of the kind of a null node are modelled as the empty kind.
- AstPatch.PatchSymbol: sizes are unbounded integers; source texts of 4 GiB and more, which the 32-bit offsets could not address, are not modelled.
- `format_symbols`, `detect_language` and the text names of symbol kinds, which would only add easy members.
- The response that carries the diff text to the host: the text arrives as it was printed.
- The other message layouts, the CDP pipe, Chromium, the TypeScript SDK, the command line, the MCP server, downloads and benchmarks.
