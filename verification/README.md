# A verified model of the MCP/LSP bridge

The bridge stands between MCP clients and language servers. Its core is a handful of algorithms and
protocols: applying text edits, multiplexing requests over two hops, framing, graph searches over symbols
and calls, watching files, caching, decoding semantic tokens, searching text, and translating paths and
URIs between a host and a container. This project models them in Dafny 4.11 and proves what they are for.
`dafny verify dfyconfig.toml` checks everything; nothing is executed.

Each file is one module. Where the Go code changes fields or slices in loops, the model does too (arrays,
classes with `modifies`, loops with invariants), and each method is tied to a specification function about
which the lemmas speak. Where goroutines interleave, the model is a state machine over runs. Code made of
expressions is functions.

| module | subject |
|---|---|
| `TextEdits`, `Positions` | sort and splice against one-shot replacement on the flat text; positions and offsets are isomorphic |
| `SessionProtocol`, `JsonRpcId` | `SessionClient.Call`, `HandleClient`, `sendRequest` and both readers as one interleaved step system |
| `SessionDelivery` | what can become of a call: every request can be asked, and every answer can be returned |
| `Framing` | Content-Length frames: printer, parser, the proxy's re-framing, concurrent writers under one lock |
| `DependencyGraph`, `Graphs` | breadth-first depth, the cycle probe, the dependency patterns |
| `CallGraph` | the bounded, cycle-marking builder: recursive with run-to-completion scheduling, and all interleavings |
| `DirScan` | the parallel tree scan under every schedule and every choice of queueing or inlining |
| `FileWatch` | snapshot comparison, replay of batches, the event coalescer |
| `OpenDocuments` | the didOpen/didClose tracker |
| `AnalysisCache` | the LRU cache with expiry as a refinement of a recency list |
| `SemanticTokens` | the delta decoder over wrapping 32-bit numbers |
| `TextSearch` | the early-stopping paged search |
| `RangeContent` | the text of a line/character range |
| `PathMap`, `BridgeUris`, `FileUris`, `Paths` | path cleaning, percent-encoding, host/container mapping, `NormalizeURIForLSP` |
| `Text`, `Decimal`, `Collections`, `Wrappers` | splitting and joining, trimming, decimal numbers, sets and sequences, options |

A `char` stands for a byte and positions are indices into one character sequence, as in the code. Clocks,
the outcome of writes, the language server's answers, the working directory, the order of iteration over a map,
the largest allocation of the Go runtime and the choices of the scheduler are parameters. A message of the language server is its id, its method name and an opaque reply.

## Where the code and its promises differ

The model follows the code. Each difference is stated in a contract or lemma: the exact condition under
which the code does meet the promise, and for most an input on which it does not:

- Edits with equal starts come out in the reverse of the order in which the unstable exchange sort leaves them.
  As long as each edit ends where the ones sorted in front of it start, which holds whenever only insertions share
  a start, this agrees with LSP 3.17 exactly when the texts inserted at each position are the same in both orders
  (`TextEdits.ApplyTextEdits`): a list of just two insertions agrees exactly when they commute
  (`TextEdits.EqualStarts`), but not so in front of a third edit, which turns them round
  (`TextEdits.TieInFrontOfAnother`). A replacement behind an insertion at its start overwrites the inserted text
  (`TextEdits.InsertionThenReplacement`, `TextEdits.OverwrittenInput`).
- An edit whose character lies past the end of its line is skipped, where LSP 3.17 clamps it; this agrees
  exactly when nothing is clamped or nothing would change (`TextEdits.ClampingAgreesExactly`,
  `TextEdits.ClampedInput`); of several edits exactly those in range are applied (`TextEdits.SkipsOutOfRange`).
- `isCircularDependency` answers false on every graph, although every pattern it is asked about lies on a
  cycle (`DependencyGraph.IsCircularDependency`, `DependencyGraph.DetectAdvancedDependencyPatterns`).
- A poll whose batch is withheld while the server indexes, or cannot be sent, is not caught up later: the
  listener is right about a file exactly when the number of moves it has not heard of is even
  (`FileWatch.RightExactlyAfterEvenMoves`, `FileWatch.LosingRun`).
- The monitor of the parallel scan may close the queue too early. A scan that returns is complete all the
  same; one that has a subdirectory left at that moment crashes on the closed queue (`DirScan.ClosedScanEnds`).
  So some schedule crashes a scan exactly when the root has a subdirectory that is not skipped
  (`DirScan.CrashesExactly`, `DirScan.EarlyCloseCrashes`).
- A didClose that could not be written still makes the tracker forget the document, and the next didOpen
  may then break the open/close discipline (`OpenDocuments.DisciplineExactly`,
  `OpenDocuments.FailedCloseBreaksDiscipline`). Closes are passed on unchecked, and a failed open is taken for an
  open document and closed before the next one (`OpenDocuments.ClosesOpenExactly`,
  `OpenDocuments.FailedOpenIsClosed`).
- Updating a key of a full cache evicts an entry although no room is needed (`AnalysisCache.UpdateMayShrink`).
  Eviction drops the least recently used key exactly when that key is not empty
  (`AnalysisCache.VictimIsLeastRecentlyUsed`), and a cache outgrows its limit exactly when a new key is set while
  it is full and the least recently used key is empty and met last by the search (`AnalysisCache.RunIsBoundedExactly`,
  `AnalysisCache.EmptyKeyOverflows`).
- An empty body can be written but not read back (`Framing.ReadsEncoded`). The readers crash exactly on a
  length that cannot be allocated, negative or above the largest allocation, which the model reports as an error of
  its own (`Framing.CrashesExactly`, `Framing.NegativeLengthInput`, `Framing.HugeLengthInput`).
- Both path prefixes are compared without looking for the end of an element, so siblings of a root are
  accepted; exactly the paths below the root come back (`PathMap.FaithfulExactlyBelowRoot`,
  `PathMap.ContainerFaithfulExactly`), and a second normalisation may map once more
  (`BridgeUris.SecondRoundExactly`, `BridgeUris.MiddleMatchIsMappedTwice`).
- A file URI is decoded twice, so a percent sign in a path leads to another path, and a name whose percent
  sign cannot be decoded makes repeated normalisation alternate for ever (`FileUris.DecodesItsPath`,
  `BridgeUris.FixedExactlyWithoutPercent`, `BridgeUris.RoundsAgreeExactly`, `BridgeUris.BarePercentInput`).
- A range that ends within a later line loses its last character (`RangeContent.WholeRangeExactly`), and the
  error for a start behind the end on one line can never be returned (`RangeContent.GetRangeContent`).
- `break` inside the `select` of the call graph builder leaves the `select` only, so a passed deadline does
  not end the loop (`CallGraph.Builder.MayFollow`). Concurrent goroutines may expand one key twice
  (`CallGraph.ExpandedTwice`).
- A last group of one to three token numbers makes the decoder crash (`SemanticTokens.FindTokensByType`).

## Model

| member | source | states |
|---|---|---|
| TextEdits.ApplyTextEdits | bridge/bridge.go:1152-1222 | the result is the one-shot replacement of the original flat text whenever starts are distinct and ranges do not overlap, for edits in any order, with newlines in the new text and with edits reaching outside the document; if each edit ends where the ones sorted in front of it start, it is the one-shot replacement by the sorted list read backwards, and that by the list as given exactly when both insert the same at every gap; for all other inputs it is the splice of the sorted list; the caller's slice is left as the exchange sort leaves it |
| TextEdits.SortDescending | bridge/bridge.go:1160-1174 | the in-place loops compute the exchange sort, the order of equal starts included |
| TextEdits.ExchangePass | bridge/bridge.go:1161-1173 | the inner loop makes one pass over the rest of the slice and leaves what is in front of it |
| TextEdits.ExchangeSorts | bridge/bridge.go:1158-1174 | the exchange sort yields a permutation in which no later edit starts behind an earlier one |
| TextEdits.ExchangeLeavesSorted | bridge/bridge.go:1160-1174 | a list that is descending already is left as it is, ties included |
| TextEdits.StackedIsOneShot | bridge/bridge.go:1152-1222 | splicing any list each of whose edits ends where the ones in front of it start, or earlier, is the one-shot replacement by the list read backwards |
| TextEdits.SortedIsStacked | bridge/bridge.go:1158-1174 | the sorted list is like that whenever ranges do not overlap and only insertions share a start |
| TextEdits.SortedApplyIsOneShot | bridge/bridge.go:1152-1222 | splicing any descending permutation into the lines and joining them equals replacing all ranges at once; an out-of-range edit is a no-op although bounds are tested against lines already changed |
| TextEdits.SpliceReplaces | bridge/bridge.go:1188-1217 | one splice of the line array is one replacement between two offsets of the flat text, even when lines already contain newlines |
| TextEdits.SpliceUntouched | bridge/bridge.go:1176-1218 | everything in front of the start of the last applied edit is as in the original document |
| TextEdits.OneShotIgnoresOrder | bridge/bridge.go:1160-1174 | the specified document does not depend on the order in which unambiguous edits are listed |
| TextEdits.OneShotsAgree | bridge/bridge.go:1160-1174 | two orders of the same edits specify the same document exactly when they insert the same texts at every gap |
| TextEdits.EqualStarts | bridge/bridge.go:1160-1174 | a list of exactly two insertions at one position agrees with the specification exactly when their texts commute |
| TextEdits.TieInFrontOfAnother | bridge/bridge.go:1160-1174 | two insertions at one position listed in front of a later edit are turned round by the sort and so come out as specified |
| TextEdits.InsertionThenReplacement | bridge/bridge.go:1160-1217 | an insertion and a replacement listed behind it at the same start agree with the specification exactly when taking the inserted text for text to be replaced makes no difference |
| TextEdits.LostAcrossLines | bridge/bridge.go:1196-1217 | across lines that is exactly when nothing was inserted |
| TextEdits.OverwrittenInput | bridge/bridge.go:1188-1194 | inserting A at the start of xyz and replacing xy by A gives Ayz, where AAz is specified |
| TextEdits.SkipsOutOfRange | bridge/bridge.go:1183-1202 | of any unambiguous list exactly the edits both of whose ends exist are applied, all at once |
| TextEdits.ClampingAgreesExactly | bridge/bridge.go:1184-1202 | for lines that exist, one edit agrees with the edit clamped to its lines (LSP 3.17, Position) exactly when both ends are in range or it would replace a text by itself |
| TextEdits.ClampedInput | bridge/bridge.go:1191-1193 | replacing a one-line document up to a character past its end leaves it as it was |
| Positions.PositionHasOffset | bridge/bridge.go:1158-1181 | every gap of the flat text has an in-range line and character whose offset is that gap |
| Positions.OffsetHasPosition | bridge/bridge.go:1158-1181 | every in-range line and character is the position of the gap at its offset |
| Positions.OffsetsOrdered | bridge/bridge.go:1167-1170 | comparing positions by line and character is comparing offsets |
| Positions.CutAt | bridge/bridge.go:1195-1213 | cutting the joined text at a position cuts the line array at that line and character |
| Text.JoinSplit | bridge/bridge.go:1158-1221 | joining the parts of a split gives the string back |
| SessionProtocol.CallReturnsItsAnswer | lsp/session_client.go:350-424 | in every run, with timeouts, lost connections and late or reordered replies, a forwarded call that returns a value returns the server's answer to exactly its own request |
| SessionProtocol.CallErrorHasItsCause | lsp/session_client.go:390-420 | a forwarded call that returns an error had a fault of its own with this message in the run (no connection, failed write, given up, connection lost, deadline, failed forwarding), or the server answered its own request with just this error |
| SessionProtocol.FaultsAreSteps | lsp/session_client.go:390-420 | the faults held against a call are exactly the steps of the run that failed it |
| SessionDelivery.EveryAnswerCanReturn | lsp/session_client.go:410-420 | from every reachable state in which a call's request has been forwarded and nobody has given up: whatever the server answers, value or error, there is a continuation after which the call has returned just that, past all messages and replies queued in front |
| SessionDelivery.EveryRequestCanBeAsked | cmd/lsp-session-manager/main.go:815-888 | from every reachable state a call just started on a connection somebody serves can be brought to the server, which is then asked exactly its request, past all requests queued in front |
| SessionDelivery.EveryCallCanReturn | lsp/session_client.go:350-421 | so such a call can return any value or error a server may answer |
| SessionDelivery.HoverReturns | lsp/session_client.go:350-421 | one client, one hover request, no fault: the call returns the value the server answered |
| SessionDelivery.RunSound | cmd/lsp-session-manager/main.go:815-888 | in every run replies are queued only for requests that were read, and for none that is still being served |
| SessionProtocol.CallIsForwardedOnce | cmd/lsp-session-manager/main.go:573-585 | two ids of the manager never stand for the same call |
| SessionProtocol.IdsAreNeverReused | cmd/lsp-session-manager/main.go:573-585 | an id that has left the pending table never comes back in any later state of the run |
| SessionProtocol.PendingIsInFlight | cmd/lsp-session-manager/main.go:573-607 | the manager's table holds exactly the ids held by some handler, each by one handler only; the client's table holds exactly the calls that have not returned |
| SessionProtocol.ManagerReaderNeverBlocks | cmd/lsp-session-manager/main.go:641-686 | in every reachable state with output waiting, the manager's reader can take the next message: no capacity-one channel is full in its way |
| SessionProtocol.LateReplyIsDropped | cmd/lsp-session-manager/main.go:667-679 | a reply to an id that has been given up is taken off the stream and changes nothing else |
| SessionProtocol.OthersAreIgnored | cmd/lsp-session-manager/main.go:641-687 | a message that is no response, such as a request of the server under whatever id, selects no channel |
| SessionProtocol.FailAllReachesEveryCall | lsp/session_client.go:487-499 | when failAllPending is done, every pending call of that client has a reply waiting or has already decided its outcome |
| SessionProtocol.StepKeeps | cmd/lsp-session-manager/main.go:573-887 | every step of a client, a handler, the server or the network keeps the joint invariant of both pending tables, the connections, the handlers and the server |
| SessionProtocol.RunKeeps | lsp/session_client.go:350-539 | that invariant holds in every state of every run |
| JsonRpcId.TextAndNumberAgree | cmd/lsp-session-manager/main.go:49-97 | any 64-bit id sent back as a number or as the number's text is set and selects the same pending entry |
| Decimal.ParsesPrinted | cmd/lsp-session-manager/main.go:66-69 | reading a printed integer gives it back exactly within 64 bits |
| Decimal.ParsesPadded | cmd/lsp-session-manager/main.go:1121-1125 | a sign and leading zeros do not matter |
| Framing.ByteReader.ReadString | cmd/lsp-session-manager/main.go:1112-1115 | takes the bytes through the next newline, or everything with an end-of-stream result |
| Text.TrimTakesSpaces | cmd/lsp-session-manager/main.go:1117 | trimming takes white space off both ends and nothing else |
| Framing.ByteReader.ReadLSPMessage | cmd/lsp-session-manager/main.go:1108-1142 | the header loop and body read return the frame and leave the bytes that the parser specification says, errors included |
| Framing.ByteReader.ReadProxyMessage | cmd/lsp-proxy/main.go:363-401 | the proxy's reader returns the same body behind a canonical header, if the whole message can be allocated |
| Framing.ReadsFrameWithHeaders | cmd/lsp-session-manager/main.go:1108-1142 | behind any other header lines with any printed 64-bit length among them: the body whole, whatever it contains, exactly when the length is positive, can be allocated and the bytes are there, reading then stops at the byte behind it; too few bytes, a zero length and one that cannot be allocated are told apart |
| Framing.CrashesExactly | cmd/lsp-session-manager/main.go:1108-1135 | over all bytes: the allocation panics exactly when the header part ends with a negative length or one above the largest allocation |
| Framing.NegativeLengthInput | cmd/lsp-session-manager/main.go:1131-1135 | a complete header with the length -1 reaches the allocation of a negative size |
| Framing.HugeLengthInput | cmd/lsp-session-manager/main.go:1121-1135 | a complete header with any 64-bit length above the largest allocation, such as 9223372036854775807, reaches the allocation too, whether or not any bytes follow |
| Framing.ReadsEncoded | cmd/lsp-session-manager/main.go:620-638 | reading undoes writing exactly for bodies that are not empty and can be allocated, whatever bytes stand behind them; an empty one is refused as having no length |
| Framing.ReadsAllEncoded | cmd/lsp-session-manager/main.go:644-649 | a stream of frames is read back as exactly the bodies written, with no bytes left over |
| Framing.ConcurrentWritersReadBack | cmd/lsp-session-manager/main.go:620-638 | under every interleaving of writers that write header and body separately under one lock, the bytes read back as whole bodies in lock order, each writer's in its own order |
| Framing.WritersNeverStuck | cmd/lsp-session-manager/main.go:620-638 | while somebody has something to send some writer can move |
| Framing.ReframeIdempotent | cmd/lsp-proxy/main.go:398-400 | what the proxy emits is a fixed point of the proxy, and the session reads the same body off it |
| DependencyGraph.CalculateDependencyDepth | analysis/engine.go:330-358 | terminates on every finite graph and returns the length of a shortest path, or -1 exactly when there is no path |
| DependencyGraph.Enqueue | analysis/engine.go:347-354 | appends the neighbors not yet visited, duplicates included, one level deeper |
| DependencyGraph.StepKeeps | analysis/engine.go:337-355 | expanding the front entry keeps the search invariant: levels in order, an entry at depth k holds a node at distance k or k-1, and nothing met is lost |
| DependencyGraph.StepDecreases | analysis/engine.go:337-355 | although nodes are marked only when dequeued, each step lowers the pair of levels left and entries on the front level |
| DependencyGraph.FoundAtDistance | analysis/engine.go:341-343 | the depth of the target when it reaches the front is the length of a shortest path |
| DependencyGraph.IsCircularDependency | analysis/engine.go:307-327 | the probe marks exactly the nodes reachable from its start and answers false on every graph |
| DependencyGraph.CycleProbe.Dfs | analysis/engine.go:311-324 | started on an unvisited node it terminates, reports nothing, and closes what it marks under neighbors |
| DependencyGraph.BuildSymbolGraph | analysis/engine.go:262-274 | between any two names as many edges each way as dependent pairs join them, twice as many edges as pairs in all |
| DependencyGraph.DependsExactly | analysis/engine.go:295-304 | two symbols are dependent exactly when they are of one kind or one name is the other with something behind it |
| DependencyGraph.LinkIsOnCycle | analysis/engine.go:268-272 | the ends of every edge of the symbol graph lie on one cycle |
| DependencyGraph.NeighborDepth | analysis/engine.go:285 | the depth of a neighbor is 0 for a self-edge and 1 otherwise |
| DependencyGraph.DetectAdvancedDependencyPatterns | analysis/engine.go:258-292 | exactly two patterns for each dependent pair, one from either end: any two names are joined by as many patterns as pairs; each is at depth 0 or 1 and on a cycle, and not one is marked circular |
| CallGraph.BuildFromRoot | mcpserver/tools/call_graph.go:236-287 | both trees, each run to completion, on one builder: the counters describe exactly the two trees, the node limit is kept, no key is expanded twice; the result is called truncated whenever the deadline passed before the last of the checks made (one for each root, node and expanded node), and otherwise only if the node limit was reached; unless something was cut off the keys of the first tree are exactly those reachable by one call or more, cycles included, and the second misses no call of the root or of anything it expands |
| CallGraph.Builder.BuildTree | mcpserver/tools/call_graph.go:318-450 | one level of the recursion adds exactly its nodes, cycles and deadline checks to the counters, visits exactly what it expands, invents no key, and misses none unless truncated |
| CallGraph.Builder.Follow | mcpserver/tools/call_graph.go:393-440 | the node of one call: a leaf when its key was visited, otherwise expanded with everything below it accounted for |
| CallGraph.Builder.Admit | mcpserver/tools/call_graph.go:319-346 | entry is granted exactly within the deadline, the depth and the node limit; all but the depth limit set the truncation flag; the deepest level entered is kept |
| CallGraph.Builder.Expired | mcpserver/tools/call_graph.go:319-325 | a check finds the deadline passed exactly when more checks have been made than were allowed |
| CallGraph.Builder.MayFollow | mcpserver/tools/call_graph.go:374-388 | a call is followed exactly while the node limit allows; a passed deadline sets the flag and does not stop the loop |
| CallGraph.StepBalances | mcpserver/tools/call_graph.go:300-450 | at lock granularity, every step of every goroutine moves a counter by exactly what it moves the nodes or cycles of its part of the tree |
| CallGraph.StepLevels | mcpserver/tools/call_graph.go:327-366 | every step keeps each node's depth equal to its level and within the limit, and cycle nodes leaves |
| CallGraph.ResultsAreExact | mcpserver/tools/call_graph.go:256-287 | under every interleaving of the goroutines of both trees, the totals reported are 1 plus the nodes and exactly the cycle nodes of the two returned trees |
| CallGraph.SoloTreeIsComplete | mcpserver/tools/call_graph.go:318-450 | under every schedule of its goroutines, one tree that is not cut off by the node limit, the deadline or a failing request has exactly the keys reachable by one call or more if the depth limit exceeds their number |
| CallGraph.BothTreesAreComplete | mcpserver/tools/call_graph.go:236-287 | under every schedule of both trees on one visited set, unless something was cut off: in each tree every expanded key has all its calls as children, every cycle leaf is a key that one of the two trees expanded, and the keys are exactly the reachable ones as soon as the other tree has expanded no leaf in its place |
| CallGraph.ExpandedTwice | mcpserver/tools/call_graph.go:401-423 | a run in which two goroutines find the same key unvisited and both expand it |
| CallGraph.SmallTree | mcpserver/tools/call_graph.go:318-450 | a run of the interleaved builder to its end: the tree of a root with one call, not truncated |
| DirScan.ScanFindsExactly | cmd/lsp-session-manager/polling_watcher.go:193-275 | under every schedule, every choice of queueing or inlining and every timing of the monitor, a scan that returns has exactly the readable .bsl and .os files outside skipped directories, with their times |
| DirScan.FilesInAreLedTo | cmd/lsp-session-manager/polling_watcher.go:239-273 | a file belongs to the result exactly when each element of its path qualifies |
| DirScan.TargetsExactly | cmd/lsp-session-manager/polling_watcher.go:255-264 | a name is that of a target exactly when bsl or os, in any case, stands behind its last dot |
| DirScan.SkippedExactly | cmd/lsp-session-manager/polling_watcher.go:245 | skipped are hidden directories, node_modules and vendor |
| DirScan.StepKeeps | cmd/lsp-session-manager/polling_watcher.go:202-275 | no step loses or invents a file: found plus still to be found never changes |
| DirScan.StepDecreases | cmd/lsp-session-manager/polling_watcher.go:233-275 | every step uses up work |
| DirScan.ScanEnds | cmd/lsp-session-manager/polling_watcher.go:202-230 | the tree bounds the number of steps the workers make under any schedule |
| DirScan.NeverStuck | cmd/lsp-session-manager/polling_watcher.go:202-228 | until the scan has returned or crashed some worker can move, or all are idle and the monitor can |
| DirScan.IdleReturns | cmd/lsp-session-manager/polling_watcher.go:218-229 | once everything is idle, two readings of the monitor end the scan |
| DirScan.ClosingDecides | cmd/lsp-session-manager/polling_watcher.go:206-224 | when the monitor closes the queue, an unnoticed worker or directory notwithstanding, the scan can no longer crash if no subdirectory is left in the listings and can no longer return if one is |
| DirScan.ClosedScanEnds | cmd/lsp-session-manager/polling_watcher.go:206-250 | a run that was closed and can go no further has crashed exactly if a subdirectory was left in the listings at that moment, and has returned exactly if none was |
| DirScan.CrashesExactly | cmd/lsp-session-manager/polling_watcher.go:202-250 | for any tree, number of workers and capacity: some schedule crashes the scan exactly when the root has a subdirectory that is not skipped |
| DirScan.EarlyCloseCrashes | cmd/lsp-session-manager/polling_watcher.go:206-224 | a run in which the monitor looks between a worker taking the root and counting itself |
| FileWatch.PollingWatcher.CheckForChanges | cmd/lsp-session-manager/polling_watcher.go:122-190 | one entry of the right type for each created, changed or deleted path and none for any other; sent unless empty or indexing; the new snapshot is kept either way |
| FileWatch.UrisAreDistinct | cmd/lsp-session-manager/polling_watcher.go:136-161 | no file is named twice in a batch |
| FileWatch.UriIsInjective | cmd/lsp-session-manager/polling_watcher.go:278-285 | absolute paths keep their identity as URIs |
| FileWatch.ReplayReported | cmd/lsp-session-manager/polling_watcher.go:135-161 | what a listener with any prior belief believes about a file after one batch |
| FileWatch.ReplayFollows | cmd/lsp-session-manager/polling_watcher.go:122-190 | as long as every batch was sent, replaying them leaves a listener with exactly the files of the current snapshot |
| FileWatch.SpeaksOfChanges | cmd/lsp-session-manager/polling_watcher.go:135-161 | a poll speaks of a file exactly when its modification time is another or one of them is absent, with the right type |
| FileWatch.VersionFollows | cmd/lsp-session-manager/polling_watcher.go:122-190 | over any run a listener that reads a file whenever told of it has its version of the last poll that was sent and had news of it, so the current one if all were sent |
| FileWatch.RightExactlyAfterEvenMoves | cmd/lsp-session-manager/polling_watcher.go:122-190 | over any run of polls, some sent and some not, the listener is right about a file exactly when the number of its unseen appearances and disappearances since it last heard of it is even |
| FileWatch.WithheldBatchIsLost | cmd/lsp-session-manager/polling_watcher.go:178-182 | one withheld poll and one sent: right exactly when the first did not move the file or the second moved it too |
| FileWatch.LosingRun | cmd/lsp-session-manager/polling_watcher.go:178-182 | a file created while the server indexes stays unknown |
| FileWatch.Coalescer.OnEvent | cmd/lsp-session-manager/main.go:438-456 | the pending map is, for every file, the last create, remove or rename of the window, else a change if it was written |
| FileWatch.Coalescer.OnTimer | cmd/lsp-session-manager/main.go:461-486 | the batch has exactly the outcome of the window for each file, each file once, and the window starts anew |
| FileWatch.OutcomeAfter | cmd/lsp-session-manager/main.go:443-455 | how one more event changes the outcome of a window, file by file |
| FileWatch.OutcomeFromFlags | cmd/lsp-session-manager/main.go:438-486 | from the flags alone: created exactly if a create has no removal behind it, deleted exactly if a removal has no create behind it, changed exactly if there were writes and neither |
| OpenDocuments.SessionDocuments.HandleDidOpen | cmd/lsp-session-manager/main.go:1053-1086 | the new tracker and wire, whichever of the two writes succeed, and when an error is returned |
| OpenDocuments.SessionDocuments.HandleDidClose | cmd/lsp-session-manager/main.go:1089-1105 | the new tracker and wire whether or not the write succeeds |
| OpenDocuments.HandleBreaks | cmd/lsp-session-manager/main.go:1053-1105 | a request breaks the discipline exactly when it is a written open of a document the tracker has forgotten and the server still holds |
| OpenDocuments.DisciplineExactly | cmd/lsp-session-manager/main.go:1053-1105 | over every sequence of requests with any failures the discipline holds exactly when no open is written for a document whose last request was a close and which the server still holds, told from the requests alone |
| OpenDocuments.ClosesOpenExactly | cmd/lsp-session-manager/main.go:1053-1105 | over every sequence of requests with any failures only open documents are closed exactly when no close, the client's or the one before a reopening, is written for a document the server does not hold |
| OpenDocuments.FailedOpenIsClosed | cmd/lsp-session-manager/main.go:1066-1085 | failed open, open: the server gets a close of a document it never opened |
| OpenDocuments.DisciplineHolds | cmd/lsp-session-manager/main.go:1053-1105 | over every sequence of requests whose closes are written there are no two opens without a close between them, whatever else fails |
| OpenDocuments.FailedCloseBreaksDiscipline | cmd/lsp-session-manager/main.go:1100-1104 | open, failed close, open: the server gets a second open |
| OpenDocuments.TrackerIsExact | cmd/lsp-session-manager/main.go:1053-1105 | with all writes successful the tracker holds exactly the documents the server has open, and the server holds the text of the latest open |
| OpenDocuments.OpenedText | cmd/lsp-session-manager/main.go:1053-1086 | an open that is written leaves the server with its text, whatever it had before |
| AnalysisCache.InMemoryCache.Lookup | analysis/cache.go:57-82 | a hit is the value set last, neither deleted nor cleared since nor expired; and it is a hit whenever the operations so far leave no way for the key to be gone; the slot found moves to the recent end of the list, an expired one is dropped; hits plus misses count the lookups |
| AnalysisCache.InMemoryCache.Store | analysis/cache.go:85-105 | refines setting a key of the recency list for every key and every order in which a full cache is searched: the head goes, or, if its key is empty, the least recently used of those met behind it, or nothing if it comes last |
| AnalysisCache.InMemoryCache.EvictLRU | analysis/cache.go:134-148 | the map and the recency list lose the slot the search found, if any |
| AnalysisCache.InMemoryCache.OldestKey | analysis/cache.go:135-143 | for every order of iteration the minimum search finds the head of the recency list if its key is not empty; otherwise the least recently used of the keys met behind the empty one, or none |
| AnalysisCache.EmptyKeyOverflows | analysis/cache.go:93-98 | at every size: in a full cache whose least recently used key is empty some order of iteration evicts nothing, and a new key makes it one entry too large |
| AnalysisCache.InMemoryCache.Remove | analysis/cache.go:108-114 | refines deletion from the recency list |
| AnalysisCache.InMemoryCache.Reset | analysis/cache.go:117-123 | refines clearing the recency list |
| AnalysisCache.InMemoryCache.CleanupPass | analysis/cache.go:156-164 | one pass removes exactly the expired slots and keeps the order of the rest |
| AnalysisCache.HitIsLastSet | analysis/cache.go:57-105 | over every run a hit returns the value set last for that key, neither deleted nor cleared since nor expired |
| AnalysisCache.IsHeld | analysis/cache.go:57-105 | over every run, told from the operations alone: a key that was set, not deleted or cleared since and not expired is held with its last value, if whenever another key was set in between fewer than maxSize - 1 other keys had been used since its own last use |
| AnalysisCache.VictimIsLeastRecentlyUsed | analysis/cache.go:134-148 | after every run the head is the one slot that was used longest ago, and an eviction drops it exactly when its key is not empty |
| AnalysisCache.RunIsBoundedExactly | analysis/cache.go:93-104 | over every run the size stays within the limit exactly when no new key is set while the cache is full, its least recently used key is empty and the search meets that one last |
| AnalysisCache.RunIsBounded | analysis/engine.go:146-149 | runs that set only keys that are not empty, as the analyzer does, stay within the limit |
| AnalysisCache.UpdateMayShrink | analysis/cache.go:93-98 | setting a key shrinks the cache exactly when it is full, something is evicted and the key is held by another slot |
| SemanticTokens.DecodeEncode | lsp/semantic_tokens.go:57-75 | decoding inverts delta encoding relative to the base for every position-sorted token list of 32-bit numbers |
| SemanticTokens.EncodeDecode | lsp/semantic_tokens.go:69-75 | decoded tokens are sorted exactly when no cursor addition wraps around, and then encoding gives the data back |
| SemanticTokens.FindTokensByType | lsp/semantic_tokens.go:45-105 | exactly the wanted tokens of the full decode in order, tokens of other and of unknown types still moving the cursor; a crash exactly when the last group has one to three numbers |
| SemanticTokens.SelectsFromEncoded | lsp/semantic_tokens.go:45-105 | tokens sent over the wire and filtered are exactly the wanted ones of the list that was sent, each with its type, line, start and end |
| SemanticTokens.SelectsInOrder | lsp/semantic_tokens.go:61-102 | they come in the order of the tokens |
| TextSearch.Search | mcpserver/tools/project_analysis.go:236-336 | the early-stopping search returns exactly matches[offset .. offset+limit) of the full scan, and says truncated exactly when the full scan has that many |
| TextSearch.ScanFile | mcpserver/tools/project_analysis.go:290-333 | the byte loop over one file finds the same matches as splitting at newlines and dropping carriage returns, keeps the page exact, and stops exactly when the page is complete |
| TextSearch.VisitLine | mcpserver/tools/project_analysis.go:298-326 | one line adds its first match to the count, to the page exactly if it belongs there, and stops exactly when there are enough |
| TextSearch.FindEnd | mcpserver/tools/project_analysis.go:294-297 | the end of the line is the next newline or the end of the data |
| TextSearch.IndexIsFirst | mcpserver/tools/project_analysis.go:305 | the index is that of the first occurrence, and there is none exactly when the query occurs nowhere |
| TextSearch.HitsExactly | mcpserver/tools/project_analysis.go:290-326 | the matches are exactly the first occurrences in the lines without one closing carriage return each, at their own file and line numbers |
| TextSearch.HitsInOrder | mcpserver/tools/project_analysis.go:236-326 | they come file by file and line by line, each line at most once |
| TextSearch.PagesVisitAll | mcpserver/tools/project_analysis.go:356-359 | following next_offset visits every match once, in order |
| RangeContent.GetRangeContent | mcpserver/tools/utils.go:722-837 | each error exactly under its condition, and otherwise the flat text from the clipped start to the stop the code uses; a start behind the end is never reported |
| RangeContent.CollectLines | mcpserver/tools/utils.go:789-834 | first line, middle lines and last line joined are the text between the two offsets |
| RangeContent.WholeRangeExactly | mcpserver/tools/utils.go:823-833 | with both ends clipped to their lines, the whole range comes back exactly when it ends on its first line, at the start of a line or past the end of one, and otherwise all but its last character |
| Paths.CleanTwice | utils/pathmap.go:36-42 | cleaning a cleaned path changes nothing and leaves no empty element |
| Paths.ToSlashesSame | utils/pathmap.go:38-39 | both kinds of separators become slashes and nothing else changes |
| Paths.DoubledSlash | utils/pathmap.go:40-41 | cleaning makes several slashes one |
| Paths.DotElement | utils/pathmap.go:40-41 | cleaning drops the element "." |
| Paths.ParentElement | utils/pathmap.go:40-41 | cleaning drops the element ".." with the plain one in front of it |
| Paths.ParentOfRoot | utils/pathmap.go:40-41 | a ".." that begins a rooted path is dropped |
| Paths.ClosingSlash | utils/pathmap.go:40-41 | a closing slash and a leading "./" are dropped |
| Paths.NothingToClean | utils/pathmap.go:40-41 | what none of these rules applies to stays as it is |
| Paths.EmptyPath | utils/pathmap.go:40-41 | the empty path becomes "." |
| Paths.CutPath | utils/pathmap.go:154-166 | cutting a cleaned path where an element begins leaves a cleaned root and plain elements |
| PathMap.ConstructorCleansHostRoot | utils/pathmap.go:59-82 | when a mapper is made, with which roots, and which part of what the round trips need it guarantees |
| PathMap.SpellingDoesNotMatter | utils/pathmap.go:144-149 | separators, dots and doubled slashes of a host path make no difference |
| PathMap.HostRoundTrip | utils/pathmap.go:126-215 | a host path in any spelling that cleans to one below the host root, in any letter case, goes to the same tail below the container root and comes back up to the case of the root |
| PathMap.WindowsInput | utils/pathmap.go:126-174 | C:\p\a below C:/p is /c/a below /c |
| PathMap.FoldsExactly | utils/pathmap.go:46-57 | the case-insensitive prefix test sees letters that differ in case only as the same, and nothing else |
| PathMap.UriIsMapped | utils/pathmap.go:136-173 | a file URI is mapped like the path it encodes |
| PathMap.ContainerRoundTrip | utils/pathmap.go:126-215 | a cleaned container path below the container root goes to the same tail below the host root and comes back |
| PathMap.FaithfulExactlyBelowRoot | utils/pathmap.go:151-157 | a path is accepted exactly on its folded prefix, and comes back with its tail exactly when the prefix ends where an element ends |
| PathMap.ContainerFaithfulExactly | utils/pathmap.go:182-215 | a container path is accepted exactly on its prefix, and comes back exactly when the prefix ends where an element ends |
| FileUris.UnescapeEscape | utils/uri.go:148-152 | percent-decoding undoes percent-encoding (RFC 3986, section 2.1) |
| FileUris.UnescapeFixed | utils/uri.go:89-101 | a second decoding changes nothing exactly when no percent sign is left |
| FileUris.DecodesItsPath | utils/uri.go:77-109 | the path of an encoded URI comes back exactly when it has no percent sign |
| FileUris.CleanPathUri | utils/uri.go:112-153 | a cleaned absolute path becomes the URI that encodes it |
| FileUris.RelativePathUri | utils/uri.go:112-153 | a relative path becomes the URI of that path below the working directory |
| FileUris.EscapeSpace | utils/uri.go:148-152 | path characters are not encoded, a space is |
| FileUris.UrisAreKept | utils/uri.go:18-42 | what is a URI already is only trimmed |
| FileUris.NormalizeUriTwice | utils/uri.go:18-42 | normalising twice is normalising once, for every input |
| BridgeUris.SecondRoundExactly | bridge/bridge.go:64-96 | in container mode, for every input that leads to a cleaned path without a percent sign, in the container or through the mapper: the result is the URI of that path, and a second round keeps it exactly when the path is below the container root, is not matched by the host root, or is mapped to itself |
| BridgeUris.HostPathArrives | bridge/bridge.go:91-93 | a host path below the host root, in either kind of separators, arrives as the URI of its container path, however often it is normalised |
| BridgeUris.RelativeArrives | bridge/bridge.go:67-75 | a relative input, in either kind of separators, arrives as the URI of the path it leads to from the container root, however often it is normalised |
| BridgeUris.RelativeInput | bridge/bridge.go:67-75 | s\a becomes file:///c/s/a below /c |
| BridgeUris.WithoutContainer | bridge/bridge.go:77-80 | outside a container a path becomes its own URI and every input is normalised once and for all |
| BridgeUris.UnmappedIsKept | bridge/bridge.go:95 | an input that can be neither recognised nor mapped is only normalised, once and for all |
| BridgeUris.NormalizedIsKept | bridge/bridge.go:64-77 | what is routed is never taken for a relative path again and is left as it is by normalising |
| BridgeUris.FixedExactlyWithoutPercent | bridge/bridge.go:82-88 | the URI of a container path is a fixed point exactly when the path has no percent sign |
| BridgeUris.FixedExactlyWhenSettled | bridge/bridge.go:64-96 | the file URI of any rooted path is a fixed point exactly when the path it is read as, decoded once more or not at all, leads nowhere or back |
| BridgeUris.RoundsAgreeExactly | bridge/bridge.go:82-95 | for the name of any container path: if it does not decode, the rounds alternate; if it does, the result is the URI of the decoded name (with backslashes turned, white space behind it dropped and the path cleaned), and both rounds agree exactly when that path settles, which for an ordinary path below the container root means that it has no percent sign left and for one without a percent sign that it stays where it is; a name that reads like another scheme stays as it is |
| BridgeUris.BarePercentInput | bridge/bridge.go:82-88 | the file /c/100% becomes 100%2525, then 100%25, and so on |
| BridgeUris.MiddleMatchIsMappedTwice | bridge/bridge.go:90-93 | a family of roots and paths on which the condition of SecondRoundExactly fails and the second round maps once more |

## Left out

- Process launch, sockets, retries, sleeps, JSON marshalling and logging: input and output; a request line is its
  id, method and parameters, and lines that do not parse as requests are not modelled.
- Partial writes: a write of one message succeeds or fails as a whole; header and body are separate writes.
- MCP tool handlers that only parse parameters and format text, configuration, directories and mocks.
- Health scores, complexity scores and the placeholder detectors of analysis/engine.go.
- `GetClientForLanguage`, `validateAndConnectClient` and warm-up polling.
- `ApplyPagination` and the other slicing helpers: one expression each.
- UTF-16 columns: the code indexes bytes, and so does the model.
- Unicode white space and Unicode case folding: trimming and folding are modelled for ASCII.
- 64-bit overflow of request ids, counters and times.
- More than one insertion, or other edits, in front of a replacement at the same start: the result is the splice of
  the sorted list (`TextEdits.ApplyTextEdits`), compared with the specification for one insertion only
  (`TextEdits.InsertionThenReplacement`).
- TextEdits.ClampingAgreesExactly: one edit; for several, what skipped edits would have changed may cancel out.
- Answering requests that the language server itself sends: the code never does; in the model they are messages that select no channel.
- The reader of `SessionClient` may block when a buffered reply meets `failAllPending`; the model lets it wait and claims routing and coverage only.
- The manager's own `initialize` request: runs start behind it, with any non-negative id counter.
- The list of entry points, the text of the truncation reason and the overall maxima of depth of the call graph.
- The prefixes the code puts in front of error messages it passes on.
- The file watcher's extension filter and adding new directories to fsnotify.
- OpenDocuments.DisciplineHolds: one request at a time; two connections that open one document concurrently are not modelled.
- TextSearch.Search: files are given as contents in walk order; extension and size filters, previews and URIs of hits are not modelled.
- FileUris.DecodesItsPath: file URIs with a host, a query, a fragment or control characters are decoded by a parameter.
- CallGraph.ResultsAreExact: the node limit is claimed for run-to-completion scheduling only (`CallGraph.BuildFromRoot`), because check and increment are separate steps.
- CallGraph.SoloTreeIsComplete: one tree alone; for both at once see `CallGraph.BothTreesAreComplete`.
- DirScan.ScanFindsExactly: the tree does not change during a scan, and there is at least one worker.
- AnalysisCache.InMemoryCache.Store: readings of the clock increase strictly; the hit rate and memory figures are not modelled.
- Two goroutines of `SessionClient` reading one connection: a reconnect in `Call` and one in its reader (lsp/session_client.go:359 and 456) can leave two readers on one unsynchronised buffer; the model delivers whole lines.
