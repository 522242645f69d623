# Verification model of dh-kit

A Dafny model of the parts of dh-kit whose correctness does not show in any single function: the
HNSW vector index and the linear scan it replaces, the framed JSON-RPC peers that the bridge and
the worker talk through, the patch engine, the two-phase MCP routing, the workspace scanner, the
chunker, the Gemini schema sanitizer, the glob compiler and the key normalizer.

Code that updates fields or local variables in loops is modelled by classes and methods with loops;
each is proved to compute a specification function, and the theorems are lemmas about those
functions. Code made of expressions is modelled by functions directly. Errors that the program
throws are `None` or a failed outcome.

| module | what it models |
|---|---|
| `Sequences`, `Text`, `Json` | shared vocabulary: stable sorting, lines and trimming, ordered JSON objects |
| `Heaps`, `HnswSearch`, `HnswIndex`, `HnswPersistence`, `HnswClass`, `SemanticSearch`, `SearchHits`, `HnswExact` | array heaps, beam search, layered graph, saving and loading, the index object, the scan, which hits come out, exactness of small indexes |
| `FrameCodec`, `FrameStream`, `WorkerPeer`, `PeerOutcomes` | frame headers, the incremental reader, the peer with its pending table, what settles a request |
| `PatchHunks`, `PatchParser`, `PatchGrammar`, `DiffSummary`, `PatchTool` | hunk matching and splicing, patch syntax, the language accepted, diff accounting, the whole tool |
| `McpRouting`, `RoutingOutcomes` | planner and enforcer, what comes out of them |
| `WorkspaceScan`, `Chunker`, `GeminiSchema`, `GeminiRules`, `Glob`, `KeyCase`, `KeyWords` | tree and text transformations |

Framing follows the Header Part of the Base Protocol in the Language Server Protocol 3.17, and the
matching of responses to requests follows sections 4 and 5 of the JSON-RPC 2.0 specification.

Insertion is modelled over a `Finder`, the function that searches a layer; `IsBeam` says that it finds
what the beam search finds, which holds of the program's own (`HnswIndex.BeamOfIsBeam`) and is what
the index object runs. The handlers of a peer are a function `react` from the number of the call to
what the handler then does to the peer, issue requests or close, and whether it throws. Conversion to
lower case is a `Folding`, of which `Lawful` says what holds of the runtime's.

## Findings

Each finding names the lemma that says exactly when the program meets the property, and a lemma with
a concrete input on which it does not.

- The bytes that follow a rejected frame header are thrown away if they arrive in the same data
  event and are read as a new stream if they arrive later. So the way the transport cuts the input
  is invisible exactly when no byte follows a rejected header
  (`FrameStream.Reader.ChunkingInvisibleIff`; `FrameStream.CutShows`).
- A response whose `error` is null throws after its request left the pending table, so that request
  never settles, not even on close. Over every run each issued id is pending or settled exactly when
  no pending request is answered so (`WorkerPeer.World.NothingLostIff`;
  `WorkerPeer.NullErrorLosesRequest`).
- When a handler closes the peer, the frames behind it in the same data event are still handled, but
  those of later events are not. Handling does not depend on how the input is cut exactly when no
  message before the last leaves the peer closed (`WorkerPeer.MessagesHandledInOrderIff`;
  `WorkerPeer.ClosingShowsCut`).
- The bridge client throws on a body that decodes to null, and returns early on one it cannot decode;
  what is behind it stays in the buffer. It reads what was sent exactly when no message is null
  (`FrameStream.Sender.MessagesSurviveChunking`), and complete frames stay unread exactly when a first
  faulty body has one behind it (`FrameStream.Client.LeavesUnreadIff`; `FrameStream.NullHidesFrame`).
- An update that changes no line still rewrites every CR LF as LF. The file is unchanged exactly
  when it has no CR LF (`PatchHunks.ContextOnlyUnchangedIff`; `PatchHunks.ContextRewritesCrLf`).
- The reported additions minus deletions equal what the hunks add and remove, except that an empty
  last line is lost when the file had no final line break (`PatchTool.UpdateReportsNet`;
  `PatchHunks.AddedBlankIsLost`).
- A patch that fails part of the way is not rolled back. A patch is applied whole exactly when every
  path resolves and every file for itself takes its own operations (`PatchTool.SucceedsIff`); a failing
  one leaves the files alone exactly when for every file its operations before the failing one amount
  to nothing (`PatchTool.FailureUnchangedIff`; `PatchTool.HalfAppliedPatch`).
- A file is reported as changed exactly when its text changed, a missing file counting as empty text, so
  an added empty file is created and not reported (`PatchTool.ReportsChange`,
  `PatchTool.RunReportsChanges`; `PatchTool.EmptyFileUnreported`).
- A compiled glob agrees with the meaning of its pattern for every pattern exactly on paths without
  line terminators (`Glob.AgreeIffOneLine`; `Glob.NameWithLineFeed`). A `?` takes exactly one UTF-16
  code unit, so it does not match a character beyond U+FFFF (`Glob.QuestionTakesOneUnit`).
- The window loop of the chunker runs forever exactly when the overlap is at least the window size
  and one window does not hold the file (`Chunker.WindowLoopEndsIff`;
  `Chunker.OverlapEqualToWindowLoops`). A negative overlap skips lines: the windows keep every inked
  line exactly when the overlap is not negative or one window holds the file
  (`Chunker.WindowsKeepInkIff`; `Chunker.NegativeOverlapSkips`).
- A symbol that starts before line 1 is cut from the end of the file, and lines are lost. Whatever ink a
  line has lies in a chunk exactly when a gap or symbol that names the line also reads it
  (`Chunker.InkKeptIff`; `Chunker.ZeroBasedLosesLine`). A single symbol loses a line exactly when it
  starts before line 1, ends behind line 0, and its start counted from the end of the file does not
  reach the first line (`Chunker.OneSymbolIff`); symbols that count from 1 lose none (`Chunker.NoInkLost`).
- A chunk can name lines the file does not have. Every chunk holds exactly the lines it names exactly
  when no gap or symbol that reads something has a bound outside the file
  (`Chunker.ChunksQuoteIff`; `Chunker.SymbolBehindFile`), and every window exactly when the window size
  is not negative or none takes in a line (`Chunker.WindowsQuoteIff`;
  `Chunker.NegativeWindowMisquotes`).
- The sanitizer throws exactly when some node of type object with true `properties` requires something
  although these are neither object nor array, or requires something that has no text, or some node
  has an enumeration of something that has no text: an object with a key `toString`, or an array with
  such an element (`GeminiSchema.ThrowsIff`; `GeminiSchema.BarePropertiesThrow`,
  `GeminiSchema.RequiredWithoutTextThrows`, `GeminiSchema.EnumWithoutTextThrows`).
- A numeric type is to become string where there is an enumeration, but stays exactly when it stands
  behind the enumeration (`GeminiSchema.NumericEnumIff`; `GeminiSchema.NumericEnumStays`).
- The sanitizer treats the map under `properties` as a schema node, so parameters named `properties`
  or `required` can be deleted. A declared parameter survives exactly unless it has one of these names
  and the map also holds, under `type`, a true value other than "object", and no combiner
  (`GeminiSchema.PropertySurvivesIff`;
  `GeminiSchema.RequiredParameterLost`).
- A key survives conversion to snake case and back exactly when it is proper (no dash or white space,
  a capital only behind a small letter or digit, no underscore ahead of a letter) and no letter of it
  beyond ASCII has a lower case of its own (`KeyCase.Folding.KeyRoundTripIff`, `KeyCase.RoundTripIff`;
  `KeyCase.AcronymIsLost`, `KeyCase.AccentIsLost`). What comes back survives a second time exactly when
  in snake case every underscore before a letter stands behind a small letter or digit that is not
  itself made a capital (`KeyCase.BackSurvivesIff`; `KeyCase.LeadingUnderscore`).
- The query beam width is not saved with an index and is reset to 50 on loading
  (`HnswPersistence.RoundTrip`; `HnswPersistence.BeamIsReset`).
- Planner and enforcer have different default fail-safes for stale or missing runtime records: under
  the defaults a server is planned whatever its record, and then replaced exactly when the record is
  missing, stale, without signal or unusable (`McpRouting.Request.DefaultsDiffer`;
  `McpRouting.Request.UnknownServerIsPlannedAndBlocked`).
- The planner's own safe fallback asks for at least what candidates pass, so it can be taken only if the
  quota is not positive (`RoutingOutcomes.PlanIsBest`, `RoutingOutcomes.PlanWithoutQuota`).

## Model

| member | source | states |
|---|---|---|
| `Heaps.Heap.constructor` | packages/retrieval/src/semantic/ann-index.ts:88-89 | a new heap is empty and is a heap |
| `Heaps.Heap.Push` | packages/retrieval/src/semantic/ann-index.ts:93-96 | leaves the array that appending and bubbling up specifies, so by `PushedOk` a heap again with exactly one more item |
| `Heaps.Heap.Pop` | packages/retrieval/src/semantic/ann-index.ts:98-107 | nothing from an empty heap; otherwise returns the root and leaves the array that moving the last item up and sinking it specifies |
| `Heaps.Heap.SiftUp` | packages/retrieval/src/semantic/ann-index.ts:111-118 | the in-place swaps compute the specified bubbling for either order |
| `Heaps.Heap.SiftDown` | packages/retrieval/src/semantic/ann-index.ts:120-131 | the in-place swaps compute the specified sinking for either order |
| `Heaps.BubbleUpOk` | packages/retrieval/src/semantic/ann-index.ts:162-169 | an array that is a heap except above one index becomes a heap with the same items |
| `Heaps.SinkDownOk` | packages/retrieval/src/semantic/ann-index.ts:171-182 | an array that is a heap except below one index becomes a heap with the same items |
| `Heaps.PushedOk` | packages/retrieval/src/semantic/ann-index.ts:140-143 | pushing keeps the heap order and adds exactly the item pushed |
| `Heaps.PoppedOk` | packages/retrieval/src/semantic/ann-index.ts:145-154 | popping keeps the heap order and removes exactly one item, which no other precedes |
| `Heaps.RootFirstOfAll` | packages/retrieval/src/semantic/ann-index.ts:109-109 | the root of a heap comes first in its order among all items |
| `HnswSearch.Scope.RunKeepsInv` | packages/retrieval/src/semantic/ann-index.ts:382-406 | whatever the graph, the search loop ends, with full knowledge of what it has seen: both queues are heaps of genuine distances, kept results are the best of all visited nodes, and everything still worth expanding is expanded |
| `HnswSearch.Scope.SearchReturnsNearest` | packages/retrieval/src/semantic/ann-index.ts:364-409 | for every graph, query, entry and beam width: at most `ef` distinct nodes in ascending distance, nearest among all visited ones, and every neighbour of a returned node is returned or, with the result full, no nearer than the worst returned |
| `HnswSearch.Scope.ReachableClosed` | packages/retrieval/src/semantic/ann-index.ts:391-396 | reachability on a layer is closed under the links the search follows |
| `HnswSearch.Scope.ReachableLeast` | packages/retrieval/src/semantic/ann-index.ts:391-396 | it is the least such set, so it is exactly what paths of links reach |
| `HnswSearch.Scope.WideBeamIsExact` | packages/retrieval/src/semantic/ann-index.ts:364-409 | a beam at least as wide as the reachable part returns all of it, each node once |
| `HnswSearch.Scope.FullOrAll` | packages/retrieval/src/semantic/ann-index.ts:364-409 | a layer search returns `ef` distinct reachable nodes, or all there are |
| `HnswSearch.Scope.FirstIsLocalBest` | packages/retrieval/src/semantic/ann-index.ts:364-409 | the first node returned is no farther than the entry and has no nearer neighbour |
| `HnswIndex.SearchStays` | packages/retrieval/src/semantic/ann-index.ts:258-267 | in a well-formed graph a layer search from a node of that layer finds something, only nodes of that layer, and never the node being inserted |
| `HnswIndex.BeamIsSound` | packages/retrieval/src/semantic/ann-index.ts:258-267 | so every finder that finds what the beam search finds gives insertion distinct nodes of the layer, nearest first, never the new node |
| `HnswIndex.PrunedKeepsNearest` | packages/retrieval/src/semantic/ann-index.ts:416-425 | pruning keeps only given links, and drops one only if `m` links no farther away are kept |
| `HnswIndex.BackLinkAllLayers` | packages/retrieval/src/semantic/ann-index.ts:273-285 | telling the chosen nodes about the new one appends it to their lists or prunes them to their nearest, and changes no other list and no other layer |
| `HnswIndex.DescendOk` | packages/retrieval/src/semantic/ann-index.ts:257-261 | the greedy descent ends at an older node that lives on the layer where linking starts |
| `HnswIndex.DescendNearer` | packages/retrieval/src/semantic/ann-index.ts:255-258 | the descent never moves away from the vector and ends at a node without a nearer neighbour one layer above the floor |
| `HnswIndex.InsertKeepsValid` | packages/retrieval/src/semantic/ann-index.ts:238-292 | one insertion on any layer keeps the whole-index invariant |
| `HnswIndex.InsertAllKeepsValid` | packages/retrieval/src/semantic/ann-index.ts:232-292 | after any insertions on any layers every link leads to another existing node of that layer, no list repeats a link or exceeds `2m`, ids are consecutive, and the entry point stands on the highest layer of all |
| `HnswIndex.InsertJoins` | packages/retrieval/src/semantic/ann-index.ts:264-286 | on every shared layer the new node gets nearest-first links of at most `m`, exactly the chosen nodes gain a link back or are pruned to their nearest, and all other lists and layers are unchanged; how many links and which, says `HnswIndex.InsertLinks` |
| `HnswIndex.ConnectDownLinks` | packages/retrieval/src/semantic/ann-index.ts:261-286 | on every layer down to 0 linking starts from a node found one layer above, or the entry, and takes links as `InsertLinks` says |
| `HnswIndex.InsertLinks` | packages/retrieval/src/semantic/ann-index.ts:238-292 | on every shared layer there is a node, no farther than the entry point and locally nearest one layer up, such that the new node links to reachable nodes only, to at least `m`, `efConstruction` or all of them, and if no more than `efConstruction` are reachable to exactly the nearest `m` or all |
| `HnswPersistence.RoundTrip` | packages/retrieval/src/semantic/ann-index.ts:324-353 | loading a saved valid index gives the same graph, order, entry point, top layer, next id and build parameters; only the query beam width is reset |
| `HnswPersistence.BeamIsReset` | packages/retrieval/src/semantic/ann-index.ts:340-353 | an index made with beam width 10 is loaded with 50 |
| `HnswPersistence.InsertAllIgnoresBeam` | packages/retrieval/src/semantic/ann-index.ts:238-292 | the query beam width never influences what insertions build |
| `HnswPersistence.RestartIsInvisible` | packages/retrieval/src/semantic/ann-index.ts:324-353 | saving and loading at any point of any build gives, after any further insertions, the index that never left memory, but for the query beam width |
| `HnswPersistence.RestartKeepsAnswers` | packages/retrieval/src/semantic/ann-index.ts:300-353 | and that index answers every query with a given beam width with the same hits |
| `SemanticSearch.IndexAgreesWithScan` | packages/retrieval/src/semantic/semantic-search.ts:69-74 | when the beam holds what is reachable on layer 0 from where the descent ends, searching and then filtering gives the same similarities in the same order as the scan over those nodes, for every `k` and threshold |
| `SemanticSearch.LandingExists` | packages/retrieval/src/semantic/ann-index.ts:303-309 | in a valid index the descent of a search ends at an existing node |
| `SemanticSearch.LinearScanLoop` | packages/retrieval/src/semantic/semantic-search.ts:123-138 | the loop computes filter, stable descending sort and top `k` |
| `SemanticSearch.ScanSims` | packages/retrieval/src/semantic/semantic-search.ts:129-137 | whatever ranking of all similarities one has, the scan returns the first `k` of those at or above the threshold |
| `SemanticSearch.AboveOfTop` | packages/retrieval/src/semantic/semantic-search.ts:72-73 | on a descending list, filtering after taking the top `k` equals taking the top `k` after filtering |
| `SearchHits.ScanIsTop` | packages/retrieval/src/semantic/semantic-search.ts:123-138 | the hits of the scan are rows of their own with their chunk id and similarity, at most `k`, best first, none below the threshold, and a row is left out only if it is below or `k` no worse ones are returned |
| `SearchHits.LandingIsGood` | packages/retrieval/src/semantic/ann-index.ts:303-309 | the descent of a search ends no farther from the query than the entry point, at a node without a nearer neighbour on layer 1 |
| `SearchHits.SearchHitsAt` | packages/retrieval/src/semantic/ann-index.ts:300-320 | a search returns the chunk ids and similarities of distinct nodes reachable on layer 0 from there, best first, at least `k`, the beam width or all of them, and the nearest if the beam holds all |
| `SearchHits.ThresholdCuts` | packages/retrieval/src/semantic/semantic-search.ts:72-73 | the threshold cuts a descending list of hits where it first falls below |
| `SearchHits.SameSimsSameHits` | packages/retrieval/src/semantic/semantic-search.ts:69-74 | hits of rows without ties are told by their similarities |
| `HnswExact.GrownConnected` | packages/retrieval/src/semantic/ann-index.ts:264-286 | a strongly connected layer stays so when a node is added that some old node links to and back and no link is lost |
| `HnswExact.ListAfter` | packages/retrieval/src/semantic/ann-index.ts:273-285 | while an index holds at most `2m` nodes an insertion prunes no list of layer 0: each chosen node gains the link back and keeps all others |
| `HnswExact.InsertTakesNearest` | packages/retrieval/src/semantic/ann-index.ts:261-268 | into a connected index of at most `efConstruction` nodes a node is inserted with links on layer 0 to exactly the nearest of all nodes, `m` or all |
| `HnswExact.InsertKeepsConnected` | packages/retrieval/src/semantic/ann-index.ts:238-292 | such an insertion leaves every node of layer 0 reachable from every node |
| `HnswExact.InsertAllComplete` | packages/retrieval/src/semantic/ann-index.ts:232-292 | up to `2m + 1` embeddings inserted in any order on any layers are all stored under consecutive ids and mutually reachable on layer 0 |
| `HnswExact.GrowthTakesNearest` | packages/retrieval/src/semantic/ann-index.ts:232-292 | so it is at every step of a build from nothing up to `2m` embeddings, if `efConstruction` is no smaller |
| `HnswExact.CompleteIsExact` | packages/retrieval/src/semantic/semantic-search.ts:69-74 | in such an index a search with a beam at least as wide as it returns the similarities of the scan over all its rows |
| `HnswExact.CompleteIsTop` | packages/retrieval/src/semantic/semantic-search.ts:69-74 | in such an index a search with a beam at least as wide as it returns the best rows themselves: chunk ids and similarities, at most `k`, none below the threshold, none better left out |
| `HnswExact.SmallIndexIsExact` | packages/retrieval/src/semantic/semantic-search.ts:69-74 | for every list of entries with at most `2m + 1` embeddings (33 by default), any layers, query, `k` and threshold, and a beam at least that wide: building the index from nothing and searching it returns the similarities, in order, of the linear scan over all of them |
| `HnswExact.SmallIndexIsTop` | packages/retrieval/src/semantic/semantic-search.ts:69-74 | building an index of at most `2m + 1` embeddings and searching it returns the best rows themselves, each with its own chunk id |
| `HnswExact.SmallIndexIsScan` | packages/retrieval/src/semantic/semantic-search.ts:69-74 | and exactly the hits of the linear scan, if no two rows are equally similar |
| `HnswClass.Hnsw.constructor` | packages/retrieval/src/semantic/ann-index.ts:211-223 | a new index object has the empty state |
| `HnswClass.Hnsw.RunBeam` | packages/retrieval/src/semantic/ann-index.ts:364-409 | the loop over two heap objects and a visited set computes the specified beam search and leaves the index alone |
| `HnswClass.Hnsw.VisitLinks` | packages/retrieval/src/semantic/ann-index.ts:391-404 | the inner loop over the links of a node computes the specified visits on both heaps |
| `HnswClass.Hnsw.SearchLayer` | packages/retrieval/src/semantic/ann-index.ts:364-409 | so a layer search returns what the index object's finder is specified to find |
| `HnswClass.Hnsw.InsertOne` | packages/retrieval/src/semantic/ann-index.ts:238-292 | the new state is the specified insertion into the old one |
| `HnswClass.Hnsw.Join` | packages/retrieval/src/semantic/ann-index.ts:257-291 | descending, linking and moving the entry point give the specified graph, entry and top layer |
| `HnswClass.Hnsw.DescendTo` | packages/retrieval/src/semantic/ann-index.ts:257-261 | the layer loop computes the specified greedy descent |
| `HnswClass.Hnsw.Connect` | packages/retrieval/src/semantic/ann-index.ts:264-286 | the layer loop computes the specified linking and changes only the nodes |
| `HnswClass.Hnsw.ConnectBack` | packages/retrieval/src/semantic/ann-index.ts:273-285 | the inner loop computes the specified back links with pruning |
| `HnswClass.Hnsw.Query` | packages/retrieval/src/semantic/ann-index.ts:300-320 | the query computes the specified hits; which nodes these are says `SearchHits.SearchHitsAt` |
| `HnswClass.Hnsw.Save` | packages/retrieval/src/semantic/ann-index.ts:324-338 | writes the nodes in key order with the parameters that `RoundTrip` needs |
| `HnswClass.Hnsw.Load` | packages/retrieval/src/semantic/ann-index.ts:340-353 | rebuilds the specified index, next id included |
| `FrameCodec.FindFrameHeaderEnd` | packages/opencode-app/src/bridge/stdio-codec.ts:48-60 | the loop finds the first CR LF CR LF, or reports that there is none |
| `FrameCodec.HeaderEndStable` | packages/opencode-app/src/bridge/stdio-codec.ts:48-60 | a header end once found stays where it is when more bytes arrive |
| `FrameCodec.ParseFrameHeaders` | packages/opencode-app/src/bridge/stdio-codec.ts:62-99 | the line loop computes the specified fold, malformed duplicates included |
| `FrameCodec.AcceptedIff` | packages/opencode-app/src/bridge/stdio-codec.ts:62-99 | a header is accepted exactly when one line names Content-Length and its value is a digits-only safe integer, which is then the length |
| `FrameCodec.MalformedIff` | packages/opencode-app/src/bridge/stdio-codec.ts:62-99 | a header counts as malformed exactly when it names Content-Length and not once with a digits-only safe integer |
| `FrameCodec.OrderDoesNotMatter` | packages/opencode-app/src/bridge/stdio-codec.ts:62-99 | acceptance and length depend only on which lines there are, not on their order |
| `FrameCodec.EncodesIff` | packages/opencode-app/src/bridge/stdio-codec.ts:128-142 | a body is encoded exactly when the limit is valid and the body within it |
| `FrameCodec.FrameReadBack` | packages/opencode-app/src/bridge/stdio-codec.ts:128-146 | whatever follows it, an encoded frame is found and read back with its own length, content type and body, and the rest follows |
| `FrameStream.FrameReaderStable` | packages/opencode-app/src/worker/worker-jsonrpc-stdio.ts:256-286 | later bytes never undo what the front of the buffer decided, and the decision waits for no byte beyond the header or frame it is about |
| `FrameStream.NoHeaderWaits` | packages/opencode-app/src/worker/worker-jsonrpc-stdio.ts:258-261 | without CR LF CR LF the reader waits |
| `FrameStream.HeaderDecides` | packages/opencode-app/src/worker/worker-jsonrpc-stdio.ts:263-286 | with a header the decision is exact: missing length, malformed length, a length above the limit, an incomplete body, or a frame, in this order |
| `FrameStream.RejectedHeader` | packages/opencode-app/src/worker/worker-jsonrpc-stdio.ts:265-278 | a header whose length is missing, malformed or above the limit yields that one error and leaves nothing in the buffer, whatever follows it |
| `FrameStream.CompleteDecides` | packages/opencode-app/src/worker/worker-jsonrpc-stdio.ts:280-289 | a complete body within the limit is taken with exactly its length |
| `FrameStream.Reader.FrameYields` | packages/opencode-app/src/worker/worker-jsonrpc-stdio.ts:288-299 | a complete frame yields its decoded message, or an error if it cannot be decoded, and then what follows it yields |
| `FrameStream.OversizedRejected` | packages/opencode-app/src/worker/worker-jsonrpc-stdio.ts:274-278 | the header an encoder writes for a body above the limit is rejected as too large for every limit and rest |
| `FrameStream.LongBodiesNeverSeen` | packages/opencode-app/src/worker/worker-jsonrpc-stdio.ts:274-293 | over any data events decoders that agree up to the limit read the same, so no longer body is ever decoded |
| `FrameStream.Reader.TruncationTest` | packages/opencode-app/src/worker/worker-jsonrpc-stdio.ts:140-168 | after any data events the expected length is set exactly for a valid incomplete frame at the front, so truncation is reported at the end of input exactly when bytes are left |
| `FrameStream.Reader.ChunksReadTheSame` | packages/opencode-app/src/worker/worker-jsonrpc-stdio.ts:256-301 | if no byte is lost to a rejected header, every way of cutting the input reads the same |
| `FrameStream.Reader.ChunkingInvisibleIff` | packages/opencode-app/src/worker/worker-jsonrpc-stdio.ts:256-301 | the cutting is invisible for all ways of cutting exactly when no bytes follow a rejected header |
| `FrameStream.CutShows` | packages/opencode-app/src/worker/worker-jsonrpc-stdio.ts:268-276 | four bytes of empty header and one more: read at once nothing is left, read as two chunks one byte is |
| `FrameStream.Sender.WrittenIsRead` | packages/opencode-app/src/worker/worker-jsonrpc-stdio.ts:256-301 | of any messages, the encoded frames of those that fit are read back as those messages with no byte left or lost |
| `FrameStream.Sender.MessagesSurviveChunking` | packages/opencode-app/src/worker/worker-jsonrpc-stdio.ts:256-301 | for any messages and any cutting of what is written for them, the worker hands on exactly those that fit, in order, and ends with an empty buffer; the client does exactly when none of them is null |
| `FrameStream.Client.ReadsAlike` | packages/opencode-app/src/bridge/dh-jsonrpc-stdio-client.ts:943-1014 | on every run client and worker hit a faulty body together, and without one they read the same |
| `FrameStream.Client.ReadsMessagesIff` | packages/opencode-app/src/bridge/dh-jsonrpc-stdio-client.ts:985-1003 | what the worker reads as messages the client reads exactly when none of them is null |
| `FrameStream.Client.LeavesUnreadIff` | packages/opencode-app/src/bridge/dh-jsonrpc-stdio-client.ts:985-1003 | after a drain something other than an incomplete frame is left exactly when it stands behind the first body that is undecodable or null |
| `FrameStream.NullHidesFrame` | packages/opencode-app/src/bridge/dh-jsonrpc-stdio-client.ts:1000-1003 | a null message in front of another: the client hands on nothing and leaves the second frame whole in its buffer |
| `WorkerPeer.InitialInv` | packages/opencode-app/src/worker/worker-jsonrpc-stdio.ts:100-132 | a new peer satisfies the invariant of the pending table |
| `WorkerPeer.World.StepKeepsInv` | packages/opencode-app/src/worker/worker-jsonrpc-stdio.ts:134-430 | whatever the handlers do between frames, every request, data event, timeout, write failure, stream error, stream end, handler failure and close keeps it: pending, settled and dropped ids together are each issued id once, pending ids are exactly those with a live timer, and nothing is pending once closed |
| `WorkerPeer.World.RunKeepsInv` | packages/opencode-app/src/worker/worker-jsonrpc-stdio.ts:134-430 | so does every interleaving of them |
| `WorkerPeer.World.RunDropIff` | packages/opencode-app/src/worker/worker-jsonrpc-stdio.ts:322-343 | a run drops an id exactly when it reads a response with a null error for a pending id |
| `WorkerPeer.World.NothingLostIff` | packages/opencode-app/src/worker/worker-jsonrpc-stdio.ts:322-343 | over every run each issued id is pending or settled exactly when no pending request is answered with a null error |
| `WorkerPeer.NullErrorLosesRequest` | packages/opencode-app/src/worker/worker-jsonrpc-stdio.ts:328-338 | a request, one encoded response with a null error, and a close: the id is neither pending nor settled |
| `WorkerPeer.SettledIsOver` | packages/opencode-app/src/worker/worker-jsonrpc-stdio.ts:183-227 | in every reachable state a settled id was issued, is not pending and has no timer |
| `WorkerPeer.SettledAtMostOnce` | packages/opencode-app/src/worker/worker-jsonrpc-stdio.ts:183-227 | in every reachable state no id has settled twice |
| `WorkerPeer.World.CloseIsFinal` | packages/opencode-app/src/worker/worker-jsonrpc-stdio.ts:245-254 | after closing nothing is pending, no later events issue an id, make anything pending or settle anything, and everything issued has settled exactly when nothing was dropped |
| `WorkerPeer.World.StepLog` | packages/opencode-app/src/worker/worker-jsonrpc-stdio.ts:322-343 | outcomes are never taken back, and an id settles with a result or an RPC error only by a well-formed response to that id read in that very data event, and with that response's content |
| `PeerOutcomes.ResponseSettles` | packages/opencode-app/src/worker/worker-jsonrpc-stdio.ts:322-343 | a response to a pending request takes it out of the table with its timer and settles it with the result, or rejects it with the error; with a null error it leaves the table unsettled |
| `PeerOutcomes.StrangeResponse` | packages/opencode-app/src/worker/worker-jsonrpc-stdio.ts:322-326 | a response to nothing pending changes nothing |
| `PeerOutcomes.PassesKeeps` | packages/opencode-app/src/worker/worker-jsonrpc-stdio.ts:303-320 | a request stays pending over every item that is not an answer to it, a fault or a handler that closes |
| `PeerOutcomes.FirstAnswerSettles` | packages/opencode-app/src/worker/worker-jsonrpc-stdio.ts:256-343 | of any items the first answer settles the request with its content, for good |
| `PeerOutcomes.DataAnswers` | packages/opencode-app/src/worker/worker-jsonrpc-stdio.ts:140-147 | so a data event that completes the frame of the first answer settles the request with its content |
| `PeerOutcomes.RequestIssues` | packages/opencode-app/src/worker/worker-jsonrpc-stdio.ts:183-211 | an open peer issues the next id, pending with a timer; a closed one nothing |
| `PeerOutcomes.TimeoutSettles` | packages/opencode-app/src/worker/worker-jsonrpc-stdio.ts:202-209 | a timeout rejects the pending request as timed out and touches nothing else |
| `PeerOutcomes.WriteFailureSettles` | packages/opencode-app/src/worker/worker-jsonrpc-stdio.ts:213-225 | a failed write rejects the pending request as closed and touches nothing else |
| `PeerOutcomes.CloseSettlesAll` | packages/opencode-app/src/worker/worker-jsonrpc-stdio.ts:245-254 | closing rejects everything pending as closed, in order, once |
| `PeerOutcomes.StreamFailureSettles` | packages/opencode-app/src/worker/worker-jsonrpc-stdio.ts:149-155 | an input error rejects everything pending as a protocol error and then reports it |
| `PeerOutcomes.FaultSettles` | packages/opencode-app/src/worker/worker-jsonrpc-stdio.ts:422-428 | a protocol fault is reported and leaves nothing pending: rejected as a protocol error, or as closed if the error callback closes the peer |
| `PeerOutcomes.RejectedHeaderSettles` | packages/opencode-app/src/worker/worker-jsonrpc-stdio.ts:265-278 | so does a data event that starts with a rejected header, and it empties the buffer |
| `PeerOutcomes.FaultsOfItems` | packages/opencode-app/src/worker/worker-jsonrpc-stdio.ts:291-307 | undecodable bodies, messages without version and failing handlers are such faults |
| `PeerOutcomes.EndSettles` | packages/opencode-app/src/worker/worker-jsonrpc-stdio.ts:157-168 | the end of input leaves nothing pending: rejected as a protocol fault if bytes are left, and otherwise as closed |
| `WorkerPeer.MessagesHandledInOrderIff` | packages/opencode-app/src/worker/worker-jsonrpc-stdio.ts:256-320 | however the frames of any messages are cut, the peer ends in the state that handling them one by one in order gives, for all cuttings exactly when no message before the last leaves the peer closed |
| `WorkerPeer.ClosingShowsCut` | packages/opencode-app/src/worker/worker-jsonrpc-stdio.ts:140-147 | two messages for handlers, of which the first handler closes the peer: both are handled in one data event, only the first in two |
| `WorkerPeer.Peer.constructor` | packages/opencode-app/src/worker/worker-jsonrpc-stdio.ts:118-132 | a new peer object shows the initial state |
| `WorkerPeer.Peer.RemoveOne` | packages/opencode-app/src/worker/worker-jsonrpc-stdio.ts:328-329 | takes one id out of the table and its timer with it; nothing happens for an id that is not pending |
| `WorkerPeer.Peer.SettleOne` | packages/opencode-app/src/worker/worker-jsonrpc-stdio.ts:328-342 | takes the id and its timer out of the table and records its outcome; the callers see to it that the id is live |
| `WorkerPeer.Peer.FailAllPending` | packages/opencode-app/src/worker/worker-jsonrpc-stdio.ts:414-420 | the loop rejects every pending id with the reason in order and leaves none |
| `WorkerPeer.Peer.Request` | packages/opencode-app/src/worker/worker-jsonrpc-stdio.ts:183-211 | refuses when closed; otherwise issues the next id, pending with a timer |
| `WorkerPeer.Peer.OnTimeout` | packages/opencode-app/src/worker/worker-jsonrpc-stdio.ts:201-208 | performs the timeout step |
| `WorkerPeer.Peer.OnWriteFailed` | packages/opencode-app/src/worker/worker-jsonrpc-stdio.ts:212-225 | performs the write-failure step, which does nothing for a settled id |
| `WorkerPeer.Peer.OnInputError` | packages/opencode-app/src/worker/worker-jsonrpc-stdio.ts:149-155 | performs the stream-error step |
| `WorkerPeer.Peer.OnHandlerFailed` | packages/opencode-app/src/worker/worker-jsonrpc-stdio.ts:374-385 | a failing notification handler is a protocol error: the error handler is called and everything pending is rejected |
| `WorkerPeer.Peer.CallOut` | packages/opencode-app/src/worker/worker-jsonrpc-stdio.ts:345-385 | calls a handler, performs in order what it does to the peer before it returns or throws, and says whether it threw |
| `WorkerPeer.Peer.HandleCall` | packages/opencode-app/src/worker/worker-jsonrpc-stdio.ts:345-385 | a request's handler that throws leaves the table alone; a notification's is a protocol error, with the error callback called and everything pending rejected |
| `WorkerPeer.Peer.HandleProtocolError` | packages/opencode-app/src/worker/worker-jsonrpc-stdio.ts:422-430 | calls the error handler, then rejects everything that is then pending |
| `WorkerPeer.Peer.OnResponse` | packages/opencode-app/src/worker/worker-jsonrpc-stdio.ts:322-343 | performs the specified response step, which by `PeerOutcomes.ResponseSettles` settles the request with the response's content, or drops it if the error is null |
| `WorkerPeer.Peer.OnInputEnd` | packages/opencode-app/src/worker/worker-jsonrpc-stdio.ts:157-168 | performs the stream-end step: truncation first, then everything pending is rejected |
| `WorkerPeer.Peer.Close` | packages/opencode-app/src/worker/worker-jsonrpc-stdio.ts:245-254 | performs the close step, once |
| `WorkerPeer.Peer.OnData` | packages/opencode-app/src/worker/worker-jsonrpc-stdio.ts:140-147 | performs the data step; data after closing is ignored |
| `WorkerPeer.Peer.DrainFrames` | packages/opencode-app/src/worker/worker-jsonrpc-stdio.ts:256-301 | the loop on the mutable buffer handles exactly the items the specified drain yields, with the handlers acting in between, and leaves its rest and expected length |
| `WorkerPeer.Peer.ReadFront` | packages/opencode-app/src/worker/worker-jsonrpc-stdio.ts:258-286 | one look at the buffer decides as specified, and the decision is the one of `FrameStream.HeaderDecides` |
| `WorkerPeer.Peer.HandleBody` | packages/opencode-app/src/worker/worker-jsonrpc-stdio.ts:292-300 | an undecodable body is a protocol error and the loop goes on |
| `WorkerPeer.Peer.HandleIncoming` | packages/opencode-app/src/worker/worker-jsonrpc-stdio.ts:303-343 | dispatches by message kind as specified: malformed messages are protocol errors, responses go to the table, the rest to the handlers |
| `PatchHunks.FindLineSequence` | packages/opencode-app/src/tools/apply-patch-tool.ts:177-190 | the nested loops compute the specified search |
| `PatchHunks.FindIsFirst` | packages/opencode-app/src/tools/apply-patch-tool.ts:177-190 | a position found is a match with none before it from the start index on; nothing found means there is no match |
| `PatchHunks.ReplaceHunks` | packages/opencode-app/src/tools/apply-patch-tool.ts:161-172 | the cursor loop replaces hunk by hunk as specified or fails |
| `PatchHunks.ApplyUpdateHunks` | packages/opencode-app/src/tools/apply-patch-tool.ts:156-175 | splitting, the cursor loop and joining compute the specified text or failure |
| `PatchHunks.UpdateIsSplice` | packages/opencode-app/src/tools/apply-patch-tool.ts:156-175 | updating succeeds exactly when the hunks fit the original file in order on disjoint ranges, and then replaces at once the leftmost such ranges and keeps every other line |
| `PatchHunks.GreedyComplete` | packages/opencode-app/src/tools/apply-patch-tool.ts:161-172 | taking the first match each time never misses a way to place the hunks |
| `PatchHunks.ContextOnlyUnchangedIff` | packages/opencode-app/src/tools/apply-patch-tool.ts:156-197 | hunks that change no line give the text back with CR LF turned into LF, hence unchanged exactly when it has none |
| `PatchHunks.ContextRewritesCrLf` | packages/opencode-app/src/tools/apply-patch-tool.ts:156-197 | a hunk that only quotes the line `a` turns `a` CR LF into `a` LF |
| `PatchHunks.UpdateLineCount` | packages/opencode-app/src/tools/apply-patch-tool.ts:156-197 | the line count changes by what the hunks add and remove, less one exactly when the file has no final line break and the edited text ends with an empty line |
| `PatchHunks.AddedBlankIsLost` | packages/opencode-app/src/tools/apply-patch-tool.ts:156-197 | adding an empty line after `a` in a file without final line break adds no line |
| `PatchParser.ParseApplyPatch` | packages/opencode-app/src/tools/apply-patch-tool.ts:57-128 | the loops compute the specified parse or rejection |
| `PatchParser.ReadOperations` | packages/opencode-app/src/tools/apply-patch-tool.ts:64-124 | the directive loop computes the specified operations |
| `PatchParser.ReadOperation` | packages/opencode-app/src/tools/apply-patch-tool.ts:67-123 | one directive is read with its body and its length as specified |
| `PatchParser.ReadAddedLines` | packages/opencode-app/src/tools/apply-patch-tool.ts:70-77 | the loop collects the added lines up to the next directive or rejects |
| `PatchParser.ReadUpdateBody` | packages/opencode-app/src/tools/apply-patch-tool.ts:90-118 | the loop collects the hunks up to the next directive or rejects |
| `PatchParser.PrintedPatchParses` | packages/opencode-app/src/tools/apply-patch-tool.ts:57-128 | printing any operations in patch syntax and parsing the text returns them, each hunk projected to its old and its new side |
| `PatchParser.ParsedShape` | packages/opencode-app/src/tools/apply-patch-tool.ts:118-126 | an accepted patch has an operation, and each of its updates has a hunk |
| `PatchParser.ParsedNoLf` | packages/opencode-app/src/tools/apply-patch-tool.ts:57-128 | no path, added line, old line or new line of a parsed operation contains a line feed |
| `PatchGrammar.ParsedIsWritten` | packages/opencode-app/src/tools/apply-patch-tool.ts:57-128 | every accepted patch is written by a tree of sections between the markers, with empty lines behind, and means what the tree says |
| `PatchGrammar.WrittenIsParsed` | packages/opencode-app/src/tools/apply-patch-tool.ts:57-128 | whatever a tree writes is accepted, with hunk headers of any text, a missing first header and white space around paths |
| `PatchGrammar.AcceptsExactly` | packages/opencode-app/src/tools/apply-patch-tool.ts:57-128 | so a text parses to given operations exactly when some tree with this meaning writes it, and every other text is rejected |
| `DiffSummary.SummarizeTextDiff` | packages/opencode-app/src/tools/diff-summary.ts:5-36 | the summary computed is the specified one |
| `DiffSummary.MeasureEnds` | packages/opencode-app/src/tools/diff-summary.ts:13-28 | the two loops measure the common prefix and, beyond it, the common suffix |
| `DiffSummary.SummaryReplacesMiddle` | packages/opencode-app/src/tools/diff-summary.ts:5-36 | replacing `deletions` lines after the common prefix by `additions` lines turns the old lines into the new; no longer prefix is common, and given it no longer suffix |
| `DiffSummary.SummaryRebuilds` | packages/opencode-app/src/tools/diff-summary.ts:5-36 | writing the replaced lines back gives the new text itself, if that has no CR LF |
| `DiffSummary.SummaryBalances` | packages/opencode-app/src/tools/diff-summary.ts:29-35 | for any two texts additions minus deletions is the change in the number of lines, and neither is negative |
| `DiffSummary.CombineDiffSummaries` | packages/opencode-app/src/tools/diff-summary.ts:38-55 | the loop computes the specified total |
| `DiffSummary.CombiningConserves` | packages/opencode-app/src/tools/diff-summary.ts:38-55 | the total conserves additions and deletions, lists every path once and counts the distinct ones |
| `PatchTool.ApplyOperations` | packages/opencode-app/src/tools/apply-patch-tool.ts:24-55 | the loop computes the specified file system, summaries and outcome |
| `PatchTool.PatchConservesLines` | packages/opencode-app/src/tools/apply-patch-tool.ts:24-55 | over a whole successful patch the lines of all files together change by the reported additions minus deletions |
| `PatchTool.OtherFilesUntouched` | packages/opencode-app/src/tools/apply-patch-tool.ts:130-154 | a file that no operation resolves to is neither created, changed nor deleted, whether the patch succeeds or not |
| `PatchTool.FailureKeepsPrefix` | packages/opencode-app/src/tools/apply-patch-tool.ts:28-54 | a failing patch leaves exactly the effects of the operations before the first one that fails |
| `PatchTool.SucceedsIff` | packages/opencode-app/src/tools/apply-patch-tool.ts:24-55 | for all operations, however they interleave: the run succeeds exactly when every path resolves and every file for itself takes its own operations one after the other, and then every file is what these make of it; what an added file holds says `PatchTool.AddedFile` |
| `PatchTool.FailureUnchangedIff` | packages/opencode-app/src/tools/apply-patch-tool.ts:28-54 | a run that fails at an operation leaves the files unchanged exactly when for every file its own operations before that one give back its content |
| `PatchTool.AllOrNothingIff` | packages/opencode-app/src/tools/apply-patch-tool.ts:28-54 | with one operation per file at most: all succeed exactly when each applies to the files as they were, and the files end unchanged exactly when no operation before the first failing one changes anything |
| `PatchTool.HalfAppliedPatch` | packages/opencode-app/src/tools/apply-patch-tool.ts:24-55 | a patch that adds one file and deletes a missing one fails and leaves the added file |
| `PatchTool.FormattedLines` | packages/opencode-app/src/tools/apply-patch-tool.ts:199-201 | the text written for the lines of an added file has exactly these lines, and ends in a line break exactly if there are any |
| `PatchTool.AddedFile` | packages/opencode-app/src/tools/apply-patch-tool.ts:131-140 | adding a file writes these lines there and nowhere else, and counts each as an addition and nothing as a deletion |
| `PatchTool.PrintedAddIsWritten` | packages/opencode-app/src/tools/apply-patch-tool.ts:24-55 | so does running the printed patch |
| `PatchTool.ReportsChange` | packages/opencode-app/src/tools/apply-patch-tool.ts:130-154 | an operation names its file in the summary exactly when it changes the text there |
| `PatchTool.RunReportsChanges` | packages/opencode-app/src/tools/apply-patch-tool.ts:24-55 | over a successful run every file whose text changed is named, and every file named is one that an operation resolves to |
| `PatchTool.EmptyFileUnreported` | packages/opencode-app/src/tools/apply-patch-tool.ts:131-140 | adding an empty file creates it and reports nothing |
| `PatchTool.UpdateReportsNet` | packages/opencode-app/src/tools/apply-patch-tool.ts:149-175 | for any parsed update that applies, reported additions minus deletions equal what its hunks add and remove, less one exactly when an empty last line is lost; in a file with a final line break always exactly that |
| `GeminiSchema.SanitizeGemini` | packages/providers/src/provider/transform.ts:1116-1161 | the recursive loops that fill and repair `result` compute the specified sanitizer |
| `GeminiSchema.SanitizedNormal` | packages/providers/src/provider/transform.ts:1091-1165 | every node of a result has string enums, no numeric type ahead of an enum, required names among the properties on object nodes, typed items on combiner-free arrays, and no properties or required on combiner-free typed non-objects |
| `GeminiSchema.NumericEnumIff` | packages/providers/src/provider/transform.ts:1127-1134 | a sanitized node has an enumeration and a numeric type exactly when the node had both with the type behind the enumeration |
| `GeminiSchema.NumericEnumStays` | packages/providers/src/provider/transform.ts:1127-1134 | the enumeration of 1 followed by type integer comes out as strings of type integer |
| `GeminiSchema.SanitizeNormal` | packages/providers/src/provider/transform.ts:1116-1161 | a tree of such nodes is returned as it is |
| `GeminiSchema.Idempotent` | packages/providers/src/provider/transform.ts:1091-1165 | sanitizing twice is sanitizing once, on every schema tree |
| `GeminiSchema.UnchangedIff` | packages/providers/src/provider/transform.ts:1091-1165 | exactly the normal trees are left unchanged |
| `GeminiSchema.NodeMeaning` | packages/providers/src/provider/transform.ts:1126-1158 | for every key, what a sanitized node holds under it: the copied value, except that items are typed on arrays, required is filtered on objects, and both required and properties go on typed non-objects; no other key appears |
| `GeminiSchema.ObjectProperties` | packages/providers/src/provider/transform.ts:1126-1145 | the properties of an object node are the sanitized map of its declared parameters |
| `GeminiSchema.PropertySurvivesIff` | packages/providers/src/provider/transform.ts:1156-1160 | a declared parameter is still declared afterwards exactly unless it is named properties or required and the map of parameters holds a true value other than `object` under the name type, and no combiner |
| `GeminiSchema.RequiredParameterLost` | packages/providers/src/provider/transform.ts:1156-1160 | of two parameters named type and required the second is deleted |
| `GeminiSchema.KeepFoundOk` | packages/providers/src/provider/transform.ts:1141-1144 | the required list afterwards holds exactly what was required and is found among the properties |
| `GeminiSchema.ThrowsIff` | packages/providers/src/provider/transform.ts:1116-1145 | the sanitizer throws exactly on trees with a node whose membership test is applied to a true non-object or to a name that has no text, or with an enumeration of something that has no text |
| `GeminiSchema.SanitizedTextless` | packages/providers/src/provider/transform.ts:1116-1161 | sanitizing never changes whether a value has a text |
| `GeminiSchema.EnumWithoutTextThrows` | packages/providers/src/provider/transform.ts:1127-1130 | an enumeration of an object with a key toString makes it throw |
| `GeminiSchema.RequiredWithoutTextThrows` | packages/providers/src/provider/transform.ts:1141-1144 | so does an object node that requires one |
| `GeminiSchema.BarePropertiesThrow` | packages/providers/src/provider/transform.ts:1141-1144 | an object node with properties true and a required name makes it throw |
| `GeminiRules.EnumBecomesStrings` | packages/providers/src/provider/transform.ts:1127-1129 | an enumeration becomes the texts of its members, in order |
| `GeminiRules.TypeOutcome` | packages/providers/src/provider/transform.ts:1127-1133 | a textual type stays, but integer and number become string where an enumeration follows |
| `GeminiRules.MissingItems` | packages/providers/src/provider/transform.ts:1146-1154 | an array without combiner and with items missing or null gets items of type string |
| `GeminiRules.ItemsOutcome` | packages/providers/src/provider/transform.ts:1146-1154 | items without any of the fourteen schema keywords and without combiner get the type string; all others stay as sanitized |
| `GeminiRules.ObjectKeysOutcome` | packages/providers/src/provider/transform.ts:1156-1160 | a node keeps properties and required exactly unless it has a true type other than object and no combiner |
| `GeminiRules.RequiredOutcome` | packages/providers/src/provider/transform.ts:1141-1144 | of the names required of an object node exactly those declared in its sanitized properties, or had by every object, stay, in order |
| `GeminiRules.OtherKeysStay` | packages/providers/src/provider/transform.ts:1126-1139 | every other key holds its sanitized value, and no other key appears |
| `McpRouting.Request.ChooseMcps` | packages/opencode-app/src/planner/choose-mcps.ts:21-152 | the selection loop with its fallback computes the specified plan |
| `McpRouting.Request.SelectBest` | packages/opencode-app/src/planner/choose-mcps.ts:121-142 | the loop selects the first candidates up to the quota and allows exactly those |
| `McpRouting.Request.CandidatesOk` | packages/opencode-app/src/planner/choose-mcps.ts:39-119 | candidates are exactly the registry entries that pass every check, each once, best score first |
| `McpRouting.Request.PlanOk` | packages/opencode-app/src/planner/choose-mcps.ts:121-152 | a plan selects distinct ids, at most max(1, maxSelected), decides exactly about those and blocks nothing |
| `McpRouting.Request.PlanTakesBest` | packages/opencode-app/src/planner/choose-mcps.ts:107-142 | a candidate is passed over only for candidates that score at least as high |
| `RoutingOutcomes.PlanIsBest` | packages/opencode-app/src/planner/choose-mcps.ts:39-142 | with a positive quota the plan allows the best servers that fit lane, role, version, entry point, capabilities and the fail-safes set, in order of priority plus 45 for a shared tag and then of id; as many as there are up to the quota, and none is left out that is ahead of one taken |
| `RoutingOutcomes.ScoreIs` | packages/opencode-app/src/registry/mcp-routing-policy.ts:44-62 | a tag shared with the intent is worth 45 points of priority |
| `RoutingOutcomes.RankedInOrder` | packages/opencode-app/src/planner/choose-mcps.ts:114-119 | the order is by score and among equal scores by id |
| `RoutingOutcomes.PlanWithoutQuota` | packages/opencode-app/src/planner/choose-mcps.ts:132-140 | only without a positive quota the planner falls back, to the fitting server of best priority that is not down, or to none |
| `McpRouting.Request.EnforceMcpRouting` | packages/opencode-app/src/executor/enforce-mcp-routing.ts:26-321 | the loop over the plan, the clean-up and the global fallback compute the specified routing |
| `McpRouting.Request.FindFallback` | packages/opencode-app/src/executor/enforce-mcp-routing.ts:360-408 | the loop computes the specified choice among the fallback targets |
| `McpRouting.Request.PickFallback` | packages/opencode-app/src/executor/enforce-mcp-routing.ts:360-408 | a fallback is a target that is usable and not blocked; none means no target is |
| `McpRouting.Request.DedupeExcluding` | packages/opencode-app/src/executor/enforce-mcp-routing.ts:410-422 | the loop computes the specified duplicate-free list without blocked ids |
| `McpRouting.Request.JudgeOk` | packages/opencode-app/src/executor/enforce-mcp-routing.ts:58-283 | a server is kept only if it is usable, fits lane, role and capabilities and is not refused for lack of authentication; kept and not degraded means it passes every check |
| `RoutingOutcomes.JudgeIs` | packages/opencode-app/src/executor/enforce-mcp-routing.ts:58-283 | a server that fits the request is kept exactly if its record is fresh for the fail-safes in force, up, not refused for lack of authentication and not degraded beyond its health class, and is replaced otherwise |
| `RoutingOutcomes.PlannedOutcome` | packages/opencode-app/src/executor/enforce-mcp-routing.ts:26-321 | a planned server is selected exactly if it is healthy in that sense and blocked exactly if it is not; unless it also serves as a fallback it is allowed, or modified if degraded |
| `RoutingOutcomes.BlockedWasPlanned` | packages/opencode-app/src/executor/enforce-mcp-routing.ts:49-56 | nothing else is blocked |
| `RoutingOutcomes.SelectedIsServiceable` | packages/opencode-app/src/executor/enforce-mcp-routing.ts:26-321 | whatever is selected has a supported version, an entry point, the capabilities required, and a record that is up and fresh for the fail-safes in force |
| `RoutingOutcomes.UnhealthyIsReplaced` | packages/opencode-app/src/executor/enforce-mcp-routing.ts:111-281 | an unhealthy planned server is replaced by one of its fallback targets, if it has serviceable ones and none of them ends up blocked |
| `RoutingOutcomes.FirstTarget` | packages/opencode-app/src/executor/enforce-mcp-routing.ts:360-408 | the fallback taken is the first target that is usable and not blocked |
| `RoutingOutcomes.HealthyPlanStands` | packages/opencode-app/src/executor/enforce-mcp-routing.ts:26-321 | a plan of healthy servers is routed as it is |
| `RoutingOutcomes.LastResort` | packages/opencode-app/src/executor/enforce-mcp-routing.ts:295-309 | a server that is neither planned nor a fallback target is the only one selected and has the best priority of all serviceable ones not blocked |
| `McpRouting.Request.GlobalFallbackOk` | packages/opencode-app/src/executor/enforce-mcp-routing.ts:424-471 | the global fallback is usable and not blocked; none means that every usable server is blocked |
| `McpRouting.Request.RoutingGuarantees` | packages/opencode-app/src/executor/enforce-mcp-routing.ts:26-321 | for every registry with unique ids and every request: selected ids are distinct, unblocked, usable, decided otherwise than block and at most max(1, maxSelected); blocked means decided block; allow means every check passed; a planned id that is selected fits lane, role and capabilities and is not refused for lack of authentication; each planned id is selected or blocked; an empty selection means every usable server is blocked |
| `McpRouting.Request.SelectedFrom` | packages/opencode-app/src/executor/enforce-mcp-routing.ts:58-321 | every selected id is a planned one that was kept, a declared fallback of a planned one that was replaced, or, with everything planned blocked, the global fallback |
| `McpRouting.Request.DefaultsNeedFreshRecord` | packages/opencode-app/src/executor/enforce-mcp-routing.ts:26-56 | under the default fail-safes every selected server has a fresh runtime record with its signal present |
| `McpRouting.Request.DefaultsDiffer` | packages/opencode-app/src/executor/enforce-mcp-routing.ts:42-43 | under the defaults the planner considers a server whatever its runtime record, and the enforcer replaces it exactly when the record is missing, stale, without signal, unavailable, unauthenticated or degraded beyond use |
| `McpRouting.Request.UnknownServerIsPlannedAndBlocked` | packages/opencode-app/src/executor/enforce-mcp-routing.ts:42-43 | a single suitable server without a runtime record is planned and then blocked |
| `WorkspaceScan.Scanner.Walk` | packages/intelligence/src/workspace/detect-projects.ts:75-172 | the recursive walk on shared counters and files computes the specified scan |
| `WorkspaceScan.Scanner.Visit` | packages/intelligence/src/workspace/detect-projects.ts:127-170 | visiting one file updates files, counters and stop reason as specified |
| `WorkspaceScan.Setup.ScanIsComplete` | packages/intelligence/src/workspace/detect-projects.ts:59-180 | every scan returns the first eligible files in walk order, sorted by path; without a stop reason exactly all of them; and it has none exactly when the tree gives no cause to stop and the eligible files stay below the limit |
| `WorkspaceScan.Setup.ScanBalances` | packages/intelligence/src/workspace/detect-projects.ts:59-180 | always visited files, plus one for an unreadable directory, are those indexed, ignored or failed, and the indexed are the files returned, at most max(1, maxFiles) |
| `WorkspaceScan.Setup.WantedIsFound` | packages/intelligence/src/workspace/detect-projects.ts:97-165 | every file with an indexed extension, readable, not too large and with a path in the workspace, to which a route of directories leads that are not ignored and lie in the workspace, is among the files to find, with its path, extension and size |
| `WorkspaceScan.Setup.FoundIsWanted` | packages/intelligence/src/workspace/detect-projects.ts:97-165 | and nothing else is |
| `WorkspaceScan.Setup.CalmDirs` | packages/intelligence/src/workspace/detect-projects.ts:80-95 | if nothing disturbs a scan, every directory on such a route is readable and within the depth limit |
| `WorkspaceScan.Setup.CalmFiles` | packages/intelligence/src/workspace/detect-projects.ts:144-148 | and no file there with an indexed extension is too large |
| `WorkspaceScan.Setup.Disturbance` | packages/intelligence/src/workspace/detect-projects.ts:80-148 | whatever disturbs a scan is such a directory or such a file |
| `WorkspaceScan.Setup.ScanCounts` | packages/intelligence/src/workspace/detect-projects.ts:63-172 | a scan that is not stopped counts every file it came to, every one ignored, every one unreadable and every entry passed over, each once |
| `WorkspaceScan.Setup.WalkDirCollects` | packages/intelligence/src/workspace/detect-projects.ts:75-172 | from any state that has not stopped, walking a directory adds a prefix of its eligible files, all of them exactly if nothing stops it |
| `WorkspaceScan.Setup.WalkDirBalances` | packages/intelligence/src/workspace/detect-projects.ts:75-172 | walking any directory from any balanced state keeps the counters balanced |
| `Glob.GlobSource` | packages/opencode-app/src/tools/search-tool.ts:119-141 | the index loop writes the text of the compiled pieces |
| `Glob.SourceReadsBack` | packages/opencode-app/src/tools/search-tool.ts:143-145 | the written expression reads back as exactly those pieces: escaping leaves no literal with a meaning of its own |
| `Glob.CompiledMeansGlob` | packages/opencode-app/src/tools/search-tool.ts:119-141 | on one-line paths the pieces accept exactly what a direct recursive reading of the pattern accepts |
| `Glob.MatcherMeansGlob` | packages/opencode-app/src/tools/search-tool.ts:119-145 | so does the matcher that reads the written expression |
| `Glob.EverythingMatches` | packages/opencode-app/src/tools/search-tool.ts:119-141 | `**/*` means every one-line path |
| `Glob.AgreeIffOneLine` | packages/opencode-app/src/tools/search-tool.ts:119-145 | matcher and meaning agree on a path for all patterns exactly when the path has no line terminator |
| `Glob.NameWithLineFeed` | packages/opencode-app/src/tools/search-tool.ts:119-141 | `**` does not match a name with a line feed, which it means |
| `Glob.QuestionTakesOneUnit` | packages/opencode-app/src/tools/search-tool.ts:119-145 | `?` matches exactly the paths of one code unit other than a slash |
| `Glob.ExecuteGlob` | packages/opencode-app/src/tools/search-tool.ts:22-56 | returns the first `limit` paths that match from either base, and reports truncation exactly when there are more |
| `Glob.HitInPlace` | packages/opencode-app/src/tools/search-tool.ts:22-56 | every file walked puts its path in its place of the list, exactly if it matches from either base |
| `KeyCase.Folding.KeyRoundTripIff` | packages/opencode-sdk/src/protocol/key-normalization.ts:1-10 | under every lawful lower-casing, any key survives conversion to snake case and back exactly when it is proper and has no letter beyond ASCII that folds |
| `KeyCase.ThereAndBack` | packages/opencode-sdk/src/protocol/key-normalization.ts:1-10 | an alphanumeric key converted to snake case and back is its flattened form |
| `KeyCase.FlatIsProper` | packages/opencode-sdk/src/protocol/key-normalization.ts:1-10 | the flattened form has the same length and is steady: it starts with no capital or underscore, and every capital follows a small letter or digit |
| `KeyCase.NormalizeValue` | packages/opencode-sdk/src/protocol/key-normalization.ts:12-30 | the recursion that fills `outputRecord` computes the specified renaming |
| `KeyCase.NoCollisions` | packages/opencode-sdk/src/protocol/key-normalization.ts:21-24 | if the new keys are distinct, every field is kept in place under its new key |
| `KeyCase.SnakeKeepsFields` | packages/opencode-sdk/src/protocol/key-normalization.ts:12-30 | distinct keys that survive stay distinct in snake case, so no field of such an object is lost |
| `KeyCase.NormalizeUndone` | packages/opencode-sdk/src/protocol/key-normalization.ts:12-37 | one renaming undoes another on whole payloads if it does so on their keys |
| `KeyCase.RoundTripIff` | packages/opencode-sdk/src/protocol/key-normalization.ts:1-37 | any payload survives the round trip exactly when all its keys do |
| `KeyCase.AccentIsLost` | packages/opencode-sdk/src/protocol/key-normalization.ts:1-6 | a capital beyond ASCII does not survive |
| `KeyCase.AcronymIsLost` | packages/opencode-sdk/src/protocol/key-normalization.ts:1-10 | `userID` and `user_id` do not survive |
| `KeyCase.BackSurvivesIff` | packages/opencode-sdk/src/protocol/key-normalization.ts:1-10 | what comes back of any key survives a second round trip exactly when the snake case has every underscore before a letter behind a small letter or digit that is not made a capital |
| `KeyCase.BackSurvives` | packages/opencode-sdk/src/protocol/key-normalization.ts:1-37 | for payloads with such keys at every depth, a second round trip changes nothing |
| `KeyCase.AlnumComesBack` | packages/opencode-sdk/src/protocol/key-normalization.ts:1-10 | keys of letters and digits are such keys |
| `KeyCase.LeadingUnderscore` | packages/opencode-sdk/src/protocol/key-normalization.ts:1-10 | `_a` comes back as `A`, which does not survive |
| `KeyWords.CamelToSnake` | packages/opencode-sdk/src/protocol/key-normalization.ts:1-6 | words joined by capitals become the same words joined by underscores, if only the last is a single letter |
| `KeyWords.SnakeToCamel` | packages/opencode-sdk/src/protocol/key-normalization.ts:8-10 | words joined by underscores become the same words joined by capitals |
| `KeyWords.DashedToSnake` | packages/opencode-sdk/src/protocol/key-normalization.ts:1-6 | whatever runs of dashes and white space stand between words, each becomes one underscore |
| `Chunker.File.ChunkBySymbols` | packages/retrieval/src/semantic/chunker.ts:68-126 | sorting and the cursor loop compute the specified chunks |
| `Chunker.ChunksQuoteIff` | packages/retrieval/src/semantic/chunker.ts:79-126 | for files of a given length every chunk names lines of the file and holds exactly their text, exactly when no gap or symbol that reads something has a bound outside the file |
| `Chunker.ChunksQuote` | packages/retrieval/src/semantic/chunker.ts:79-126 | so it is for symbols that count from 1 and start in the file or right behind it |
| `Chunker.SymbolBehindFile` | packages/retrieval/src/semantic/chunker.ts:84-96 | a symbol at line 10 of a two-line file gives a gap chunk that names nine lines |
| `Chunker.File.SymbolHasChunk` | packages/retrieval/src/semantic/chunker.ts:98-110 | every symbol whose lines are not blank has a chunk with its id, its lines and their text |
| `Chunker.File.ChunkHasSymbol` | packages/retrieval/src/semantic/chunker.ts:98-110 | a chunk that names a symbol covers that symbol's lines |
| `Chunker.InkKeptIff` | packages/retrieval/src/semantic/chunker.ts:68-126 | for any symbols, every file of a given length keeps what ink its line has in a chunk, exactly when some gap or symbol that names the line also reads it |
| `Chunker.OneSymbolIff` | packages/retrieval/src/semantic/chunker.ts:79-126 | a single symbol keeps all lines exactly when it starts at line 1 or later, ends at line 0, or its start counted from the end of the file reaches the first line |
| `Chunker.NoInkLost` | packages/retrieval/src/semantic/chunker.ts:68-126 | symbols that count from 1 keep every line that is not blank in a chunk, however they nest or overlap |
| `Chunker.NoChunkIsBlank` | packages/retrieval/src/semantic/chunker.ts:68-126 | no chunk is blank |
| `Chunker.ZeroBasedLosesLine` | packages/retrieval/src/semantic/chunker.ts:68-126 | a symbol from line 0 to 1 of a two-line file leaves the first line in no chunk |
| `Chunker.DisjointChunks` | packages/retrieval/src/semantic/chunker.ts:68-126 | symbols on disjoint lines give chunks on disjoint lines, in file order |
| `Chunker.WindowLoopEndsIff` | packages/retrieval/src/semantic/chunker.ts:143-163 | the window loop ends exactly when the overlap is below the window size or one window holds the file |
| `Chunker.OverlapEqualToWindowLoops` | packages/retrieval/src/semantic/chunker.ts:143-163 | one-line windows that overlap by one line never end on two lines, after any number of rounds |
| `Chunker.WindowsOk` | packages/retrieval/src/semantic/chunker.ts:143-163 | for every window size and overlap, negative ones included, with which the loop ends: windows start where asked, each ends `maxLines` further or at the end of the file, only the last at the end or past it, and neighbours share exactly `overlap` lines |
| `Chunker.File.ChunkByWindow` | packages/retrieval/src/semantic/chunker.ts:131-166 | the window loop computes the specified chunks |
| `Chunker.WindowsQuoteIff` | packages/retrieval/src/semantic/chunker.ts:145-159 | for files of a given length every window's chunk names lines of the file and holds exactly their text, exactly when the window size is not negative or no window takes in a line |
| `Chunker.NegativeWindowMisquotes` | packages/retrieval/src/semantic/chunker.ts:145-159 | a window size of -1 on two lines gives a chunk that holds the first line and names none |
| `Chunker.NoInkLostByWindow` | packages/retrieval/src/semantic/chunker.ts:131-166 | every line that is not blank lies in a window's chunk |
| `Chunker.NoWindowIsBlank` | packages/retrieval/src/semantic/chunker.ts:131-166 | no window becomes a blank chunk |
| `Chunker.WindowsKeepInkIff` | packages/retrieval/src/semantic/chunker.ts:131-166 | for files of a given length the windows keep every line that is not blank exactly when the overlap is not negative or one window holds the file |
| `Chunker.NegativeOverlapSkips` | packages/retrieval/src/semantic/chunker.ts:143-163 | one-line windows with overlap -1 lose the second of three lines |

## Left out

- Process spawning, streams, timers as wall-clock time, SQLite, HTTP and reading files: timeouts, write failures, stream errors and stream end are steps in any order; files, directories and embeddings are values.
- JSON and MessagePack: the body codec is an arbitrary encode and decode pair that round-trips on the messages sent, and it stays fixed; codec negotiation is not part of the model.
- Cosine similarity: similarity is an arbitrary real-valued function, so rounding, NaN and the arithmetic itself are not modelled.
- Random layers: the layer of each insertion is an argument; `m`, `efConstruction` and the beam width are at least 1.
- Index graphs: links are not claimed to be symmetric, and every node is claimed reachable only up to `2m + 1` nodes, because pruning drops one direction only.
- `HnswIndex.InsertLinks`: when more than `efConstruction` nodes are reachable, which of them are linked is only what `HnswSearch.Scope.SearchReturnsNearest` says of the beam search, because the beam may miss nearer ones.
- Heaps: the minimum and the maximum heap are one class with an order, whose array is a sequence field.
- Index objects share no arrays with what they serialize; the source keeps the same neighbour arrays in both.
- Bridge client: its pending table, timeouts and close have the worker's shape and would repeat `WorkerPeer`; only its drain loop, which differs, is modelled.
- Handlers of the peer: what they do synchronously (requests, close, throw) is a parameter; a handler that feeds data back into the peer in the same turn, an error handler that throws, and what Node does about the rejection left behind by a null error are not modelled, nor are response writing and handler results.
- Header text is compared by ASCII case folding.
- Patch paths: resolving a path inside the repository is a parameter; directories are not modelled, and two paths that resolve alike are one file.
- Patch error messages are not modelled; a rejected patch is `None`.
- MCP routing leaves out warnings, reason and rejection lists, touching of runtime state on disk, and the inference of intent tags from text, which are a parameter.
- `McpRouting.Request.RoutingGuarantees`: does not claim lane, role, capabilities or authentication for servers that came in as fallbacks, because the program does not check them there.
- Locale comparison of ids and paths is an arbitrary ranking.
- Workspace discovery by markers, choice of leaf roots, stable file ids and path functions: the scan starts at a given root, and the path tests are parameters; symbolic links are entries of their own kind.
- `Chunker.NoInkLost`: takes symbols to count from 1, as packages/intelligence/src/parser/ast-symbol-extractor.ts:130 makes them; the exact condition for any symbols is `Chunker.InkKeptIff`.
- Chunker: token estimates and content hashes are not modelled.
- `Chunker.File.ChunkByWindow`: requires what `Chunker.WindowLoopEndsIff` shows to be needed for the loop to end.
- Gemini schemas: the text of a value that has one is a parameter that leaves strings alone; numeric-looking keys are not reordered and `__proto__` is an ordinary key. The other branches of the provider transformation are not modelled.
- `KeyWords.CamelToSnake`: for keys made of words; of all other keys `KeyCase.Folding.KeyRoundTripIff` says whether they come back.
- Glob tool: directory walking, skipped directories and the grep tool are not modelled.
- `KeyCase.ThereAndBack`: says what a key becomes only for letters and digits; for all other keys only whether it changes is stated.
- `PatchTool.AllOrNothingIff`: for at most one operation per file, where the conditions can be read off the files as they were; `PatchTool.SucceedsIff` and `PatchTool.FailureUnchangedIff` are for all operations.
- Strings are sequences of characters; in `Glob` a character is a UTF-16 code unit. Elsewhere the program looks only at single characters of ASCII and at white space, so the difference does not show.
