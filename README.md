# JCarder, modelled in Dafny

JCarder finds potential deadlocks in Java programs. It has two halves.

- **The agent** is loaded into the program under test. It rewrites the bytecode of every class it instruments, so that each monitor enter and exit calls back into the agent first: `MonitorEnterMethodAdapter` handles `synchronized` blocks and `SimulateMethodSyncMethodAdapter` handles `synchronized` methods. The callback (`EventListener`) decides which monitors to track. It gives each lock and each locking context an id, and writes them to a context file (`ContextFileWriter`). It writes one lock event per enter and exit to an event file (`EventFileWriter`).
- **The analyzer** reads the two files back (`ContextFileReader`, `EventFileReader`) and builds a lock graph (`LockGraphBuilder`). The graph has an edge from lock A to lock B whenever some thread took B while holding A. The analyzer then merges duplicated edges (`DuplicatedEdgesHandler`) and searches the graph for cycles (`CycleDetector`). It filters out cycles that are single-threaded, gated or alike, and renders what is left as Graphviz text (`GraphvizGenerator`).

Around these sit the option parser and formatter, two logging packages, the statistics counters, and two maintenance scripts. `script/download-3pps.py` fetches the third-party jars. `script/update-blurb.py` puts the licence header at the top of every Java source file. All of these are modelled too.

Every Java class or script of the core is one Dafny module, usually in a file of its own:

- **Events and contexts:** `Bytes` (big-endian integers, UTF-8 encoding, and decoding with replacement characters), `LockEvents`, `Locks`, `LockingContexts`, `ContextMemory`, `ContextReaders`, `ContextFileWriter`, `ContextFileReader`, `EventFileWriter` and `EventFileReader`.
- **The analyzer:** `LockTransitions`, `LockGraph` (LockNode, LockEdge and LockMultiEdge), `LockGraphBuilders`, `Cycles`, `CycleDetectors`, `DuplicatedEdgesHandlers` and `Graphviz`.
- **The agent:** `EventListeners`, `LockIdGenerators`, `LockingContextIdCaches`, `ThreadLocalEnteredMonitors`, `IdentityWeakHashMaps` and `JavaAgents`.
- **Instrumentation:** `Instructions` (the bytecode the adapters emit, as a datatype), `StackAnalyzers`, `MonitorEnterAdapters`, `SimulateMethodSyncs`, `LockClassSubstituters`, `ClassAdapters`, `ClassTransformers`, `HierarchyListeners`, `InstrumentationContexts`, `InstrumentationUtilities`, `InstrumentedAttributes` and `InstrumentConfigs`.
- **Utilities:** `OptionParsers`, `OptionFormatters`, `Logging` (`util/logging`), `UtilLogger` (`util/Logger`) and `Counters`.
- **Scripts:** `Download3pps` and `UpdateBlurb`.
- **Shared helpers:** `Wrappers` (Option and Result), `JavaLang` (Java's int arithmetic, `String.hashCode`, `equalsIgnoreCase`, string helpers) and `MapFolds` (sums and unions over maps).

The model takes the source's own form:

- Objects whose fields change become classes, with `modifies` clauses.
- Loops become `while` loops with invariants.
- Pure code becomes functions.
- Java's 32-bit `int` arithmetic is modelled where it matters, through `JavaLang.Wrap32`.
- Files, the network and the class loader's view of other classes are parameters. A file is a byte sequence, the web is a map from URL to body, and the class hierarchy is a map from class to superclass.

## Model

| member | source | states |
|---|---|---|
| Bytes.IntRoundTrip | src/com/enea/jcarder/common/contexts/ContextFileWriter.java:95-99 | the four big-endian bytes putInt writes for any int read back with getInt as that int |
| Bytes.LongRoundTrip | src/com/enea/jcarder/common/contexts/ContextFileWriter.java:74-79 | the eight big-endian bytes putLong writes for any long read back with getLong as that long |
| Bytes.BytesRoundTrip | src/com/enea/jcarder/common/contexts/ContextFileReader.java:81 | every byte sequence is the big-endian encoding of the value it reads as |
| Bytes.DecodeEncode | src/com/enea/jcarder/common/contexts/ContextFileWriter.java:86-93 | decoding the UTF-8 bytes of any string (CHARSET.encode) gives back that string |
| Bytes.DecodeReplacingAgrees | src/com/enea/jcarder/common/contexts/ContextFileReader.java:83 | on well-formed UTF-8, CHARSET.decode with replacement gives exactly the strictly decoded string |
| Bytes.DecodeReplacingInvalidByte | src/com/enea/jcarder/common/contexts/ContextFileReader.java:83 | a lone 0xFF byte is not UTF-8, and decode gives one U+FFFD for it rather than an error |
| Bytes.DecodeReplacingTruncated | src/com/enea/jcarder/common/contexts/ContextFileReader.java:83 | a truncated three-byte sequence becomes one U+FFFD and the byte after it still decodes |
| Bytes.DecodeReplacingSurrogate | src/com/enea/jcarder/common/contexts/ContextFileReader.java:83 | an encoded surrogate ED A0 80 becomes one U+FFFD; ED A0 before 'A' is one U+FFFD then 'A', and ED A0 at the end is one U+FFFD |
| Bytes.ValidateHeader | src/com/enea/jcarder/common/contexts/ContextFileReader.java:66-78 | a header is accepted exactly when the file has 16 bytes, its first long is the cookie and its first int the major version; the minor version is not checked |
| ContextFileReader.GetInt | src/com/enea/jcarder/common/contexts/ContextFileReader.java:81 | getInt succeeds exactly when four bytes remain at the position |
| ContextFileReader.ReadString | src/com/enea/jcarder/common/contexts/ContextFileReader.java:80-86 | the read succeeds exactly when four length bytes are there and the end position they give lies within the file; it ends there, and a negative length gives "" |
| ContextFileReader.ReadStringWellFormed | src/com/enea/jcarder/common/contexts/ContextFileReader.java:80-86 | a string whose bytes are well-formed UTF-8 reads back as exactly their decoding, ending after its bytes |
| ContextFileReader.ReadStringMalformed | src/com/enea/jcarder/common/contexts/ContextFileReader.java:80-86 | the one-byte string 0xFF reads back as one U+FFFD, ending after its byte |
| ContextFileReader.ContextAt | src/com/enea/jcarder/common/contexts/ContextFileReader.java:91-95 | a position outside 0..size is rejected with IllegalArgumentException("Invalid pos") |
| ContextFileReader.JavaAbs | src/com/enea/jcarder/common/contexts/ContextFileReader.java:103 | Math.abs on an int: Integer.MIN_VALUE stays itself, any other id becomes id or -id, whichever is non-negative |
| ContextFileReader.LockAtNegated | src/com/enea/jcarder/common/contexts/ContextFileReader.java:102-113 | readLock(-id) reads the same lock as readLock(id) |
| ContextFileReader.AsReader | src/com/enea/jcarder/common/contexts/ContextFileReader.java:88-113 | the ids the analyzer can look up are exactly those whose readLock or readContext succeeds, with the same result |
| ContextFileReader.AsReaderNegated | src/com/enea/jcarder/common/contexts/ContextFileReader.java:103 | a shared lock's negated id is known exactly when its id is, and names the same lock |
| ContextFileReader.ContextFileReader.constructor | src/com/enea/jcarder/common/contexts/ContextFileReader.java:49-64 | a reader over a file whose header validates starts with both caches empty |
| ContextFileReader.ContextFileReader.ReadContext | src/com/enea/jcarder/common/contexts/ContextFileReader.java:88-100 | the result is the context stored at offset id, cached or not; a successful read is added to the context cache, and the lock cache is untouched |
| ContextFileReader.ContextFileReader.ReadLock | src/com/enea/jcarder/common/contexts/ContextFileReader.java:102-113 | the result is the lock stored at offset abs(id); a successful read is cached under abs(id), and the context cache is untouched |
| ContextFileReader.Open | src/com/enea/jcarder/common/contexts/ContextFileReader.java:49-64 | a file opens exactly when it has at most Integer.MAX_VALUE bytes and its header validates |
| ContextFileWriter.Doubling | src/com/enea/jcarder/common/contexts/ContextFileWriter.java:107-109 | doubling a capacity below 2^30 as an int gives the next power of two; doubling 2^30 overflows to a negative int |
| ContextFileWriter.ContextFileWriter.constructor | src/com/enea/jcarder/common/contexts/ContextFileWriter.java:40-51 | a new writer holds just the 16-byte header in its buffer, with the next position at 16 |
| ContextFileWriter.ContextFileWriter.WriteBuffer | src/com/enea/jcarder/common/contexts/ContextFileWriter.java:64-72 | every pending byte reaches the channel and the buffer is empty |
| ContextFileWriter.ContextFileWriter.AssureBufferCapacity | src/com/enea/jcarder/common/contexts/ContextFileWriter.java:101-110 | the buffer is flushed when it lacks room or the shutdown hook has run, then doubled until size fits; a size above 2^30 fails |
| ContextFileWriter.ContextFileWriter.WriteString | src/com/enea/jcarder/common/contexts/ContextFileWriter.java:86-93 | a string whose record fits a buffer appends its length and UTF-8 bytes; one that cannot fit appends nothing and fails |
| ContextFileWriter.ContextFileWriter.WriteInteger | src/com/enea/jcarder/common/contexts/ContextFileWriter.java:95-99 | the int's four bytes are appended |
| ContextFileWriter.ContextFileWriter.FlushBufferIfNeeded | src/com/enea/jcarder/common/contexts/ContextFileWriter.java:130-134 | after the shutdown hook the buffer is flushed; before it nothing moves |
| ContextFileWriter.ContextFileWriter.WriteLock | src/com/enea/jcarder/common/contexts/ContextFileWriter.java:112-118 | the id is the offset where the lock record starts, wrapped to an int, and the record is appended |
| ContextFileWriter.ContextFileWriter.WriteContext | src/com/enea/jcarder/common/contexts/ContextFileWriter.java:120-128 | the id is the offset where the context record starts, wrapped to an int; a string too long leaves the strings before it written |
| ContextFileWriter.ContextFileWriter.Close | src/com/enea/jcarder/common/contexts/ContextFileWriter.java:81-84 | an open writer's channel afterwards holds everything written and the writer is closed; a second close fails with ClosedChannelException and changes nothing |
| ContextFileWriter.ContextFileWriter.ShutdownHook | src/com/enea/jcarder/common/contexts/ContextFileWriter.java:53-62 | an open writer is flushed, and from then on every write is flushed |
| ContextFileWriter.ValidHeader | src/com/enea/jcarder/common/contexts/ContextFileWriter.java:74-79 | the header the writer puts first passes the reader's header check |
| ContextFileWriter.ReadLockRecord | src/com/enea/jcarder/common/contexts/ContextFileReader.java:102-113 | a lock record written at offset p reads back with readLock(p) as that lock |
| ContextFileWriter.ReadContextRecord | src/com/enea/jcarder/common/contexts/ContextFileReader.java:88-100 | a context record written at offset p reads back with readContext(p) as that context |
| ContextFileWriter.WriteThenRead | src/com/enea/jcarder/common/contexts/ContextFileWriter.java:112-128 | a lock and a context written to a fresh file get ids 16 and 16 + the lock record's length, and the closed file reads both back unchanged |
| ContextMemory.ReadAt | src/com/enea/jcarder/common/contexts/ContextMemory.java:41-47 | LinkedList.get: an element exactly for an index in 0..size-1, and that element; any other index is IndexOutOfBounds |
| ContextMemory.ReadAfterAppend | src/com/enea/jcarder/common/contexts/ContextMemory.java:31-39 | an appended entry reads back at the old size, and every other id reads as before |
| ContextMemory.ContextMemory.constructor | src/com/enea/jcarder/common/contexts/ContextMemory.java:27-29 | a new store holds no lock and no context |
| ContextMemory.ContextMemory.AsReader | src/com/enea/jcarder/common/contexts/ContextMemory.java:41-47 | the ids the analyzer can look up are exactly the list indices, naming the stored entries |
| ContextMemory.ContextMemory.WriteLock | src/com/enea/jcarder/common/contexts/ContextMemory.java:31-34 | the lock is appended and its id is its index, the old size; the contexts are untouched |
| ContextMemory.ContextMemory.WriteContext | src/com/enea/jcarder/common/contexts/ContextMemory.java:36-39 | the context is appended and its id is its index, the old size; the locks are untouched |
| ContextMemory.ContextMemory.ReadLock | src/com/enea/jcarder/common/contexts/ContextMemory.java:41-43 | the lock at index id, or IndexOutOfBounds |
| ContextMemory.ContextMemory.ReadContext | src/com/enea/jcarder/common/contexts/ContextMemory.java:45-47 | the context at index id, or IndexOutOfBounds |
| Counters.Counter.constructor | src/com/enea/jcarder/util/Counter.java:29-33 | a counter starts at zero with its name, logger and interval |
| Counters.Counter.Increment | src/com/enea/jcarder/util/Counter.java:35-42 | the value grows by one in int arithmetic; each handler receives the new value at FINE on a multiple of the interval and at FINEST otherwise, as its level lets through |
| Counters.IncrementWraps | src/com/enea/jcarder/util/Counter.java:36 | one increment past Integer.MAX_VALUE gives Integer.MIN_VALUE |
| Counters.MaxValueCounter.constructor | src/com/enea/jcarder/util/MaxValueCounter.java:29-32 | value and maximum start at zero |
| Counters.MaxValueCounter.Set | src/com/enea/jcarder/util/MaxValueCounter.java:34-40 | the value becomes v; the maximum rises to v, with one FINE record, exactly when v exceeds it, and otherwise nothing is logged |
| Counters.MaxValueCounter.ToString | src/com/enea/jcarder/util/MaxValueCounter.java:42-44 | the text reads back as the maximum |
| Cycles.AddAll | src/com/enea/jcarder/analyzer/Cycle.java:39 | HashSet.addAll: the keys become the old keys plus those of the added edges, an edge already there is never replaced, and every new entry is one of the added edges under its own key |
| Cycles.New | src/com/enea/jcarder/analyzer/Cycle.java:38-41 | the cycle holds exactly the keys of the given edges, each under its own key, each one of the given edges |
| Cycles.HashCodeConsistent | src/com/enea/jcarder/analyzer/Cycle.java:129-140 | equal cycles (equal edge sets) have equal hash codes |
| Cycles.GetNodes | src/com/enea/jcarder/analyzer/Cycle.java:47-57 | the result is the set of the edges' targets |
| Cycles.IsSingleThreaded | src/com/enea/jcarder/analyzer/Cycle.java:72-84 | true exactly when every edge reports the same thread id as the others (vacuously for no edges) |
| Cycles.IsGated | src/com/enea/jcarder/analyzer/Cycle.java:86-100 | true exactly when some gate lock id is a gate of two different edges of the cycle |
| Cycles.AddGates | src/com/enea/jcarder/analyzer/Cycle.java:92-97 | the inner loop stops with true exactly when some gate was seen already, and otherwise adds all gates to the seen set |
| Cycles.GatesAdd | src/com/enea/jcarder/analyzer/Cycle.java:90-98 | an edge whose gates are all new keeps the gates of the visited edges pairwise disjoint |
| Cycles.UpdateNodeCycleStatus | src/com/enea/jcarder/analyzer/Cycle.java:59-70 | every endpoint of every edge is raised to SINGLE_THREADED_CYCLE when the cycle is single-threaded and to CYCLE otherwise; no node's edges change |
| Cycles.RaiseEndpoints | src/com/enea/jcarder/analyzer/Cycle.java:66-69 | both ends of every edge are raised to the type, once or twice alike |
| Cycles.RaiseTwice | src/com/enea/jcarder/analyzer/LockNode.java:51-55 | raising twice to one type is raising once |
| Cycles.EdgeAlikeIsSameClass | src/com/enea/jcarder/analyzer/LockEdge.java:109-131 | on readable edges, LockEdge.alike is equality of a class made of both ends' locks and the contexts of the transitions |
| Cycles.Alike | src/com/enea/jcarder/analyzer/Cycle.java:102-127 | equal cycles are alike; otherwise the answer is true exactly when the sizes and isSingleThreaded agree and the edges pair off alike one to one (equal bags of edge classes); it throws only when multi-edges meet plain edges |
| Cycles.AlikeSameSize | src/com/enea/jcarder/analyzer/Cycle.java:109-126 | past the size check: true exactly when isSingleThreaded agrees and the class bags of the two edge sets are equal |
| Cycles.PairOff | src/com/enea/jcarder/analyzer/Cycle.java:115-126 | the greedy pairing loop answers true exactly when the two cycles' bags of edge classes are equal |
| Cycles.IndexOfAlikeEdge | src/com/enea/jcarder/analyzer/Cycle.java:117-124 | the first remaining edge alike this one, or the length when none of the remaining edges is |
| Cycles.ClassesOfRemove | src/com/enea/jcarder/analyzer/Cycle.java:120 | iter.remove takes exactly one occurrence of the removed edge's class out of the bag |
| Cycles.EdgesInSomeOrder | src/com/enea/jcarder/analyzer/Cycle.java:112-113 | new LinkedList(other's edges) lists every edge of the set once, in some order |
| Cycles.MultiThreadedEdgesLookSingleThreaded | src/com/enea/jcarder/analyzer/LockEdge.java:166-177 | a cycle whose every edge was taken by two or more threads counts as single-threaded, since each edge then reports the value -1 |
| Cycles.IsSingleThreadedIntended | src/com/enea/jcarder/analyzer/Cycle.java:72-84 | true exactly when every edge of the cycle has one and the same thread id and none of them is the -1 that marks an edge taken by several threads |
| Cycles.IntendedMeansOneThread | src/com/enea/jcarder/analyzer/Cycle.java:72-84 | the corrected test holds exactly when every transition of every edge of the cycle was taken by one thread |
| Cycles.IntendedRejectsMultiThreadedEdge | src/com/enea/jcarder/analyzer/LockEdge.java:166-177 | a cycle with an edge taken by two or more threads is never single-threaded under the corrected test |
| CycleDetectors.IndexOf | src/com/enea/jcarder/analyzer/CycleDetector.java:115 | the first position of the target lock on the node stack, or -1 exactly when it is not there |
| CycleDetectors.CycleOnStack | src/com/enea/jcarder/analyzer/CycleDetector.java:115-118 | the edges from the target's stack position to the edge just pushed form a closed walk |
| CycleDetectors.RecordCycle | src/com/enea/jcarder/analyzer/CycleDetector.java:116-133 | a cycle closing at stack position index adds its key to the store, keeps an equal cycle stored before, un-visits every cycle edge but the first, raises the cycle-depth and cycle-count maxima and counts one more created cycle |
| CycleDetectors.RecordCycleKeeps | src/com/enea/jcarder/analyzer/CycleDetector.java:116-133 | storing a cycle cut from the stacks keeps every stored cycle a closed walk of the graph |
| CycleDetectors.AnalyzeEdge | src/com/enea/jcarder/analyzer/CycleDetector.java:108-143 | a visited edge changes nothing; otherwise the depth maximum covers the stack, an edge into the stack records exactly the cycle RecordCycle gives, and any other edge is marked visited and its target explored; the stacks come back unchanged |
| CycleDetectors.AnalyzeNode | src/com/enea/jcarder/analyzer/CycleDetector.java:92-106 | the node is marked visited, the stacks come back as they were, and a search that stored no cycle has ranked the node |
| CycleDetectors.AnalyzeEdgesOf | src/com/enea/jcarder/analyzer/CycleDetector.java:99-104 | each outgoing edge in turn is pushed, analyzed and popped, leaving the stacks as they were |
| CycleDetectors.SearchFrom | src/com/enea/jcarder/analyzer/CycleDetector.java:73-78 | every root ends visited with the stacks empty again; when no cycle was recorded, no walk of the graph from a root comes back to a lock it passed |
| CycleDetectors.FinishedAcyclic | src/com/enea/jcarder/analyzer/CycleDetector.java:68-82 | a search that ranked every root leaves no walk of the graph from a root that comes back to a lock it passed |
| CycleDetectors.RankedNoCycles | src/com/enea/jcarder/analyzer/CycleDetector.java:113-133 | on a lock graph with a ranking that rises along every edge (an acyclic graph) no cycle is ever stored |
| CycleDetectors.UnenteredOutsideCycles | src/com/enea/jcarder/analyzer/CycleDetector.java:116-122 | a lock that no edge enters is in no stored cycle |
| CycleDetectors.StoredOnGraph | src/com/enea/jcarder/analyzer/CycleDetector.java:117-122 | every stored cycle's ends are locks of the graph and its edges are edges of the graph |
| CycleDetectors.StoredEndsAreNodes | src/com/enea/jcarder/analyzer/CycleDetector.java:117-122 | when lock ids are unique, every source of a stored cycle's edges is also a target, so getNodes gives all the cycle's locks |
| CycleDetectors.CycleDetector.constructor | src/com/enea/jcarder/analyzer/CycleDetector.java:53-62 | an empty cycle store with all counters at zero |
| CycleDetectors.CycleDetector.AnalyzeLockNodes | src/com/enea/jcarder/analyzer/CycleDetector.java:68-82 | stored cycles are only added, each a closed walk of the graph; the counters never fall; on a graph with unique lock ids an empty store means no walk from a given node returns to a lock it passed; afterwards each lock's cycle type is the highest of its old type and the types of the stored cycles through it; on a graph without self-loops every stored cycle has at least two edges |
| CycleDetectors.CutCycleWellFormed | src/com/enea/jcarder/analyzer/Cycle.java:38-41 | a cycle cut from a closed walk of a graph without self-loops has at least two edges, as the constructor asserts |
| CycleDetectors.StoredWellFormed | src/com/enea/jcarder/analyzer/Cycle.java:38-41 | every cycle the detector stores from a graph without self-loops has at least two edges |
| CycleDetectors.CycleDetector.SearchRoots | src/com/enea/jcarder/analyzer/CycleDetector.java:69-78 | the first loop with fresh stacks and visited sets: cycles only added, counters only rising, and an empty store means no cycle is reachable from the roots |
| CycleDetectors.CycleDetector.UpdateNodeCycleStatus | src/com/enea/jcarder/analyzer/CycleDetector.java:79-81 | each lock ends with the highest of its old type and the types of the stored cycles through it |
| CycleDetectors.CycleStatuses | src/com/enea/jcarder/analyzer/CycleDetector.java:79-81 | the type each stored cycle raises its locks to, as isSingleThreaded decides it |
| CycleDetectors.UpdateStatuses | src/com/enea/jcarder/analyzer/CycleDetector.java:79-81 | raising the ends of every stored cycle gives each lock the expected type |
| CycleDetectors.RaiseAll | src/com/enea/jcarder/analyzer/CycleDetector.java:79-81 | raising the ends of each cycle to its given type, in the store's iteration order, gives each lock the expected type |
| CycleDetectors.FoldExpected | src/com/enea/jcarder/analyzer/CycleDetector.java:79-81 | raising the cycles' ends in any order gives the same types, so the unspecified HashSet order does not matter |
| CycleDetectors.ContainsAlike | src/com/enea/jcarder/analyzer/CycleDetector.java:150-158 | Ok(true) exactly when some other cycle is alike this one; an error only when some pair mixes edge kinds, and never otherwise |
| CycleDetectors.DropAlike | src/com/enea/jcarder/analyzer/CycleDetector.java:166-176 | the kept cycles are a sub-store; on success the removed count is right, no two kept cycles are alike and every dropped cycle is alike a kept one; an error only when some pair mixes edge kinds |
| CycleDetectors.AlikeLoopDone | src/com/enea/jcarder/analyzer/CycleDetector.java:164-179 | once every cycle is visited, no two kept cycles are alike and every dropped one is alike a kept one |
| CycleDetectors.CycleDetector.RemoveAlikeCycles | src/com/enea/jcarder/analyzer/CycleDetector.java:164-180 | the store shrinks to cycles pairwise not alike that cover every dropped cycle, and the count of removed cycles is returned |
| CycleDetectors.DropSingleThreaded | src/com/enea/jcarder/analyzer/CycleDetector.java:187-194 | a cycle is kept exactly when it is not single-threaded, and the removed count is the difference in size |
| CycleDetectors.CycleDetector.RemoveSingleThreadedCycles | src/com/enea/jcarder/analyzer/CycleDetector.java:185-198 | a stored cycle stays exactly when it is not single-threaded; the removed count is returned |
| CycleDetectors.DropGated | src/com/enea/jcarder/analyzer/CycleDetector.java:203-210 | a cycle is kept exactly when it is not gated, and the removed count is the difference in size |
| CycleDetectors.CycleDetector.RemoveGatedCycles | src/com/enea/jcarder/analyzer/CycleDetector.java:201-212 | a stored cycle stays exactly when it is not gated; the removed count is returned |
| CycleDetectors.CycleDetector.GetNumberOfEdges | src/com/enea/jcarder/analyzer/CycleDetector.java:217-223 | the number of distinct edges over all stored cycles |
| CycleDetectors.EdgeEnds | src/com/enea/jcarder/analyzer/CycleDetector.java:231-234 | the source and target of every edge of a cycle |
| CycleDetectors.CycleDetector.GetNumberOfNodes | src/com/enea/jcarder/analyzer/CycleDetector.java:228-237 | the number of distinct locks at either end of an edge of a stored cycle |
| CycleDetectors.SummariesOnGraph | src/com/enea/jcarder/analyzer/CycleDetector.java:217-237 | every lock counted is a lock of the graph, every edge counted is an edge of it, and no cycle has more edges than the total |
| CycleDetectors.CycleDetector.MergeCyclesWithIdenticalLocks | src/com/enea/jcarder/analyzer/CycleDetector.java:245-262 | one group per distinct getNodes set of the stored cycles, holding exactly the edges of the cycles with that set |
| DuplicatedEdgesHandlers.PopulateTranslationMap | src/com/enea/jcarder/analyzer/DuplicatedEdgesHandler.java:73-80 | the map holds exactly the context ids used by some transition of some lock's edges, each mapped to itself |
| DuplicatedEdgesHandlers.ContextIdsStep | src/com/enea/jcarder/analyzer/DuplicatedEdgesHandler.java:76-78 | visiting one more lock adds exactly the context ids of its edges |
| DuplicatedEdgesHandlers.CreateContextToIdMap | src/com/enea/jcarder/analyzer/DuplicatedEdgesHandler.java:82-96 | succeeds exactly when the reader knows every id; then one group per context read, holding exactly the ids whose context is that one |
| DuplicatedEdgesHandlers.GroupStep | src/com/enea/jcarder/analyzer/DuplicatedEdgesHandler.java:87-93 | one more id joins the group of its own context and no other |
| DuplicatedEdgesHandlers.First | src/com/enea/jcarder/analyzer/DuplicatedEdgesHandler.java:101-102 | the first id of a TreeSet is its smallest |
| DuplicatedEdgesHandlers.SendToFirst | src/com/enea/jcarder/analyzer/DuplicatedEdgesHandler.java:103-105 | every id of the group but the first now maps to the first; every other entry keeps its value and no entry is lost |
| DuplicatedEdgesHandlers.UpdateContextIdTranslationMap | src/com/enea/jcarder/analyzer/DuplicatedEdgesHandler.java:98-108 | the domain is unchanged, every id of every group maps to the smallest id of its group, and ids outside the groups keep their value |
| DuplicatedEdgesHandlers.BuiltIsCanonical | src/com/enea/jcarder/analyzer/DuplicatedEdgesHandler.java:52-57 | the map the three steps build sends every id in use to the smallest id with an equal context |
| DuplicatedEdgesHandlers.CanonicalIdempotent | src/com/enea/jcarder/analyzer/DuplicatedEdgesHandler.java:98-108 | translating a translated id gives it back unchanged |
| DuplicatedEdgesHandlers.CanonicalMerges | src/com/enea/jcarder/analyzer/DuplicatedEdgesHandler.java:98-108 | two context ids translate to the same id exactly when their contexts are equal |
| DuplicatedEdgesHandlers.CanonicalKeepsUnique | src/com/enea/jcarder/analyzer/DuplicatedEdgesHandler.java:98-108 | the smallest id of a context, in particular an id whose context no other id has, translates to itself |
| DuplicatedEdgesHandlers.CanonicalAsWritten | src/com/enea/jcarder/analyzer/DuplicatedEdgesHandler.java:67-71 | under this map, translateContextIds as written gives the intended result on every transition whose ids are in use |
| DuplicatedEdgesHandlers.TranslateNode | src/com/enea/jcarder/analyzer/DuplicatedEdgesHandler.java:68-70 | the edges of the lock get the translated transitions, with weights and gates carried over; no other lock changes |
| DuplicatedEdgesHandlers.UpdateEdgesWithTranslationMap | src/com/enea/jcarder/analyzer/DuplicatedEdgesHandler.java:67-71 | every lock's edges are translated by the map and the graph stays well formed |
| DuplicatedEdgesHandlers.BuildTranslation | src/com/enea/jcarder/analyzer/DuplicatedEdgesHandler.java:52-57 | succeeds exactly when the reader knows every context id in use, and then gives the canonical map |
| DuplicatedEdgesHandlers.MergeDuplicatedEdges | src/com/enea/jcarder/analyzer/DuplicatedEdgesHandler.java:59-65 | succeeds exactly when the reader knows every context id in use; then the map is canonical and every lock's edges are translated by it; on failure the graph is untouched |
| LockTransitions.New | src/com/enea/jcarder/analyzer/LockTransition.java:21-37 | a transition with the given thread and context ids, weight one (no duplicates yet) and exactly the given gate ids |
| LockTransitions.EqualsIsKeyEquality | src/com/enea/jcarder/analyzer/LockTransition.java:65-74 | two transitions are equal exactly when thread id and both context ids agree; duplicates and gates play no part |
| LockTransitions.Merge | src/com/enea/jcarder/analyzer/LockTransition.java:39-42 | merging equal transitions keeps the key and gates and adds up their weights |
| LockTransitions.LongHash | src/com/enea/jcarder/analyzer/LockTransition.java:80 | folding a long into its hash gives an int |
| LockTransitions.HashCode | src/com/enea/jcarder/analyzer/LockTransition.java:76-82 | the hash stays in int range |
| LockTransitions.HashCodeConsistent | src/com/enea/jcarder/analyzer/LockTransition.java:65-82 | equal transitions have equal hash codes |
| LockTransitions.Alike | src/com/enea/jcarder/analyzer/LockTransition.java:48-63 | succeeds exactly when the reader knows all four contexts; then true exactly when the source contexts are alike and the target contexts are alike |
| LockTransitions.AlikeIsSameClass | src/com/enea/jcarder/analyzer/LockTransition.java:48-63 | on readable transitions alike compares the pair of context classes |
| LockTransitions.AlikeIsEquivalence | src/com/enea/jcarder/analyzer/LockTransition.java:48-63 | alike is reflexive, symmetric and transitive on readable transitions, and equal transitions are alike |
| LockTransitions.ToString | src/com/enea/jcarder/analyzer/LockTransition.java:115-117 | the text is "(t ", the thread id written in decimal, and ")", and the id reads back from it |
| LockTransitions.TranslateAsWritten | src/com/enea/jcarder/analyzer/LockTransition.java:96-105 | as written: fails with a null dereference exactly when only the target id is mapped; otherwise the source is looked up and the target is replaced only when mapped and the new source differs from it |
| LockTransitions.Translate | src/com/enea/jcarder/analyzer/LockTransition.java:96-105 | the intended translation: each context id looked up on its own, thread, duplicates and gates kept |
| LockTransitions.TranslateAsWrittenNullPointer | src/com/enea/jcarder/analyzer/LockTransition.java:101-103 | the transition 7 to 2 under the map 2 to 12 fails as written, where the intended result is 7 to 12 |
| LockTransitions.TranslateAsWrittenSkipsTarget | src/com/enea/jcarder/analyzer/LockTransition.java:101-103 | the transition 1 to 2 under the map 1 to 2, 2 to 3 keeps its stale target as written, where the intended result is 2 to 3 |
| LockTransitions.TranslateAsWrittenAgrees | src/com/enea/jcarder/analyzer/LockTransition.java:96-105 | under a canonical map holding both ids the written code gives the intended result |
| LockTransitions.TranslateIdempotent | src/com/enea/jcarder/analyzer/LockTransition.java:96-105 | translating twice by a canonical map equals translating once |
| LockTransitions.TranslateKey | src/com/enea/jcarder/analyzer/LockTransition.java:96-105 | transitions with equal keys have equal keys after translation |
| EventFileReader.EventsFrom | src/com/enea/jcarder/common/events/EventFileReader.java:50-55 | one event per complete record after the position; a short tail yields nothing |
| EventFileReader.EventsFromIndex | src/com/enea/jcarder/common/events/EventFileReader.java:50-55 | event i is decoded from the i-th record-sized slice after the position |
| EventFileReader.ParseFile | src/com/enea/jcarder/common/events/EventFileReader.java:40-58 | a header that fails validation gives its error; otherwise the receiver gets the events of every complete record in file order |
| EventFileWriter.Header | src/com/enea/jcarder/common/events/EventFileWriter.java:74-79 | the header is the length the reader validates |
| EventFileWriter.EventRecord | src/com/enea/jcarder/common/events/EventFileWriter.java:105-115 | a record is one type byte, two ints and a long |
| EventFileWriter.EventRecordFields | src/com/enea/jcarder/common/events/EventFileWriter.java:105-115 | every field of a record reads back at its offset, the type through fromByte |
| EventFileWriter.EventFileWriter.constructor | src/com/enea/jcarder/common/events/EventFileWriter.java:56-72 | an open writer whose file holds exactly the header, with nothing buffered and no events counted |
| EventFileWriter.EventFileWriter.WriteHeader | src/com/enea/jcarder/common/events/EventFileWriter.java:74-79 | the pending bytes and then the header reach the file |
| EventFileWriter.EventFileWriter.WriteBuffer | src/com/enea/jcarder/common/events/EventFileWriter.java:119-127 | every pending byte reaches the file and the buffer is cleared |
| EventFileWriter.EventFileWriter.OnLockEvent | src/com/enea/jcarder/common/events/EventFileWriter.java:81-117 | succeeds exactly when open; then the file plus buffer gain exactly the record and the counter rises by one with int wrap-around, and the buffer is flushed when less than a record's room remains or the shutdown hook has run; a closed writer changes nothing |
| EventFileWriter.EventFileWriter.Close | src/com/enea/jcarder/common/events/EventFileWriter.java:129-139 | an open writer writes everything buffered to the file and is closed; a second close fails with ClosedChannelException and changes nothing |
| EventFileWriter.EventFileWriter.ShutdownHook | src/com/enea/jcarder/common/events/EventFileWriter.java:141-150 | the buffer is flushed, the writer closed and the hook marked as run |
| LockEvents.ToJavaByte | src/com/enea/jcarder/common/events/LockEventListenerIfc.java:43 | the (byte) cast: congruent to the int modulo 256 within -128..127, and the identity on that range |
| LockEvents.TypeId | src/com/enea/jcarder/common/events/LockEventListenerIfc.java:42-44 | each type's code fits a byte |
| LockEvents.TypeIdIsIndex | src/com/enea/jcarder/common/events/LockEventListenerIfc.java:31-36 | each type's code is its place in the declaration |
| LockEvents.TypeIdsDistinct | src/com/enea/jcarder/common/events/LockEventListenerIfc.java:31-44 | two types have the same code exactly when they are the same type |
| LockEvents.BuildIdToEnum | src/com/enea/jcarder/common/events/LockEventListenerIfc.java:47-51 | the static map holds exactly the six codes, each mapped to its type, and agrees with fromByte on every byte |
| LockEvents.IndexIsTypeId | src/com/enea/jcarder/common/events/LockEventListenerIfc.java:31-36 | the type at place i is the one with code i |
| LockEvents.FromByte | src/com/enea/jcarder/common/events/LockEventListenerIfc.java:52-54 | a type found for a byte has that byte as its code |
| LockEvents.FromByteTypeId | src/com/enea/jcarder/common/events/LockEventListenerIfc.java:52-54 | fromByte inverts typeId |
| LockEvents.FromByteOther | src/com/enea/jcarder/common/events/LockEventListenerIfc.java:52-54 | fromByte finds nothing exactly for a byte that is no type's code |
| EventListeners.TrimAll | src/com/enea/jcarder/agent/EventListener.java:77-79 | each token trimmed, in order, none lost |
| EventListeners.FilterListTrimmed | src/com/enea/jcarder/agent/EventListener.java:71-81 | no filter starts or ends with white space |
| EventListeners.DefaultIncludeAcceptsAll | src/com/enea/jcarder/agent/EventListener.java:51-54 | without the include property the one filter is the empty prefix, which every class name matches |
| EventListeners.DefaultClassLevelEmpty | src/com/enea/jcarder/agent/EventListener.java:51-52 | without the class-level property there is no filter, so no class is handled on class level |
| EventListeners.StartsWithAny | src/com/enea/jcarder/agent/EventListener.java:169-178 | true exactly when some filter is a prefix of the class name |
| EventListeners.EventListener.Classify | src/com/enea/jcarder/agent/EventListener.java:153-195 | a class is ignored exactly when no include filter matches; handled per instance exactly when an include filter matches and no class-level filter does; on class level the monitor stands for its class |
| EventListeners.EventListener.constructor | src/com/enea/jcarder/agent/EventListener.java:48-92 | empty caches and no events; the two filter lists read from their properties with their defaults; the id generator and the context cache share the one context file writer |
| EventListeners.EventListener.CheckIncludeFilter | src/com/enea/jcarder/agent/EventListener.java:169-178 | true exactly when some include filter is a prefix of the class name |
| EventListeners.EventListener.CheckGroupLevelFilter | src/com/enea/jcarder/agent/EventListener.java:180-195 | the monitor itself when a class-level filter matches, the instance-level sentinel otherwise |
| EventListeners.EventListener.CheckFilters | src/com/enea/jcarder/agent/EventListener.java:153-167 | the classification the filters give for the monitor's class name, which is then cached under the monitor's class (its name and its defining loader) |
| EventListeners.EventListener.CheckMonitor | src/com/enea/jcarder/agent/EventListener.java:119-151 | a null monitor is passed through; otherwise the classification cached under its class (name and defining loader) is used, computed and cached on first sight; the cache stays sound, and a class-level entry holds an instance of that very class |
| EventListeners.EventListener.LockEvent | src/com/enea/jcarder/agent/EventListener.java:197-209 | the classified monitor gets its lock id and the context its context id from the shared context file, which only grows; exactly one event with those ids, the thread and the enter or exit flag is emitted, and it is emitted exactly when both ids are already known or their records fit the writer's buffer; a failed write is passed on and emits nothing |
| EventListeners.EventListener.BeforeMonitorEnter | src/com/enea/jcarder/agent/EventListener.java:94-105 | an ignored monitor changes nothing; any other counts one entered monitor; a null monitor fails with a null dereference and emits nothing; else exactly one enter event for the classified monitor when both ids can be had, and otherwise the write's failure and no event |
| EventListeners.EventListener.BeforeMonitorExit | src/com/enea/jcarder/agent/EventListener.java:107-117 | an ignored monitor changes nothing; a null monitor fails with a null dereference; else exactly one exit event for the classified monitor when both ids can be had, and otherwise the write's failure and no event |
| EventListeners.IgnoredIffNotIncluded | src/com/enea/jcarder/agent/EventListener.java:119-167 | a monitor is ignored exactly when no include filter matches its class |
| EventListeners.InstanceLevelIsItself | src/com/enea/jcarder/agent/EventListener.java:119-151 | a monitor of an included class with no class-level match is tracked as itself |
| EventListeners.ClassLevelSharesFirst | src/com/enea/jcarder/agent/EventListener.java:119-151 | two monitors of one class-level class (same name, same loader) are tracked as the first one seen, an instance of that class |
| EventListeners.LoadersKeptApart | src/com/enea/jcarder/agent/EventListener.java:49-50 | two class-level classes of one name from different loaders get separate cache entries, and each monitor represents its own class |
| EventListeners.DefaultsTrackEveryInstance | src/com/enea/jcarder/agent/EventListener.java:51-54 | with neither property set every monitor is tracked as itself |
| Graphviz.EscapeIsPerChar | src/com/enea/jcarder/analyzer/GraphvizGenerator.java:140-146 | the five chained replacements equal replacing each character by its entity on its own, since '&' goes first |
| Graphviz.EscapeConcat | src/com/enea/jcarder/analyzer/GraphvizGenerator.java:140-146 | escaping distributes over concatenation |
| Graphviz.EscapeEachSafe | src/com/enea/jcarder/analyzer/GraphvizGenerator.java:140-146 | the per-character escaping leaves no raw markup and every '&' starts an entity |
| Graphviz.UnescapeEach | src/com/enea/jcarder/analyzer/GraphvizGenerator.java:140-146 | reading the entities back gives the original text |
| Graphviz.EscapeProperties | src/com/enea/jcarder/analyzer/GraphvizGenerator.java:140-146 | the escaped text holds no markup character, every '&' in it starts an entity, and it unescapes to the input |
| Graphviz.HandlePackageKeeps | src/com/enea/jcarder/analyzer/GraphvizGenerator.java:130-138 | a name is kept when packages are wanted or it has no dot; a shortened name has exactly one dot |
| Graphviz.SplitKeepsAll | src/com/enea/jcarder/analyzer/GraphvizGenerator.java:131 | on a name not ending in a dot, split drops no part, so joining the parts gives the name back |
| Graphviz.HandlePackageSuffix | src/com/enea/jcarder/analyzer/GraphvizGenerator.java:130-138 | the shortened name is a suffix of the full name |
| Graphviz.ColorsDistinct | src/com/enea/jcarder/analyzer/GraphvizGenerator.java:150-160 | the three cycle types get three different fill colours |
| Graphviz.LockNodeString | src/com/enea/jcarder/analyzer/GraphvizGenerator.java:148-164 | the node line exists exactly when the reader knows the lock |
| Graphviz.EdgeString | src/com/enea/jcarder/analyzer/GraphvizGenerator.java:100-103 | the edge line exists exactly when the reader knows both contexts |
| Graphviz.AppendNodeIfNotAppended | src/com/enea/jcarder/analyzer/GraphvizGenerator.java:166-174 | the node joins the appended set; the text grows by the node's line only when it was not appended before, and fails only when a new node's lock is unknown |
| Graphviz.PlanEdges | src/com/enea/jcarder/analyzer/GraphvizGenerator.java:92-104 | the graph prints every edge once, in the given order |
| Graphviz.PlanNodesOnce | src/com/enea/jcarder/analyzer/GraphvizGenerator.java:91-104 | the graph declares exactly the endpoints of the edges, each once |
| Graphviz.DeclaredBeforeUse | src/com/enea/jcarder/analyzer/GraphvizGenerator.java:92-104 | both ends of every edge are declared before its line |
| Graphviz.AppendEdge | src/com/enea/jcarder/analyzer/GraphvizGenerator.java:92-104 | one round of the loop succeeds exactly when the reader knows the edge's locks and contexts, and then extends the text by the round's lines |
| Graphviz.Generate | src/com/enea/jcarder/analyzer/GraphvizGenerator.java:85-108 | succeeds exactly when the reader knows every lock and context the edges use; the text is the header, the node and edge lines in loop order, and the footer |
| IdentityWeakHashMaps.IdentityWeakHashMap.constructor | src/com/enea/jcarder/util/IdentityWeakHashMap.java:39-42 | an empty map with nothing cached and the put counter at zero |
| IdentityWeakHashMaps.IdentityWeakHashMap.Get | src/com/enea/jcarder/util/IdentityWeakHashMap.java:44-56 | the value stored under the key, or null; the repeated key is answered from the cache; the key becomes the cached one and the map is unchanged |
| IdentityWeakHashMaps.IdentityWeakHashMap.Put | src/com/enea/jcarder/util/IdentityWeakHashMap.java:58-70 | the entry under the key is replaced, the pair is cached, and the counter rises by one or resets to zero once it is above 1000 |
| IdentityWeakHashMaps.GetAfterPut | src/com/enea/jcarder/util/IdentityWeakHashMap.java:44-70 | a get just after a put of the same key returns the value put |
| IdentityWeakHashMaps.PutLeavesOthers | src/com/enea/jcarder/util/IdentityWeakHashMap.java:58-70 | a put under one object leaves what a get of any other object returns unchanged |
| InstrumentConfigs.InstrumentConfig.constructor | src/com/enea/jcarder/agent/instrument/InstrumentConfig.java:22-27 | class dumping off and validation on |
| InstrumentConfigs.InstrumentConfig.SetDumpClassFiles | src/com/enea/jcarder/agent/instrument/InstrumentConfig.java:29-31 | the dump flag takes the given value |
| JavaAgents.SystemProperties.constructor | src/com/enea/jcarder/agent/JavaAgent.java:135 | the JVM system properties that System.setProperty changes start as given |
| JavaAgents.PairOf | src/com/enea/jcarder/agent/JavaAgent.java:126-135 | a piece without '=' sets nothing; otherwise it sets "jcarder." plus the text before its first '=' to the rest, and key and value rebuild the piece |
| JavaAgents.ValueMayContainEquals | src/com/enea/jcarder/agent/JavaAgent.java:126 | only the first '=' separates key from value |
| JavaAgents.LastSettingWins | src/com/enea/jcarder/agent/JavaAgent.java:123-137 | a key set by some piece holds the value of the last such piece; any other key keeps its old value or stays unset |
| JavaAgents.JavaAgent.constructor | src/com/enea/jcarder/agent/JavaAgent.java:47-53 | a fresh configuration with dumping off and no log level yet |
| JavaAgents.JavaAgent.SetProperties | src/com/enea/jcarder/agent/JavaAgent.java:125-136 | the properties after setting those of the pieces in turn |
| JavaAgents.JavaAgent.HandleProperties | src/com/enea/jcarder/agent/JavaAgent.java:123-142 | the pieces of a non-null argument string are set in turn; then the dump flag follows its property, and the log level is the named one, or an error when the name is unknown |
| JavaAgents.JavaAgent.HandleDumpProperty | src/com/enea/jcarder/agent/JavaAgent.java:144-146 | the dump flag is Boolean.getBoolean of the dump property |
| JavaAgents.JavaAgent.HandleLogLevelProperty | src/com/enea/jcarder/agent/JavaAgent.java:148-159 | the level named by the property (fine by default) is taken; an unknown name is an error and leaves the level alone |
| JavaAgents.DefaultLogLevelIsFine | src/com/enea/jcarder/agent/JavaAgent.java:149 | with no log-level property the level is FINE |
| LockIdGenerators.LockOf | src/com/enea/jcarder/agent/LockIdGenerator.java:63 | the Lock record of an object carries its class name and identity hash code |
| LockIdGenerators.LockIdGenerator.constructor | src/com/enea/jcarder/agent/LockIdGenerator.java:44-48 | no object has an id yet |
| LockIdGenerators.LockIdGenerator.AcquireLockId | src/com/enea/jcarder/agent/LockIdGenerator.java:57-66 | a known object gets its remembered id and the context file is untouched; a new one gets the offset, wrapped to an int, where its Lock record is appended to the file, and that id is remembered; the write fails, and nothing is remembered, exactly when the class name's record cannot fit the writer's buffer |
| LockIdGenerators.DistinctObjectsDistinctIds | src/com/enea/jcarder/agent/LockIdGenerator.java:57-66 | two different remembered objects have different ids while the context file is at most 2^31 bytes |
| LockIdGenerators.IdReadsBack | src/com/enea/jcarder/agent/LockIdGenerator.java:57-66 | the id of a remembered object, read back from the context file with readLock, is that object's Lock |
| LockIdGenerators.AcquireTwice | src/com/enea/jcarder/agent/LockIdGenerator.java:57-66 | the same object asked for twice gets one id, and the file gains at most one record |
| LockingContextIdCaches.LockingContextIdCache.constructor | src/com/enea/jcarder/agent/LockingContextIdCache.java:44-48 | an empty cache over the given context file writer |
| LockingContextIdCaches.LockingContextIdCache.AcquireLockingContextId | src/com/enea/jcarder/agent/LockingContextIdCache.java:59-70 | a context equal to a cached one gets its id and the file is untouched; a new one gets the offset, wrapped to an int, where its context record is appended, and that id is cached; the write fails, caching nothing, exactly when one of its three strings cannot fit the writer's buffer; the file only grows |
| LockingContextIdCaches.SameIdSameContext | src/com/enea/jcarder/agent/LockingContextIdCache.java:59-70 | two cached contexts with one id are equal, while the context file is at most 2^31 bytes |
| LockingContextIdCaches.IdReadsBack | src/com/enea/jcarder/agent/LockingContextIdCache.java:59-70 | the id of a cached context, read back from the context file with readContext, is that context |
| LockingContextIdCaches.ClearedSoftKeyEqualsOnlyItself | src/com/enea/jcarder/agent/LockingContextIdCache.java:125-138 | a soft key whose referent is cleared equals only itself |
| LockingContextIdCaches.KeyEqualityIsReferentEquality | src/com/enea/jcarder/agent/LockingContextIdCache.java:98-142 | strong and live soft keys of different objects are equal, either way round, exactly when their contexts are equal, and equal keys hash alike |
| ThreadLocalEnteredMonitors.ThreadLocalEnteredMonitors.constructor | src/com/enea/jcarder/agent/ThreadLocalEnteredMonitors.java:34-36 | every thread starts with an empty list |
| ThreadLocalEnteredMonitors.ThreadLocalEnteredMonitors.Iterator | src/com/enea/jcarder/agent/ThreadLocalEnteredMonitors.java:38-40 | the thread's monitors, empty for a thread that has none |
| ThreadLocalEnteredMonitors.ThreadLocalEnteredMonitors.GetFirst | src/com/enea/jcarder/agent/ThreadLocalEnteredMonitors.java:42-49 | null exactly for an empty list, and otherwise its first monitor |
| ThreadLocalEnteredMonitors.ThreadLocalEnteredMonitors.AddFirst | src/com/enea/jcarder/agent/ThreadLocalEnteredMonitors.java:51-53 | the monitor becomes the thread's first with the older ones behind it in order, and no other thread's list changes |
| ThreadLocalEnteredMonitors.AddTwo | src/com/enea/jcarder/agent/ThreadLocalEnteredMonitors.java:38-53 | monitors added one after another are iterated newest first |
| Locks.FromObject | src/com/enea/jcarder/common/Lock.java:29-37 | a lock of the given class name and object id |
| Locks.EqualsIsValueEquality | src/com/enea/jcarder/common/Lock.java:55-68 | equals holds exactly for a non-null lock with the same class name and object id |
| Locks.HashCodeConsistent | src/com/enea/jcarder/common/Lock.java:51-68 | equal locks have equal hash codes |
| Locks.ToStringRoundTrip | src/com/enea/jcarder/common/Lock.java:39-41 | for a class name without '@', the text before the last '@' is the class name and the text after it reads, as hex, to the unsigned object id |
| LockingContexts.HashCode | src/com/enea/jcarder/common/LockingContext.java:90-94 | the sum of the three string hashes, in int range |
| LockingContexts.EqualsIsValueEquality | src/com/enea/jcarder/common/LockingContext.java:75-88 | equals holds exactly for a non-null context with the same three fields |
| LockingContexts.HashCodeConsistent | src/com/enea/jcarder/common/LockingContext.java:75-94 | equal contexts have equal hash codes |
| LockingContexts.AlikeProperties | src/com/enea/jcarder/common/LockingContext.java:70-73 | equal contexts are alike, and alike ignores the thread name |
| LockingContexts.AlikeIsEquivalence | src/com/enea/jcarder/common/LockingContext.java:70-73 | alike is reflexive, symmetric and transitive |
| Logging.OrdinalIsIndex | src/com/enea/jcarder/util/logging/Logger.java:22-30 | each level's ordinal is its place in the declaration, the order compareTo follows |
| Logging.FirstMatch | src/com/enea/jcarder/util/logging/Logger.java:35-42 | the loop finds a level whose name equals the string ignoring case, and finds none exactly when no level's name does |
| Logging.NamesDistinctIgnoringCase | src/com/enea/jcarder/util/logging/Logger.java:22-30 | no two level names are equal ignoring case |
| Logging.FromStringName | src/com/enea/jcarder/util/logging/Logger.java:35-42 | fromString gives a level exactly when the string is that level's name in some letter case |
| Logging.FirstMatchByLength | src/com/enea/jcarder/util/logging/Logger.java:35-42 | a string shorter than four or longer than seven characters names no level |
| Logging.FromStringInfo | src/com/enea/jcarder/util/logging/Logger.java:35-42 | "info" names INFO |
| Logging.FromStringConfig | src/com/enea/jcarder/util/logging/Logger.java:35-42 | "Config" names CONFIG |
| Logging.FromStringUnknown | src/com/enea/jcarder/util/logging/Logger.java:35-42 | "nonexistent level" names no level |
| Logging.FromStringLongS | src/com/enea/jcarder/util/logging/Logger.java:35-42 | a long s (U+017F) in front of "evere" reads as SEVERE, as equalsIgnoreCase compares upper-cased characters |
| Logging.AppendableHandler.constructor | src/com/enea/jcarder/util/logging/AppendableHandler.java:24-37 | the handler's level is the one given, FINEST when none is |
| Logging.AppendableHandler.Publish | src/com/enea/jcarder/util/logging/AppendableHandler.java:39-51 | a message at or above the handler's level appends "LEVEL: message" and a newline; any other appends nothing |
| Logging.Logger.constructor | src/com/enea/jcarder/util/logging/Logger.java:55-57 | the given handlers, none for a null collection, at level FINEST |
| Logging.Logger.WithLevel | src/com/enea/jcarder/util/logging/Logger.java:65-72 | the given handlers, none for a null collection, at the given level |
| Logging.Logger.PublishLog | src/com/enea/jcarder/util/logging/Logger.java:152-158 | a loggable message reaches every handler once for each time it is listed; any other reaches none |
| Logging.Logger.PublishAll | src/com/enea/jcarder/util/logging/Logger.java:154-156 | each listed handler publishes the message once per listing |
| Logging.ReceivedOnce | src/com/enea/jcarder/util/logging/Logger.java:152-158 | a handler listed once receives exactly its own output of a loggable message |
| UtilLogger.FirstMatch | src/com/enea/jcarder/util/Logger.java:34-41 | the loop finds a level whose name equals the string ignoring case, and finds none exactly when no level's name does |
| UtilLogger.NamesDistinctIgnoringCase | src/com/enea/jcarder/util/Logger.java:20-26 | no two level names are equal ignoring case |
| UtilLogger.FromStringName | src/com/enea/jcarder/util/Logger.java:34-41 | fromString gives a level exactly when the string is that level's name in some letter case |
| UtilLogger.FirstMatchNoC | src/com/enea/jcarder/util/Logger.java:20-26 | no level of this logger has a name starting with C |
| UtilLogger.FromStringConfig | src/com/enea/jcarder/util/Logger.java:34-41 | this logger has no CONFIG level, so "config" names none |
| UtilLogger.LogSystem.constructor | src/com/enea/jcarder/util/Logger.java:44-70 | the main file level starts at FINE; the file writer exists exactly when the log file could be opened |
| UtilLogger.LogSystem.SetFileLogLevel | src/com/enea/jcarder/util/Logger.java:129-131 | only the main file level changes |
| UtilLogger.Logger.constructor | src/com/enea/jcarder/util/Logger.java:72-74 | a logger's file level is the main file level when it is created |
| UtilLogger.Logger.Log | src/com/enea/jcarder/util/Logger.java:89-159 | severe, warning and info also go to the console; a file line is written as handleFileLog gives it; the main level is untouched |
| UtilLogger.FileLogCases | src/com/enea/jcarder/util/Logger.java:137-159 | a file line is written exactly when the logger's level admits the message and the file writer exists |
| LockGraph.Raised | src/com/enea/jcarder/analyzer/LockNode.java:51-55 | the higher of the current and the new cycle type, which is one of the two |
| LockGraph.Inserted | src/com/enea/jcarder/analyzer/LockEdge.java:42-49 | a transition with a new key is stored as it is; a repeat keeps the stored gates and adds its weight to the stored one; nothing else changes |
| LockGraph.InsertedCounts | src/com/enea/jcarder/analyzer/LockEdge.java:42-65 | an insertion adds the transition's weight to the total and one unique transition exactly when its key is new |
| LockGraph.WeightIsUniquePlusDuplicates | src/com/enea/jcarder/analyzer/LockEdge.java:55-65 | the events an edge stands for are its unique transitions plus their duplicates |
| LockGraph.Merged | src/com/enea/jcarder/analyzer/LockNode.java:57-64 | the transitions of two edges put together have the keys of both |
| LockGraph.MergedWeight | src/com/enea/jcarder/analyzer/LockNode.java:57-64 | merging two edges adds up the events of both |
| LockGraph.LockEdge.constructor | src/com/enea/jcarder/analyzer/LockEdge.java:36-40 | an edge between the two locks with no transitions |
| LockGraph.LockEdge.HashCode | src/com/enea/jcarder/analyzer/LockEdge.java:149-156 | the edge hash stays in int range |
| LockGraph.EdgeHashCodeConsistent | src/com/enea/jcarder/analyzer/LockEdge.java:133-156 | equal edges have equal keys and equal hash codes |
| LockGraph.LockEdge.AddTransition | src/com/enea/jcarder/analyzer/LockEdge.java:42-49 | the transitions become those Inserted gives |
| LockGraph.LockEdge.Merge | src/com/enea/jcarder/analyzer/LockMultiEdge.java:32-34 | a multi-edge ignores the merge; a plain edge takes in the other's transitions as addTransition would |
| LockGraph.LockEdge.AddTransitions | src/com/enea/jcarder/analyzer/LockNode.java:57-64 | adding every transition of another map gives the merged map |
| LockGraph.LockEdge.NumberOfDuplicatedTransitions | src/com/enea/jcarder/analyzer/LockEdge.java:59-65 | the sum of the transitions' duplicate counts |
| LockGraph.LockEdge.PopulateContextIdTranslationMap | src/com/enea/jcarder/analyzer/LockMultiEdge.java:48-55 | every source and target context id of the transitions is mapped to itself, other entries kept |
| LockGraph.LockEdge.TranslateContextIds | src/com/enea/jcarder/analyzer/LockEdge.java:76-83 | the transitions become the translated ones, transitions made equal are merged, and the total weight is kept |
| LockGraph.LockEdge.ContainsAlike | src/com/enea/jcarder/analyzer/LockEdge.java:100-107 | true exactly when some transition of the list is alike this one |
| LockGraph.LockEdge.RemoveAlikeTransitions | src/com/enea/jcarder/analyzer/LockEdge.java:85-98 | one or no transition is left alone; otherwise the kept transitions are unchanged originals, pairwise not alike, and every original is alike a kept one |
| LockGraph.IndexOfAlike | src/com/enea/jcarder/analyzer/LockEdge.java:121-127 | the position of the first alike transition of the other list, or the end when none is alike |
| LockGraph.ValuesInSomeOrder | src/com/enea/jcarder/analyzer/LockEdge.java:117-118 | the list copy holds every transition of the map once |
| LockGraph.LockEdge.Alike | src/com/enea/jcarder/analyzer/LockEdge.java:109-131 | fails exactly when a multi-edge is compared with a plain edge; otherwise true exactly when the endpoints are alike and the transitions pair off into alike transitions |
| LockGraph.LockEdge.GetUniqueThreadId | src/com/enea/jcarder/analyzer/LockMultiEdge.java:141-152 | the one thread id all transitions share, or -1 when they differ; a transition recorded under thread -1 may be passed over |
| LockGraph.LockEdge.ThreadsDisagree | src/com/enea/jcarder/analyzer/LockMultiEdge.java:141-152 | two transitions on different threads leave no unique thread |
| LockGraph.LockEdge.HasUniqueThreadId | src/com/enea/jcarder/analyzer/LockMultiEdge.java:154-161 | true exactly when every transition has the given thread |
| LockGraph.LockEdge.CommonGates | src/com/enea/jcarder/analyzer/LockMultiEdge.java:163-177 | the gate ids every transition has, empty when there is no transition |
| LockGraph.LockEdge.GetCommonGateLockIds | src/com/enea/jcarder/analyzer/LockMultiEdge.java:163-177 | fails exactly when there is no transition, and otherwise gives the gates every transition has |
| LockGraph.LockEdge.CommonGatesByFirst | src/com/enea/jcarder/analyzer/LockMultiEdge.java:163-177 | the first transition's gates cut down by every other transition's are the common gates |
| LockGraph.LockNode.constructor | src/com/enea/jcarder/analyzer/LockNode.java:38-41 | a node of the lock id with no edges and no cycle |
| LockGraph.LockNode.RaiseCycleType | src/com/enea/jcarder/analyzer/LockNode.java:51-55 | the cycle type becomes the higher of the two and the edges stay |
| LockGraph.LockNode.AddOutgoingEdge | src/com/enea/jcarder/analyzer/LockNode.java:57-64 | an edge with a new key is stored as given; a repeat is merged into the stored edge, which a multi-edge ignores; no other edge changes |
| LockGraph.LockNode.PopulateContextIdTranslationMap | src/com/enea/jcarder/analyzer/LockNode.java:66-73 | every context id of every outgoing edge is mapped to itself, other entries kept |
| LockGraph.LockNode.TranslateContextIds | src/com/enea/jcarder/analyzer/LockNode.java:75-82 | every edge stays under its key and holds the translation of its transitions; the cycle type is kept |
| LockGraph.TranslateEdges | src/com/enea/jcarder/analyzer/LockNode.java:75-82 | the loop leaves the same edges under the same keys, each with translated transitions |
| LockGraph.LockNode.NumberOfDuplicatedEdges | src/com/enea/jcarder/analyzer/LockNode.java:96-102 | the sum over the outgoing edges of their duplicates |
| LockGraph.LockNode.ToStringNamesId | src/com/enea/jcarder/analyzer/LockNode.java:88-90 | the node's name is "L_" followed by its lock id, which reads back |
| LockGraph.LockNode.Alike | src/com/enea/jcarder/analyzer/LockNode.java:104-109 | fails exactly when the reader lacks a lock; otherwise true exactly when the two locks have the same class name |
| LockGraph.NodeAlikeIsEquivalence | src/com/enea/jcarder/analyzer/LockNode.java:104-109 | node alike is reflexive, symmetric and transitive on readable locks |
| LockGraphBuilders.HeldKey | src/com/enea/jcarder/analyzer/LockGraphBuilder.java:74-77 | shared-lock events use the negated lock id, in int arithmetic; every other event the id itself |
| LockGraphBuilders.HeldOf | src/com/enea/jcarder/analyzer/LockGraphBuilder.java:63-68 | the thread's held locks, empty for a thread seen for the first time |
| LockGraphBuilders.Enter | src/com/enea/jcarder/analyzer/LockGraphBuilder.java:80-84 | an enter of a held lock counts it once more; any other lock becomes held once in this context; nothing else changes |
| LockGraphBuilders.Exit | src/com/enea/jcarder/analyzer/LockGraphBuilder.java:130-139 | an exit counts the lock down and drops it at zero; nothing else changes |
| LockGraphBuilders.ExitUndoesEnter | src/com/enea/jcarder/analyzer/LockGraphBuilder.java:80-139 | an exit undoes the enter before it, whether that enter took the lock afresh or again |
| LockGraphBuilders.AddTo | src/com/enea/jcarder/analyzer/LockGraphBuilder.java:108-117 | one transition is added to the edge under the key, which is made when missing; the other edges stay |
| LockGraphBuilders.AcquireView | src/com/enea/jcarder/analyzer/LockGraphBuilder.java:104-121 | a fresh acquire gives the target and every held lock a node |
| LockGraphBuilders.AcquireViewEdges | src/com/enea/jcarder/analyzer/LockGraphBuilder.java:104-121 | a fresh acquire adds to each held lock exactly the edge to the target, and on it the transition of this thread from the held lock's context to the new one, gated by all held locks, or one more count of an equal transition; nothing else changes |
| LockGraphBuilders.EventOutcomeCases | src/com/enea/jcarder/analyzer/LockGraphBuilder.java:59-144 | an enter of a held lock re-enters it; an enter of a lock or context the reader lacks is ignored, the lock checked first; any other enter acquires; an exit releases a held lock and ignores any other |
| LockGraphBuilders.HeldAfterCases | src/com/enea/jcarder/analyzer/LockGraphBuilder.java:80-139 | acquiring holds the lock once, re-entering counts it up, releasing counts it down and drops it at zero, and an ignored event leaves the held locks as they were |
| LockGraphBuilders.LockGraphBuilder.constructor | src/com/enea/jcarder/analyzer/LockGraphBuilder.java:45-48 | no nodes and no held locks, with the given context reader |
| LockGraphBuilders.LockGraphBuilder.GetLockNode | src/com/enea/jcarder/analyzer/LockGraphBuilder.java:50-57 | the node of the id, made without edges and stored on first use; a known id leaves the graph as it was |
| LockGraphBuilders.LockGraphBuilder.OnLockEvent | src/com/enea/jcarder/analyzer/LockGraphBuilder.java:59-144 | the outcome is as EventOutcomeCases states; the thread's held locks become those the outcome gives; only a fresh acquire changes the graph, and it then adds exactly the acquire's edges and transitions, keeping every node; a graph without self-loops keeps none |
| LockGraphBuilders.AcquireAddsNoSelfLoop | src/com/enea/jcarder/analyzer/LockGraphBuilder.java:104-121 | a fresh acquire adds edges only from held locks to a lock not held, so never an edge from a lock to itself |
| LockGraphBuilders.LockGraphBuilder.Acquire | src/com/enea/jcarder/analyzer/LockGraphBuilder.java:104-121 | the thread now holds the lock once, and the graph gets the acquire's edges and transitions |
| LockGraphBuilders.LockGraphBuilder.AddAcquire | src/com/enea/jcarder/analyzer/LockGraphBuilder.java:104-118 | the graph half of a fresh acquire: every old node is kept and the graph becomes the acquire view |
| LockGraphBuilders.LockGraphBuilder.GetNodes | src/com/enea/jcarder/analyzer/LockGraphBuilder.java:104-109 | the acquired lock and every held lock have a node, new ones without edges |
| LockGraphBuilders.AddEdge | src/com/enea/jcarder/analyzer/LockGraphBuilder.java:109-117 | the edge from the held lock to the target gets the transition; no other node's edges change |
| LockGraphBuilders.AddEdgesTo | src/com/enea/jcarder/analyzer/LockGraphBuilder.java:108-118 | the edges from every held lock to the target get their transitions, as the acquire view states |
| LockGraphBuilders.StoreEdge | src/com/enea/jcarder/analyzer/LockGraphBuilder.java:116-117 | the edge to the target is stored when missing and otherwise the stored one is kept; the edge now stored and its transitions are returned; no other edge changes |
| LockGraphBuilders.LockGraphBuilder.Clear | src/com/enea/jcarder/analyzer/LockGraphBuilder.java:146-148 | the nodes are forgotten |
| OptionFormatters.Spaces | src/com/enea/jcarder/util/OptionFormatter.java:53-57 | exactly n spaces, and none when n is zero or negative |
| OptionFormatters.AddSpace | src/com/enea/jcarder/util/OptionFormatter.java:53-57 | the builder gains exactly Spaces(n) at its end |
| OptionFormatters.AddSpaceTest | test/com/enea/jcarder/util/TestOptionFormatter.java:34-40 | adding 0 spaces leaves the builder empty and adding 2 gives two spaces |
| OptionFormatters.Words | src/com/enea/jcarder/util/OptionFormatter.java:64 | split("\\s+") yields pieces free of whitespace, and only the first can be empty (a leading run of whitespace) |
| OptionFormatters.WordsOfJoin | src/com/enea/jcarder/util/OptionFormatter.java:64 | for non-empty words without whitespace, splitting their single-space join gives back exactly those words |
| OptionFormatters.WordsOfTestText | test/com/enea/jcarder/util/TestOptionFormatter.java:44 | "foo gazonk x y" splits into foo, gazonk, x and y |
| OptionFormatters.WrapText | src/com/enea/jcarder/util/OptionFormatter.java:59-83 | the loop's lines are the greedy packing Pack of the text's words into lines of the given width |
| OptionFormatters.PackKeepsWords | src/com/enea/jcarder/util/OptionFormatter.java:65-79 | no word is lost or added: the lines joined by single spaces equal the words joined by single spaces |
| OptionFormatters.PackNoEmptyLines | src/com/enea/jcarder/util/OptionFormatter.java:78-80 | no produced line is empty |
| OptionFormatters.PackFits | src/com/enea/jcarder/util/OptionFormatter.java:65-76 | every line fits the width unless it is a single over-long word |
| OptionFormatters.PackGreedy | src/com/enea/jcarder/util/OptionFormatter.java:65-69 | a line is closed only when the next line's first word would not fit after it |
| OptionFormatters.WrapTextProperties | src/com/enea/jcarder/util/OptionFormatter.java:59-83 | wrapText's lines are non-empty, fit unless one long word, keep the description's words in order, and are greedy |
| OptionFormatters.WrapTable | test/com/enea/jcarder/util/TestOptionFormatter.java:43-65 | the full width table of the wrapping test for widths 1 to 15 |
| OptionFormatters.IndentText | src/com/enea/jcarder/util/OptionFormatter.java:85-100 | first indent, then each line ended by a newline, every line after the first behind indent spaces |
| OptionFormatters.IndentTextTest | test/com/enea/jcarder/util/TestOptionFormatter.java:68-77 | lines foo, " bar", gazonk with indents 4 and 1 give " foo\n     bar\n    gazonk\n" |
| OptionFormatters.IndentTextResult | test/com/enea/jcarder/util/TestOptionFormatter.java:74 | the expected text of the indent test is the concatenation the indent rules produce |
| OptionFormatters.OptionFormatter.constructor | src/com/enea/jcarder/util/OptionFormatter.java:29-33 | the three settings are stored as given |
| OptionFormatters.OptionFormatter.Format | src/com/enea/jcarder/util/OptionFormatter.java:35-51 | appends the option part and then the wrapped, indented description, or a lone newline for a null description |
| OptionFormatters.OptionFormatter.FormatOption | src/com/enea/jcarder/util/OptionFormatter.java:36-44 | the option behind its indent, with a newline and a full first indent when it reaches the description column, else padding up to that column |
| OptionFormatters.OptionFormatter.FormatDescription | src/com/enea/jcarder/util/OptionFormatter.java:45-50 | a null description adds one newline; otherwise its lines wrapped to maxWidth minus the description indent |
| OptionFormatters.FormattedUnwrapped | src/com/enea/jcarder/util/OptionFormatter.java:42-49 | a short option is padded to the description column and the description starts on the same line |
| OptionFormatters.FormattedNoDescription | src/com/enea/jcarder/util/OptionFormatter.java:45-46 | a short option with a null description is followed by just a newline |
| OptionFormatters.FormatUnwrappedLine | test/com/enea/jcarder/util/TestOptionFormatter.java:14-21 | indents 2 and 6 with width 15 format -x and "foo bar" as "  -x  foo bar\n" |
| OptionFormatters.FormatWrappedLine | test/com/enea/jcarder/util/TestOptionFormatter.java:24-31 | the same formatter moves gazonk to a second line at column 6 |
| OptionParsers.SplitOption | src/com/enea/jcarder/util/OptionParser.java:46-55 | the flag has no space, there is a value name exactly when the option has a space, and flag, space and value name rebuild the option |
| OptionParsers.SplitOptionRoundTrip | src/com/enea/jcarder/util/OptionParser.java:46-55 | a space-free flag and an optional value name, joined the way the help text writes them, split back into themselves |
| OptionParsers.ArgumentsStart | src/com/enea/jcarder/util/OptionParser.java:119-124 | where the plain arguments begin, never past the end of the command line |
| OptionParsers.ScanArgumentsAreSuffix | src/com/enea/jcarder/util/OptionParser.java:116-150 | after a successful parse, the arguments are the command line from ArgumentsStart on, and the first of them is plain |
| OptionParsers.ScanAssignsRegisteredFlags | src/com/enea/jcarder/util/OptionParser.java:128-143 | every parsed option is a registered flag, and it has a value exactly when the flag takes one |
| OptionParsers.ScanErrors | src/com/enea/jcarder/util/OptionParser.java:133-147 | an error names an argument before the plain ones that is either an unregistered flag or a valued flag in last place with no value after it, with that message |
| OptionParsers.OptionParser.constructor | src/com/enea/jcarder/util/OptionParser.java:24-25 | no arguments, no parsed options and no registered options |
| OptionParsers.OptionParser.AddOption | src/com/enea/jcarder/util/OptionParser.java:45-60 | the registered options gain (or replace) the flag before the first space, with its value name and description; nothing else changes |
| OptionParsers.OptionParser.Parse | src/com/enea/jcarder/util/OptionParser.java:116-150 | the old parsed options updated with the scan's assignments in order; on success the plain arguments, on error that exception and no arguments |
| OptionParsers.OptionParser.ParseOption | src/com/enea/jcarder/util/OptionParser.java:128-147 | one flag step: it moves past the flag and its value, or it ends with the scan's error and its assignments made |
| OptionParsers.OptionParser.GetOptionHelp | src/com/enea/jcarder/util/OptionParser.java:77-94 | the help text of every registered flag in sorted order, using indents 2 and 23 and width 79 |
| OptionParsers.FormatAll | src/com/enea/jcarder/util/OptionParser.java:83-92 | the listed flags, each formatted with its value name and description, concatenated in order |
| OptionParsers.BelowIrreflexive | src/com/enea/jcarder/util/OptionParser.java:82 | the string order used for sorting is irreflexive |
| OptionParsers.BelowTransitive | src/com/enea/jcarder/util/OptionParser.java:82 | the string order is transitive |
| OptionParsers.BelowTotal | src/com/enea/jcarder/util/OptionParser.java:82 | any two different strings are ordered one way or the other |
| OptionParsers.SortedKeys | src/com/enea/jcarder/util/OptionParser.java:80-82 | the sorted flags come from the registered set |
| OptionParsers.SortedKeysSorted | src/com/enea/jcarder/util/OptionParser.java:80-82 | the sorted flags list every registered flag exactly once, in ascending order |
| OptionParsers.AscendingUnique | src/com/enea/jcarder/util/OptionParser.java:82 | two ascending lists with the same members are equal, so the sorted order is unique |
| OptionParsers.SortStrings | src/com/enea/jcarder/util/OptionParser.java:80-82 | the loop's list is SortedKeys of the flags |
| OptionParsers.LeastOf | src/com/enea/jcarder/util/OptionParser.java:82 | the scan finds the least member of a non-empty set |
| OptionParsers.NoArguments | test/com/enea/jcarder/util/TestOptionParser.java:30-36 | an empty command line parses to no options and no arguments |
| OptionParsers.OrdinaryArguments | test/com/enea/jcarder/util/TestOptionParser.java:39-48 | foo and bar are both kept as arguments and no option is parsed |
| OptionParsers.InvalidFlag | test/com/enea/jcarder/util/TestOptionParser.java:51-56 | an unregistered -foo is an invalid-flag error |
| OptionParsers.OptionWithoutValue | test/com/enea/jcarder/util/TestOptionParser.java:59-73 | a valueless -foo maps to null and bar stays an argument |
| OptionParsers.OptionWithValue | test/com/enea/jcarder/util/TestOptionParser.java:76-90 | a valued -foo takes fie as its value and fum stays an argument |
| OptionParsers.OptionMissingValue | test/com/enea/jcarder/util/TestOptionParser.java:108-112 | a valued -foo as the last argument is a missing-value error |
| OptionParsers.HelpOrder | test/com/enea/jcarder/util/TestOptionParser.java:95-103 | the four test flags sort as -b, -f, -fie, -foo |
| OptionParsers.AddFlag | test/com/enea/jcarder/util/TestOptionParser.java:95-98 | registering a space-free flag with a value name records both |
| OptionParsers.RegisterHelpTestOptions | test/com/enea/jcarder/util/TestOptionParser.java:94-98 | the help-text test's four addOption calls register exactly its four flags |
| OptionParsers.HelpTextTest | test/com/enea/jcarder/util/TestOptionParser.java:93-105 | the help text of the test: -b alone, -f and -fie Y padded to column 23 with their descriptions, -foo X alone |
| ContextReaders.ContextReader.ReadLock | src/com/enea/jcarder/common/contexts/ContextReaderIfc.java:8 | a lock id is read exactly when the store holds it, and reads as the stored lock |
| ContextReaders.ContextReader.ReadContext | src/com/enea/jcarder/common/contexts/ContextReaderIfc.java:7 | a context id is read exactly when the store holds it, and reads as the stored context |
| InstrumentationUtilities.GetInternalName | src/com/enea/jcarder/agent/instrument/InstrumentationUtilities.java:48-50 | the internal name has the class name's length, no '.', and every other character where it was |
| InstrumentationUtilities.InternalNameRoundTrip | src/com/enea/jcarder/agent/instrument/InstrumentationUtilities.java:48-50 | a class name without '/' comes back from its internal name when '/' is turned back into '.' |
| InstrumentedAttributes.Plain | src/com/enea/jcarder/agent/instrument/InstrumentedAttribute.java:26-28 | the attribute built without a type has the prefix itself as its type |
| InstrumentedAttributes.Typed | src/com/enea/jcarder/agent/instrument/InstrumentedAttribute.java:30-32 | the attribute built with a type has the prefix, a dot and that type as its type |
| InstrumentedAttributes.EveryInstrumentedAttributeMatches | src/com/enea/jcarder/agent/instrument/InstrumentedAttribute.java:26-44 | every attribute either constructor builds is recognised by matchAttribute and writes an empty body; a type shorter than the prefix is not recognised |
| LockClassSubstituters.SubstitutionRules | src/com/enea/jcarder/agent/instrument/LockClassSubstituterAdapter.java:45-83 | only NEW ReentrantLock and its no-argument constructor call are rewritten, into a TracingReentrantLock built through its String constructor; nothing the rewrite emits is rewritten again |
| LockClassSubstituters.OtherConstructorsKept | src/com/enea/jcarder/agent/instrument/LockClassSubstituterAdapter.java:48-70 | a ReentrantLock constructor with arguments and a NEW of any other class pass through unchanged |
| LockClassSubstituters.SubstituteBody | src/com/enea/jcarder/agent/instrument/LockClassSubstituterAdapter.java:45-83 | after the rewrite a method body creates no ReentrantLock, and rewriting it again changes nothing |
| InstrumentationContexts.ConvertFromJvmInternalNames | src/com/enea/jcarder/agent/instrument/InstrumentationContext.java:66-78 | null gives "null???"; any other description has no '/' left and, unless it is "class", is the description with '/' turned into '.' |
| InstrumentationContexts.ConvertKeepsDottedNames | src/com/enea/jcarder/agent/instrument/InstrumentationContext.java:71-76 | a description without '/' is kept, except the class's own Class object, which becomes "class" |
| InstrumentationContexts.OwnClassIsClass | src/com/enea/jcarder/agent/instrument/InstrumentationContext.java:72-73 | the class's own ".class" reference, written in internal form, is reported as "class" |
| InstrumentationContexts.InstrumentationContext.constructor | src/com/enea/jcarder/agent/instrument/InstrumentationContext.java:23-31 | a new context holds the class name, "<unknown>" as method and source file, and line -1 |
| InstrumentationContexts.InstrumentationContext.SetSourceFile | src/com/enea/jcarder/agent/instrument/InstrumentationContext.java:33-35 | only the source file changes, to the given one |
| InstrumentationContexts.InstrumentationContext.SetMethodName | src/com/enea/jcarder/agent/instrument/InstrumentationContext.java:45-47 | only the method name changes, to the given one |
| InstrumentationContexts.InstrumentationContext.SetLineNumber | src/com/enea/jcarder/agent/instrument/InstrumentationContext.java:53-55 | only the line number changes, to the given one |
| InstrumentationContexts.InstrumentationContext.WatchLineNumber | src/com/enea/jcarder/agent/instrument/InstrumentationContext.java:81-96 | every call is passed on unchanged; a visitLineNumber sets the line number first, any other call leaves it |
| InstrumentationContexts.CallContextShape | src/com/enea/jcarder/agent/instrument/InstrumentationContext.java:61-64 | the call context starts with "Class.method", ends with the line number and ")", and the line number reads back from it |
| ClassAdapters.ManipulatedAccessFlags | src/com/enea/jcarder/agent/instrument/ClassAdapter.java:69 | the flags an instrumented method is declared with lack ACC_SYNCHRONIZED, and together with the original's synchronized bit give back the original flags |
| ClassAdapters.ManipulatedAccessKeeps | src/com/enea/jcarder/agent/instrument/ClassAdapter.java:66-69 | clearing the synchronized flag keeps the static and native flags, and keeps the flags of a method that is not synchronized |
| ClassAdapters.StaticSynchronizedEntry | src/com/enea/jcarder/agent/instrument/ClassAdapter.java:86-112 | at the code start of a static synchronized method the writer receives the code start, Class.forName of the class, the callback reporting the lock as "class", the MONITORENTER and the try label, and the analyzer's stack is empty again |
| ClassAdapters.InstanceSynchronizedEntry | src/com/enea/jcarder/agent/instrument/ClassAdapter.java:86-112 | at the code start of an instance synchronized method the writer receives the code start, ALOAD 0, the callback reporting "this", the MONITORENTER and the try label, and the analyzer's stack is empty again |
| ClassAdapters.UnsynchronizedPassThrough | src/com/enea/jcarder/agent/instrument/ClassAdapter.java:97-115 | in a method that is not synchronized, a call other than MONITORENTER or a ReentrantLock creation reaches the writer unchanged and steps the analyzer once |
| ClassAdapters.PassAllFacts | src/com/enea/jcarder/agent/instrument/ClassAdapter.java:86-98 | the chain's analyzer follows every call it is passed, and the writer's calls only grow |
| ClassAdapters.MethodChain.constructor | src/com/enea/jcarder/agent/instrument/ClassAdapter.java:86-98 | a new chain has written nothing and shares the class's context |
| ClassAdapters.MethodChain.PassOn | src/com/enea/jcarder/agent/instrument/ClassAdapter.java:86-98 | one call is watched for its line number, stepped through the analyzer and passed through the substitution and the monitor-enter adapter to the writer |
| ClassAdapters.MethodChain.Visit | src/com/enea/jcarder/agent/instrument/ClassAdapter.java:70-115 | a native method's visitor hands each call straight to the writer; any other chain does, call by call, what the simulation, the watcher, the analyzer and the two adapters do |
| ClassAdapters.ClassAdapter.constructor | src/com/enea/jcarder/agent/instrument/ClassAdapter.java:40-46 | a new adapter owns a fresh context for the class, with unknown method and source file and line -1 |
| ClassAdapters.ClassAdapter.Visit | src/com/enea/jcarder/agent/instrument/ClassAdapter.java:48-52 | the class header is passed on, followed by the "DeadLock" instrumented attribute |
| ClassAdapters.ClassAdapter.VisitSource | src/com/enea/jcarder/agent/instrument/ClassAdapter.java:54-58 | the source file is recorded in the context and passed on |
| ClassAdapters.ClassAdapter.VisitMethod | src/com/enea/jcarder/agent/instrument/ClassAdapter.java:60-117 | a native method keeps its flags and gets the writer's visitor; any other is declared without ACC_SYNCHRONIZED, becomes the context's method and gets a chain with an empty analyzer, simulating the synchronization exactly when it was synchronized |
| ClassTransformers.IsInstrumentable | src/com/enea/jcarder/agent/instrument/ClassTransformer.java:173-189 | no reason is given exactly for AWT and Swing classes and for classes outside java., javax. and sun.; every other class gets "standard library class" |
| ClassTransformers.InstrumentableExamples | src/com/enea/jcarder/agent/instrument/ClassTransformer.java:173-189 | java.awt. and javax.swing. classes are instrumented, java.lang. and sun. classes are not, an application class is |
| ClassTransformers.OwnClassExamples | src/com/enea/jcarder/agent/instrument/ClassTransformer.java:97-100 | the agent's own classes are skipped, its test classes and other classes are not |
| ClassTransformers.DumpPathOfInternalName | src/com/enea/jcarder/agent/instrument/ClassTransformer.java:214-217 | with "/" as separator, a class is dumped under its base directory at its JVM internal name plus ".class" |
| ClassTransformers.ClassLoader.constructor | src/com/enea/jcarder/agent/instrument/ClassTransformer.java:144-153 | a loader records its parent, and the parent chain stays finite |
| ClassTransformers.ClassTransformer.constructor | src/com/enea/jcarder/agent/instrument/ClassTransformer.java:52-73 | the original and instrumented class directories are under the output directory, and nothing has been dumped |
| ClassTransformers.ClassTransformer.IsCompatibleClassLoader | src/com/enea/jcarder/agent/instrument/ClassTransformer.java:134-153 | a loader is compatible exactly when the agent's loader is null or is the loader itself or one of its ancestors |
| ClassTransformers.ClassTransformer.DumpClassToFile | src/com/enea/jcarder/agent/instrument/ClassTransformer.java:210-225 | the content is written to the base directory, then the class name with '.' replaced by the separator, then ".class" |
| ClassTransformers.ClassTransformer.Transform | src/com/enea/jcarder/agent/instrument/ClassTransformer.java:75-132 | a class is rewritten exactly when it is not the agent's, is instrumentable, has a compatible loader and the rewrite does not throw; a throw dumps the original, and a success dumps both files when dumping is configured |
| HierarchyListeners.HierarchyListener.constructor | src/com/enea/jcarder/agent/instrument/HierarchyListener.java:17-21 | a new listener has visited no class and no interface |
| HierarchyListeners.HierarchyListener.Visit | src/com/enea/jcarder/agent/instrument/HierarchyListener.java:27-38 | a class's superclass is recorded under its name and an interface is remembered as one; nothing else changes |
| HierarchyListeners.HierarchyListener.ExternalByName | src/com/enea/jcarder/agent/instrument/HierarchyListener.java:125-130 | a class reflection can load by its dotted name becomes an external class of that name; any other raises ClassNotFoundException |
| HierarchyListeners.HierarchyListener.GetClazz | src/com/enea/jcarder/agent/instrument/HierarchyListener.java:78-86 | Object gives null, a visited class gives the class itself, any other is an external class or ClassNotFoundException |
| HierarchyListeners.HierarchyListener.ExternalParent | src/com/enea/jcarder/agent/instrument/HierarchyListener.java:143-149 | an external class's parent is null when its superclass is Object and a loadable external class otherwise; a null superclass throws NullPointerException |
| HierarchyListeners.HierarchyListener.GetParent | src/com/enea/jcarder/agent/instrument/HierarchyListener.java:113-149 | a parent is null or a class reflection knows; a failure is ClassNotFoundException or NullPointerException |
| HierarchyListeners.HierarchyListener.Parents | src/com/enea/jcarder/agent/instrument/HierarchyListener.java:69-76 | a class's chain ends with the class itself, and null's chain is empty |
| HierarchyListeners.HierarchyListener.GetClassParents | src/com/enea/jcarder/agent/instrument/HierarchyListener.java:69-76 | the loop pushing each name to the front yields the root-first chain Parents defines, or its failure |
| HierarchyListeners.HierarchyListener.GetCommonSuperClass | src/com/enea/jcarder/agent/instrument/HierarchyListener.java:40-67 | Object when either class is Object, an interface or cannot be loaded; otherwise the last class the two root-first chains share |
| HierarchyListeners.CommonOfChains | src/com/enea/jcarder/agent/instrument/HierarchyListener.java:52-63 | popping both chains while they agree ends on the last class they share from the root, or Object |
| HierarchyListeners.CommonPrefixLength | src/com/enea/jcarder/agent/instrument/HierarchyListener.java:54-60 | the count of leading classes two chains share: they agree up to it and differ at it |
| HierarchyListeners.CommonSuperClassOf | src/com/enea/jcarder/agent/instrument/HierarchyListener.java:52-63 | the answer for two chains is Object or a class on both |
| HierarchyListeners.CommonSuperClassSymmetric | src/com/enea/jcarder/agent/instrument/HierarchyListener.java:52-63 | the answer for two chains does not depend on their order |
| HierarchyListeners.AncestorIsCommon | src/com/enea/jcarder/agent/instrument/HierarchyListener.java:52-63 | when one chain starts the other, the answer is the last class of the shorter one: an ancestor is the common superclass of itself and its descendant |
| HierarchyListeners.Diverging | src/com/enea/jcarder/agent/instrument/HierarchyListener.java:52-63 | two chains that part below a shared root give the last class they share |
| HierarchyListeners.CommonSuperClassOrderFree | src/com/enea/jcarder/agent/instrument/HierarchyListener.java:40-67 | getCommonSuperClass gives the same answer in either order whenever neither order throws |
| HierarchyListeners.CommonSuperClassIsShared | src/com/enea/jcarder/agent/instrument/HierarchyListener.java:40-67 | every answer is Object or a class on both classes' chains |
| HierarchyListeners.VisitedSubclass | src/com/enea/jcarder/agent/instrument/HierarchyListener.java:27-67 | for two visited classes, a direct subclass of Object and a subclass of it, the base is their common superclass in either order, and the subclass is its own |
| MonitorEnterAdapters.MethodLabel | src/com/enea/jcarder/agent/instrument/MonitorEnterMethodAdapter.java:40 | the method label starts with the class name, ends with "()", and is three characters longer than class and method name |
| MonitorEnterAdapters.AdaptRules | src/com/enea/jcarder/agent/instrument/MonitorEnterMethodAdapter.java:44-55 | every call is passed on last; only a MONITORENTER gets, before it, DUP, the converted stack top, the method label and the static call of StaticEventListener.beforeMonitorEnter |
| MonitorEnterAdapters.DottedReference | src/com/enea/jcarder/agent/instrument/MonitorEnterMethodAdapter.java:57-69 | a stack top without '/' that is not the class's own literal is passed as it is |
| MonitorEnterAdapters.ShortReference | src/com/enea/jcarder/agent/instrument/MonitorEnterMethodAdapter.java:57-69 | a stack top without '/' shorter than six characters is passed as it is |
| MonitorEnterAdapters.DupStore | src/com/enea/jcarder/agent/instrument/MonitorEnterMethodAdapter.java:44-55 | the DUP and ASTORE javac puts before MONITORENTER leave the analyzer's stack, and so the reported top, where it was |
| MonitorEnterAdapters.SynchronizedFieldReported | test/com/enea/jcarder/testclasses/instrumentation/SynchronizedField.java:12-25 | synchronized on a field of the class itself reports "Cls.mSync" |
| MonitorEnterAdapters.FieldReference | src/com/enea/jcarder/agent/instrument/MonitorEnterMethodAdapter.java:57-69 | a field reference "owner.field" of the class itself is reported dotted as "Cls.field" |
| MonitorEnterAdapters.SynchronizedThisReported | test/com/enea/jcarder/testclasses/instrumentation/SynchronizedThis.java:25-37 | synchronized (this) reports "this" |
| MonitorEnterAdapters.SynchronizedClassLiteralReported | test/com/enea/jcarder/testclasses/instrumentation/SynchronizedClass.java:10-22 | synchronized on another class's literal reports "Name.class", as in "java.lang.String.class" |
| MonitorEnterAdapters.SynchronizedExpressionReported | test/com/enea/jcarder/testclasses/instrumentation/SynchronizedExpression.java:14-27 | a monitor chosen by a conditional expression, whose branches meet at a label, reports "???" |
| MonitorEnterAdapters.SynchronizedNewObjectReported | test/com/enea/jcarder/testclasses/instrumentation/SynchronizedNewObject.java:25-36 | synchronized (new Object()) reports "java.lang.Object.<init>()" |
| MonitorEnterAdapters.SynchronizedFromLocalVariableReported | test/com/enea/jcarder/testclasses/instrumentation/SynchronizedFromLocalVariable.java:28-44 | a monitor stored in a local variable and loaded again reports the field it came from, "Cls.mSync" |
| MonitorEnterAdapters.StoreLabelLoad | src/com/enea/jcarder/agent/instrument/StackAnalyzeMethodVisitor.java:169-308 | storing the top into slot 1, passing a label and loading slot 1 leaves exactly the stored description on the stack |
| StackAnalyzers.Peek | src/com/enea/jcarder/agent/instrument/StackAnalyzeMethodVisitor.java:77-83 | the top entry's text, or "???" on an empty stack |
| StackAnalyzers.PopObject | src/com/enea/jcarder/agent/instrument/StackAnalyzeMethodVisitor.java:89-95 | the top entry and the stack below it, which together make the stack; "???" and an empty stack when there is nothing to pop |
| StackAnalyzers.ClassNameEnd | src/com/enea/jcarder/agent/instrument/StackAnalyzeMethodVisitor.java:240 | the end of a class type in a descriptor lies after where it starts, within the descriptor |
| StackAnalyzers.CountParametersWithClassType | src/com/enea/jcarder/agent/instrument/StackAnalyzeMethodVisitor.java:240 | "(IDL" + class + ";)" + return type has three parameters for any class name without ';' and any return type |
| StackAnalyzers.CountParametersBaseTypes | src/com/enea/jcarder/agent/instrument/StackAnalyzeMethodVisitor.java:240 | "(IDZ)" has three parameters and "()" none, whatever the return type |
| StackAnalyzers.ClassNameEndSkips | src/com/enea/jcarder/agent/instrument/StackAnalyzeMethodVisitor.java:240 | a class type ends just after its first ';' |
| StackAnalyzers.RunConcat | src/com/enea/jcarder/agent/instrument/StackAnalyzeMethodVisitor.java:43-329 | visiting two runs of calls one after the other is visiting their concatenation |
| StackAnalyzers.InvalidatingAndTransparentEvents | src/com/enea/jcarder/agent/instrument/StackAnalyzeMethodVisitor.java:105-328 | code start and end, frames, labels, jumps, switches, try/catch blocks, iinc and int instructions empty the stack and keep the name table; type instructions, line numbers, local variables, annotations, attributes and maxs change nothing |
| StackAnalyzers.FieldAndZeroOperandRules | src/com/enea/jcarder/agent/instrument/StackAnalyzeMethodVisitor.java:125-157 | GETFIELD replaces the object with "owner.name", GETSTATIC pushes it, any other field instruction clears; DUP pushes a copy of the top's description, any other zero-operand instruction clears |
| StackAnalyzers.ThisFieldRead | src/com/enea/jcarder/agent/instrument/StackAnalyzeMethodVisitor.java:125-304 | ALOAD 0 then GETFIELD in an instance method leaves exactly "owner.name" on top of the stack it started with |
| StackAnalyzers.StoreThenLoad | src/com/enea/jcarder/agent/instrument/StackAnalyzeMethodVisitor.java:291-311 | storing the top into a slot and loading it again gives back its description, or "this" for slot 0 of an instance method, and records the name in the table |
| StackAnalyzers.UnstoredSlot | src/com/enea/jcarder/agent/instrument/StackAnalyzeMethodVisitor.java:294-303 | a slot never stored into loads as "<localVariableN>", and slot 0 of an instance method as "this" |
| StackAnalyzers.ForNameOfConstant | src/com/enea/jcarder/agent/instrument/StackAnalyzeMethodVisitor.java:176-233 | LDC of a name then Class.forName leave that name's class literal "name.class" and keep the name table |
| StackAnalyzers.ForNameStep | src/com/enea/jcarder/agent/instrument/StackAnalyzeMethodVisitor.java:224-233 | Class.forName on a String constant replaces it with its class literal |
| StackAnalyzers.CallRule | src/com/enea/jcarder/agent/instrument/StackAnalyzeMethodVisitor.java:213-253 | any other call forgets the stack and, for an invoke opcode, leaves "owner.name()" when the method is non-void or a constructor; the name table is kept |
| StackAnalyzers.ReturnTypeRule | src/com/enea/jcarder/agent/instrument/StackAnalyzeMethodVisitor.java:255-258 | for a descriptor "(params)ret" the method is non-void exactly when ret is empty or does not start with 'V', or the method is a constructor |
| StackAnalyzers.StackAnalyzeMethodVisitor.constructor | src/com/enea/jcarder/agent/instrument/StackAnalyzeMethodVisitor.java:52-58 | a new analyzer has an empty stack and an empty name table |
| StackAnalyzers.StackAnalyzeMethodVisitor.PeekTop | src/com/enea/jcarder/agent/instrument/StackAnalyzeMethodVisitor.java:77-83 | peek is Peek of the stack |
| StackAnalyzers.StackAnalyzeMethodVisitor.PopEntry | src/com/enea/jcarder/agent/instrument/StackAnalyzeMethodVisitor.java:89-95 | popObject returns and removes what PopObject gives |
| StackAnalyzers.StackAnalyzeMethodVisitor.Visit | src/com/enea/jcarder/agent/instrument/StackAnalyzeMethodVisitor.java:105-328 | every call is passed on unchanged, and the stack and name table become what Step gives |
| StackAnalyzers.StackAnalyzeMethodVisitor.VisitMethodInsn | src/com/enea/jcarder/agent/instrument/StackAnalyzeMethodVisitor.java:212-253 | a method call leaves the stack and name table Step gives |
| SimulateMethodSyncs.SimulateRules | src/com/enea/jcarder/agent/instrument/SimulateMethodSyncMethodAdapter.java:44-95 | visitCode is passed on followed by the monitor reference, MONITORENTER and the try label; a return is preceded by the monitor reference and MONITOREXIT; visitMaxs is preceded by the finally label, the monitor reference, MONITOREXIT, ATHROW and a catch-all handler over [try, finally) at finally; every other visit passes through unchanged |
| SimulateMethodSyncs.MonitorReferenceShape | src/com/enea/jcarder/agent/instrument/SimulateMethodSyncMethodAdapter.java:97-103 | the monitor reference is one or two instructions, none of them a return or a monitor instruction |
| SimulateMethodSyncs.SimulateCounts | src/com/enea/jcarder/agent/instrument/SimulateMethodSyncMethodAdapter.java:44-95 | one visit adds exactly one MONITORENTER for visitCode, one MONITOREXIT for a return or visitMaxs, no return, and leaves every return just after a MONITOREXIT |
| SimulateMethodSyncs.CodeCounts | src/com/enea/jcarder/agent/instrument/SimulateMethodSyncMethodAdapter.java:44-59 | the code visitCode produces holds one MONITORENTER, no MONITOREXIT and no return, and starts with visitCode |
| SimulateMethodSyncs.ReturnCounts | src/com/enea/jcarder/agent/instrument/SimulateMethodSyncMethodAdapter.java:80-95 | the code a return produces holds one MONITOREXIT, no MONITORENTER, the one return right after the MONITOREXIT |
| SimulateMethodSyncs.MaxsCounts | src/com/enea/jcarder/agent/instrument/SimulateMethodSyncMethodAdapter.java:64-78 | the code visitMaxs produces holds one MONITOREXIT and no MONITORENTER or return, and starts at the finally label |
| SimulateMethodSyncs.HandlerCounts | src/com/enea/jcarder/agent/instrument/SimulateMethodSyncMethodAdapter.java:71-77 | the handler's tail MONITOREXIT, ATHROW, handler, maxs holds one MONITOREXIT and no return |
| SimulateMethodSyncs.BodyCounts | src/com/enea/jcarder/agent/instrument/SimulateMethodSyncMethodAdapter.java:80-95 | over the instructions between visitCode and visitMaxs, MONITOREXITs grow by the number of returns, MONITORENTERs and returns stay the same, and every return follows a MONITOREXIT |
| SimulateMethodSyncs.SimulatedMethodBalances | src/com/enea/jcarder/agent/instrument/SimulateMethodSyncMethodAdapter.java:44-95 | over a whole method, the result has one MONITORENTER more than the original, one MONITOREXIT more per return plus one for the handler, the same returns, and every return right after a MONITOREXIT |
| SimulateMethodSyncs.SimulatedMethodStarts | src/com/enea/jcarder/agent/instrument/SimulateMethodSyncMethodAdapter.java:44-78 | the rewritten method is visitCode, the monitor reference, MONITORENTER, the try label, the simulated body, then the finally block with its handler and the original visitMaxs |
| SimulateMethodSyncs.MethodPieces | src/com/enea/jcarder/agent/instrument/SimulateMethodSyncMethodAdapter.java:44-78 | a method is simulated as visitCode, its body and visitMaxs, each on its own |
| Download3pps.MatchAt | script/download-3pps.py:15 | a match at i is the literal kind="lib" path="3pp/ followed by a non-empty run without '"' and then a closing '"'; the run is the group |
| Download3pps.SearchFrom | script/download-3pps.py:15 | re.search: a match is found at some position from i on, and none is found exactly when no position matches |
| Download3pps.LibraryOf | script/download-3pps.py:15-17 | the library a line names is non-empty and holds no '"' |
| Download3pps.LibraryOfEntry | script/download-3pps.py:15-17 | a line holding an Eclipse lib entry for 3pp/jar, with no 'k' before it, yields exactly jar |
| Download3pps.LibrariesArePaths | script/download-3pps.py:12-18 | every library get_3pps returns is non-empty and holds no '"' |
| Download3pps.Get3pps | script/download-3pps.py:12-18 | the libraries of the lines, in the order of the lines, one per matching line |
| Download3pps.LineGroups | script/download-3pps.py:21 | when '(.*)\-(.+)\.jar' matches a line, the version group is not empty |
| Download3pps.VersionedJarUrl | script/download-3pps.py:20-23 | a jar named name-version.jar, with a version without '-', is fetched from the base URL, then name/version/, then the jar, whatever dashes the name holds |
| Download3pps.UnversionedJarUrl | script/download-3pps.py:20-25 | a jar name without '-' is fetched from the base URL followed by the jar |
| Download3pps.DownloadFile | script/download-3pps.py:27-35 | what is written is every byte served, read 2 ** 13 bytes at a time, with one more read that comes back empty or, on a dropped connection, raises; the download fails exactly when that last read raises, with the bytes before it already written |
| Download3pps.DownloadMissing | script/download-3pps.py:37-47 | the files, the URLs announced and the failure flag are those of Fetch over the libraries of the .classpath lines: a library whose file exists is skipped, a missing one is announced and downloaded, a URL that cannot be opened ends the run with no file made, and a read that raises ends it with the received bytes left as the file |
| Download3pps.FetchedAll | script/download-3pps.py:42-47 | after a run that did not fail, the file of every library exists, and no file was removed |
| Download3pps.FetchKeeps | script/download-3pps.py:42-47 | every run, failed or not, leaves each file that existed before it present and byte-for-byte unchanged |
| Download3pps.OnlyMissingAnnounced | script/download-3pps.py:42-47 | every URL announced is that of a library whose file did not exist before the run, so a library whose file exists is skipped with no message and no download |
| Download3pps.PartialFileKept | script/download-3pps.py:27-47 | a read that raises after the file was opened fails the run with the received bytes as the library's file, and the next run takes that truncated file as present and keeps it |
| Download3pps.NothingToFetch | script/download-3pps.py:42-47 | when every library's file exists, nothing is announced, downloaded or changed |
| Download3pps.DownloadIdempotent | script/download-3pps.py:37-47 | a second run after a run that did not fail announces nothing and changes no file |
| Download3pps.JunitUrl | script/download-3pps.py:10-23 | get_url("junit-4.4.jar") is the base URL followed by junit/4.4/junit-4.4.jar |
| UpdateBlurb.Starred | script/update-blurb.py:11-29 | each licence text becomes one blurb line: " *", the text and a newline, in order |
| UpdateBlurb.SpaceEnd | script/update-blurb.py:36 | the run of whitespace from i ends at the first non-whitespace character or at the end of the line |
| UpdateBlurb.FirstCode | script/update-blurb.py:35-37 | every line before the first code line matches \s*(/\|\*\|$), and the first code line does not |
| UpdateBlurb.UpdateFile | script/update-blurb.py:31-48 | the file is rewritten exactly when the lines before its first code line differ from the blurb, and afterwards holds the blurb followed by its code lines; a file not rewritten keeps its content |
| UpdateBlurb.BlurbIsHeader | script/update-blurb.py:11-29 | every line of the blurb is one update_blurb counts as blurb, not code |
| UpdateBlurb.FirstCodeAfterBlurb | script/update-blurb.py:35-41 | in header lines followed by code, the code starts right after the header |
| UpdateBlurb.UpdateIdempotent | script/update-blurb.py:31-48 | updating an updated file gives the same file, and its blurb lines equal the blurb, so it is not rewritten |
| UpdateBlurb.UpdateKeepsCode | script/update-blurb.py:31-48 | the original file is its old blurb followed by the code the updated file keeps after the blurb |
| UpdateBlurb.VisitedJava | script/update-blurb.py:55-56 | updating one more Java file keeps every file as the listing so far says: listed Java files updated, all others unchanged |
| UpdateBlurb.VisitedOther | script/update-blurb.py:55 | passing over a file whose name does not end in .java keeps every file as the listing so far says |
| UpdateBlurb.UpdateAll | script/update-blurb.py:52-56 | after the loop every listed .java file is updated, every other file unchanged, and no file is added or removed |
| UpdateBlurb.UpdateSources | script/update-blurb.py:50-56 | main: the files under src and then test that end in .java are updated, all other files keep their content |
| UpdateBlurb.UpdateSourcesIdempotent | script/update-blurb.py:50-56 | running main a second time over the same listing changes no file |
| ContextFileWriter.ContextFileWriter.GrowCapacity | src/com/enea/jcarder/common/contexts/ContextFileWriter.java:106-109 | the capacity doubles until the size fits; this succeeds exactly when the size is at most the largest power of two an int holds, and otherwise fails with the IllegalArgumentException allocateDirect raises for the overflowed negative capacity; the capacity never shrinks |
| ContextFileWriter.ContextFileWriter.DoubleCapacity | src/com/enea/jcarder/common/contexts/ContextFileWriter.java:108 | 2 * capacity as an int: negative exactly when the capacity is already 2^30, in which case the capacity is kept; otherwise the capacity doubles |
| ContextFileWriter.ContextFileWriter.Put | src/com/enea/jcarder/common/contexts/ContextFileWriter.java:90-92 | the bytes are appended to the buffer and the next file position grows by their count, wrapped to an int; nothing is written to the channel |
| OptionParsers.OptionParser.CopyArgument | src/com/enea/jcarder/util/OptionParser.java:125-126 | once the plain arguments have begun, each argument is appended to the argument list |
| OptionParsers.ParseEnd | src/com/enea/jcarder/util/OptionParser.java:116-150 | at the end of the loop the parsed options are the old ones updated with every flag the scan assigns and the arguments are those the scan keeps |
| JavaLang.StringHashSupplementary | src/com/enea/jcarder/common/LockingContext.java:90-94 | a character outside the Basic Multilingual Plane contributes its two UTF-16 surrogates to String.hashCode |

## Left out

Environment and mechanisms:

- File and channel I/O (`RandomAccessFile`, memory mapping, the `FileChannel.write` retry loops) is not modelled. A file is the byte sequence it holds, and a write appends to it.
- The single-thread executor of `EventFileWriter`, `Future.get`, interrupt handling and shutdown hooks are not modelled. Each call does its work at once.
- Concurrency is not modelled: `synchronized`, `ThreadLocal` as a mechanism, and `StaticEventListener`'s global listener. Each thread's list of entered monitors is a sequence kept per thread id, and object identity is a Dafny reference.
- Weak and soft references, `ReferenceQueue` sweeps and garbage collection are not modelled. Entries in `IdentityWeakHashMap` and `LockingContextIdCache` are never collected, because collection depends on the garbage collector.
- `System.identityHashCode` is not modelled beyond identity; the model compares references.
- ASM is not modelled: ClassReader and ClassWriter, FrameClassWriter, ClassInfoCache, CheckClassAdapter, and label and frame mechanics. Instructions are a datatype, and rewriting a class file is a parameter of `ClassTransformers.ClassTransformer.Transform`.
- `ClassTransformer.deleteDirRecursively` is not modelled, because it is file-system I/O. A dumped class file is recorded as its path and content.
- `HierarchyListener.ExternalClazz` reflection (`Class.forName`) is not modelled. The classes outside the visited ones are a map from class name to superclass and flags.
- `HierarchyListener.setDelegate` (HierarchyListener.java:23) and `visitClass` (:88) only chain visitor calls into ASM and are not modelled.
- HierarchyListeners.HierarchyListener.Parents: the parent walk is bounded by a fuel of the number of visited and external classes plus one. On a cyclic hierarchy, which no class loader produces, it returns the error Java's unbounded deque would end in (OutOfMemoryError).
- The analyzer's `main` (the command line, printing, writing `.gv` files and `System.exit`) is not modelled, because it is I/O. Its option names do not match its dispatch: `-d <directory>` is declared at Analyzer.java:219, but `-i` is tested at Analyzer.java:245.
- `JavaAgent.init`, `initLogger`, `logJvmInfo` and the shutdown hook are not modelled. The `@TIME@` substitution (JavaAgent.java:164) is not modelled either, because it reads the wall clock. Only `handleProperties` and `handleLogLevelProperty` are modelled.
- `EnteredMonitor`, `TracingReentrantLock`, `LockTracer` and `BuildInformation` are not modelled. They are threads, wrappers that print, and resource loading.
- The static log-file initialiser of `util/Logger.java` is not modelled. Its file log level is a parameter.
- The interfaces `EventListenerIfc`, `LockingContextAcquiringIfc`, `LockIdAcquiringIfc`, `ContextReaderIfc`, `Handler` and `InvalidOptionException` are used only as signatures.
- `ContextWriterIfc` is not a type of its own. `EventListener`, `LockIdGenerator` and `LockingContextIdCache` take the `ContextFileWriter` that `EventListener.create` gives them (EventListener.java:60-68). `ContextMemory`, the in-memory implementation the tests use, is modelled on its own and not plugged into them.
- `LockEventListenerIfc`, the sink `EventListener` reports to, is the sequence of events it received (`EventListeners.EventListener.events`), not an `EventFileWriter`.
- The example programs, the test fixtures (`testclasses`, `TransformClassLoader`, `MonitorWithContext` and `BtMonitorEventListener`) and the unit tests are not modelled. They run real threads and class loading. Several unit tests serve only as evidence of the intended behaviour.
- Script I/O is not modelled:
  - `urlopen` is a map from URL to a response: the bytes served and whether the read after them raises. A URL missing from the map is one `urlopen` fails on;
  - the bytes written before a read raises are taken to reach the file, as they do when the interpreter closes the still-open file on exit;
  - `mkdir` and `os.path.exists` are the key set of the file map;
  - the destination directory taken from `argv` or the script's directory is a parameter;
  - `print` output is the list of announced URLs;
  - `os.walk` is a map from directory to the files it lists;
  - update-blurb's temporary file and rename are one map update;
  - the `normpath` of the root is a parameter.
- UpdateBlurb.Listing: the ".java" test is applied to the joined path. That is the same as testing the file name, since the path ends with the name.
- Strings are Dafny strings of Unicode scalar values. Character-level operations (`equalsIgnoreCase`, `split`, `trim`) act on those values. `JavaLang.StringHash` is taken over the UTF-16 code units of the string, as `String.hashCode` is.
- Bytes.MalformedLength: counts malformed UTF-8 units as the decoder of JDK 8 and later does (sun.nio.cs.UTF_8). Older JDKs split some malformed sequences differently.
- ContextFileWriter.ContextFileWriter.WriteBuffer: a flush after close still reaches the model's channel. In Java the write on the closed channel throws ClosedChannelException, so a write after close that needs a flush fails; only a second close is modelled as failing.
- JavaLang.EqualsIgnoreCase: models Java's case mappings only for characters that map onto an ASCII letter. Those are the ASCII letters, U+0131 and U+017F (upper case) and U+0130 and U+212A (lower case). Any other two characters are equal ignoring case only when they are identical. The test is exact whenever one side is ASCII, and the source only compares strings against the ASCII level names.

Version skew: several call sites in this revision call methods their callee does not declare. Each stand-in below is named.

- LockGraph.LockEdge.Merge: `LockNode.addOutgoingEdge` calls `merge` (LockNode.java:62), which LockEdge does not declare. The stand-in adds the other edge's transitions as `addTransition` does. On a multi-edge it does nothing.
- LockGraph.LockNode.PopulateContextIdTranslationMap: LockNode.java:68-71 calls `getSourceLockingContextId` and `getTargetLockingContextId` on an edge, but only LockTransition has them. The stand-in calls the edge's own `populateContextIdTranslationMap` (LockEdge.java:69-72), which maps the ids of every transition to themselves.
- LockGraph.LockNode.NumberOfDuplicatedEdges: LockNode.java:99 calls `getDuplicates` on an edge, but only LockTransition has it. The stand-in sums the edge's `numberOfDuplicatedTransitions`.
- Cycles.IsSingleThreaded: Cycle.java:76-78 calls `getThreadId` on an edge, which LockEdge does not declare. The stand-in is LockEdge's `getUniqueThreadId` (LockEdge.java:166), which gives -1 for an edge taken by more than one thread.
- Cycles.IsGated: Cycle.java:92 calls `getGateLockIds` on an edge. The stand-in is LockEdge's `getCommonGateLockIds` (LockEdge.java:188).
- Graphviz.EdgeToPrint: GraphvizGenerator.java:114-116 reads `getSourceLockingContextId` and `getTargetLockingContextId` from an edge. The model passes each edge to print together with the two context ids that are read from it.
- LockGraph.LockEdge.Multi: LockMultiEdge's constructor calls a three-argument `super` (LockMultiEdge.java:14) that LockEdge does not have. The model makes both kinds from the one LockEdge class, and tells them apart with `isMulti`.
- LockGraphBuilders.EventOutcome: the exit branch tests `SHARED_LOCK_UNLOCK` (LockGraphBuilder.java:125), which the enum does not declare. The enum has exactly six values (LockEventListenerIfc.java:30-36). The model reads that name as the enum's `SHARED_RLOCK_UNLOCK`. Every type that is not an enter is then an exit, so the `else` that throws (LockGraphBuilder.java:141-143) is unreachable and not modelled.
- EventListeners.EventListener: EventListener.java:89 constructs `LockingContextIdCache(logger, writer)` and :203 calls `acquireContextId`. The class declares only a one-argument constructor (LockingContextIdCache.java:44) and `acquireLockingContextId`. The model calls the declared ones. The boolean first argument of `onLockEvent` at :205 is kept as a boolean in the recorded event (`EventListeners.MonitorEvent`); it is not turned into an event type.
- LockingContextIdCaches.LockingContextIdCache.AcquireLockingContextId: LockingContextIdCache.java:66 calls `writeLockingContext`, which ContextWriterIfc does not declare (ContextWriterIfc.java:10-12). The model calls the declared `writeContext` of the ContextFileWriter it is given (ContextFileWriter.java:120).
- EventFileReader.ParseFile: the reader decodes 24-byte records of four ints and a long, but EventFileWriter writes 17-byte records. No round trip between the two is stated, because none holds.
- ContextReaders.ContextReader: the interface declares `readLockingContext` (ContextReaderIfc.java:7), but its callers use `readContext`. The model has `ReadContext`.
- StackAnalyzers.CountParameters: StackAnalyzeMethodVisitor.java:240 calls `InstrumentationUtilities.countParameters`, which InstrumentationUtilities.java does not declare. The stand-in counts the parameter types of a JVM method descriptor, as TestInstrumentationUtilities.java:30-34 expects.
- LockGraphBuilders.AddEdge: LockGraphBuilder.java:116 calls `addTransition` on the result of `LockNode.addOutgoingEdge`, which returns void (LockNode.java:57). The stand-in (`LockGraphBuilders.StoreEdge`) returns the edge now stored under the key, and that edge gets the transition.
- The tests call constructors the source does not declare, such as `LockGraphBuilder(Logger, boolean, null)` and AppendableHandler's format-string constructor. Those tests are not modelled.

Weaker or narrower contracts:

- Counters.Counter.Increment: requires a non-zero log interval, where Java's `%` would throw ArithmeticException. Every caller passes a positive constant (EventListener.java:91, EventFileWriter.java:62, CycleDetector.java:59).
- Counters.Counter.LevelFor: requires a non-zero log interval, for the same reason.
- Logging.Logger.WithLevel: takes a non-null level. Java accepts null (Logger.java:65-72), and `isLoggable` would then throw NullPointerException on the first message.
- ContextReaders.ContextReader.ReadLock: looks an id up as it is. The builder looks up the negated id of a shared lock, so whether that lookup succeeds is up to the map. ContextFileReader.ReadLock looks up `Math.abs(id)`, which the model states (`JavaAbs`). ContextMemory's `list.get` fails on a negative index. The model does not tie a particular implementation to the map the builder is given.
- Cycles.IsSingleThreaded: requires that no transition carries the thread id -1. Java thread ids are positive, and every transition is made from an event's thread id. The requires keeps a real -1 apart from the -1 that `getUniqueThreadId` returns for several threads.
- Cycles.IsGated: requires that every edge of the cycle has at least one transition, where `getCommonGateLockIds` would throw on an empty edge. The builder gives every edge its first transition when it creates it (LockGraphBuilder.java:103-122).
- CycleDetectors.CycleDetector.RemoveSingleThreadedCycles: filters with the test as written (`Cycles.SingleThreaded`), so a cycle whose every edge was taken by several threads is removed. The corrected test is `Cycles.IsSingleThreadedIntended` (see Findings). The filter keeps the source's behaviour.
- LockIdGenerators.DistinctObjectsDistinctIds: holds while the context file is at most 2^31 bytes. The ids are file offsets wrapped to an int (ContextFileWriter.java:113-117), so in a longer file two records can share an id, in the source as in the model.
- LockIdGenerators.IdReadsBack: holds while the context file is at most 2^31 bytes, for the same reason.
- LockingContextIdCaches.SameIdSameContext: holds while the context file is at most 2^31 bytes, for the same reason.
- LockingContextIdCaches.IdReadsBack: holds while the context file is at most 2^31 bytes, for the same reason.
- LockIdGenerators.LockIdGenerator.AcquireLockId: requires a class name whose UTF-8 encoding is at most INT_MAX - 4 bytes, so that its length is an int. No Java string encodes to more, since a byte array has at most INT_MAX elements.
- LockingContextIdCaches.LockingContextIdCache.AcquireLockingContextId: requires the same of the context's three strings.
- EventListeners.EventListener.LockEvent: requires the same of the monitor's class name and of the context's strings.
- EventListeners.EventListener.BeforeMonitorEnter: requires the same of the monitor's class name and of the context's strings.
- EventListeners.EventListener.BeforeMonitorExit: requires the same of the monitor's class name and of the context's strings.
- CycleDetectors.CycleDetector.AnalyzeLockNodes: the two-edge bound holds for graphs without self-loops, which are the graphs LockGraphBuilder builds (`LockGraphBuilders.AcquireAddsNoSelfLoop`); the graph the detector gets is a parameter, not tied to a builder run.
- CycleDetectors.CycleDetector.AnalyzeLockNodes: completeness is stated in general terms, not as concrete graphs. If the graph's ids are unique and no cycle was stored, no walk from a root returns to a node it passed. Acyclic graphs store none (`RankedNoCycles`), and a tail edge into a cycle is not part of it (`UnenteredOutsideCycles`). The concrete graphs of TestCycleDetector.java:75-104 are instances of these clauses and are not written out.

## Findings

| source | as written | input that shows it | evidently intended | confidence | as-written member | corrected member |
|---|---|---|---|---|---|---|
| src/com/enea/jcarder/analyzer/LockTransition.java:101-104 | the target id is translated only when the new source id differs from the old target id, and is then looked up unconditionally | the transition from context 7 to context 2 under the map {2: 12} unboxes a missing source entry (NullPointerException); the transition 1 to 2 under {1: 2, 2: 3} keeps its stale target 2 | each of the two ids is replaced by its entry in the map when it has one | not executed | LockTransitions.TranslateAsWritten (with LockTransitions.TranslateAsWrittenNullPointer and LockTransitions.TranslateAsWrittenSkipsTarget) | LockTransitions.Translate (with LockTransitions.TranslateIdempotent; LockTransitions.TranslateAsWrittenAgrees and DuplicatedEdgesHandlers.CanonicalAsWritten show the two agree on the maps the handler builds) |
| src/com/enea/jcarder/analyzer/Cycle.java:72-84 | isSingleThreaded compares the edges' thread ids, and an edge taken by several threads reports -1 | any cycle whose every edge was taken by two or more threads, for example two edges each taken by threads 1 and 2: every edge reports -1, so the cycle counts as single-threaded | a cycle is single-threaded only when one thread took every transition of every edge | not executed | Cycles.MultiThreadedEdgesLookSingleThreaded | Cycles.IsSingleThreadedIntended (with Cycles.IntendedMeansOneThread) |
