# Zero-trust network mapper: verified model

A Dafny model of the parts of the zero-trust network mapper whose correctness is not obvious from
reading one function, with proofs of what they promise. `dafny verify dfyconfig.toml` checks all of it.

* **Graph algorithms** (`Graphs`, `Paths`, `Scc`, `Tarjan`, `Kosaraju`, `Hops`, `Bfs`, `Dijkstra`). The
  iterative single-pass Tarjan with its explicit frames, the two-pass Kosaraju with post-visit markers and
  stale stack entries, queue BFS and lazy-deletion Dijkstra. Unordered iteration is an arbitrary order. Both
  component detectors are proved against `Scc.SccPartition`, which knows only paths, and both reachability
  analyzers against `Hops.IsBall`, which knows only shortest distances.
* **Stream estimators and the port-scan detector** (`Bits`, `Keys`, `Murmur`, `HashValues`, `CountMin`,
  `Columns`, `Rows`, `MisraGries`, `HashMapExact`, `Estimators`, `Detector`, `DetectorTheorems`,
  `WindowLaws`). Each estimator is tied to the true frequencies of the keys of its stream, the detector's tumbling
  windows and deduplication run any of them, and the three detectors are compared alert by alert on every stream.
* **Longest-prefix-match trie** (`LpmTrie`): heap nodes refined to a finite map from prefixes to labels. It is
  a plain binary trie, although its header calls it a Patricia trie.
* **Aggregator correlator** (`Sorting`, `Correlator`, `CorrelatorTheorems`, `CorrelatorLaws`): suppression, upgrade
  and concurrent eviction.
* **Pipeline engine** (`GraphGrowth`, `Alerts`, `Pipeline`, `PipelineTheorems`, `PipelineLaws`, `MergeRun`): the event
  loop with all of the above, from input lines to alerts, stated over the list of events so far.
* **Collector, pipeline and tool formats** (`Numerals`, `Json`, `Ipv4`, `RoundTrip`, `ReaderLaws`,
  `Generator`): the printed lines and their two parsers, for every event, on a little-endian host.
* **Report weeks** (`IsoWeek`) and the **approve / reject / execute protocol** (`Actions`,
  `ActionLaws`).

The theorems about runs name functions of the model; what those functions mean is stated apart from them, in plain
arithmetic on times, counts, texts and paths, in the modules whose names end in `Laws`, in `Rows` and in `HashValues`.

Classes carry the source's mutable fields; each method's contract gives the new state as a function of the old
one, and the theorems are about those functions and about whole runs. Integer widths, wrap-around, truncating
casts and shifts are explicit wherever the source relies on them.

Findings where the code does not do what one might expect, with the condition under which it does not:

* The two reachability analyzers differ for negative hop limits, and only there (`Hops.AnalyzersAgree`).
* Evictions show in a run exactly when an alert comes late (`CorrelatorTheorems.EvictionVisibleToLateAlertsOnly`),
  and then a duplicate can be emitted again (`CorrelatorTheorems.LateAlertSeesEviction`). Times that never go back in
  the order in which calls take the lock rule this out (`CorrelatorTheorems.EvictionIsInvisible`), but the source
  does not enforce that order, even with one clock: alerts may carry their own times, and both `Process` and
  `evictExpired` read the clock before they take the lock.
* An approval whose handler stops, or is lost with its process, before executing is lost for good
  (`Actions.CanStillRun`, `Actions.ApprovalCanBeLost`, `Actions.CrashLosesApproval`).
* A detection reports components only when their number exceeds every earlier number
  (`PipelineTheorems.ComponentReported`), so one that forms while others merge is passed over
  (`MergeRun.NewComponentPassedOver`).
* Incident keys join kind and source with a bar, so kinds that contain one can share an incident with another kind
  (`CorrelatorLaws.KeysCollide`); this needs a bar in a kind (`CorrelatorLaws.SameKey`, `CorrelatorLaws.KeysSeparate`).
* A window start of 0 stands for "no window yet", so events at time 0 never close a window and the next event starts it
  anew (`WindowLaws.WindowLaw`).
* A negative threshold or detection interval switches its alerts off instead of being rejected
  (`PipelineLaws.Threshold`, `PipelineLaws.DetectionEvery`).
* Octets of 256 and more are reduced to 8 bits by the pipeline and not by the tool, and addresses with missing octets
  are completed with zeros by the one and become 0 in the other (`ReaderLaws.PipelineAddress`,
  `ReaderLaws.ToolAddress`, `ReaderLaws.OctetOver255`).

## Model

| member | source | states |
|---|---|---|
| Graphs.DirectedGraph.AddVertex | pipeline/libdsa/src/graph/directed_graph.cpp:7-9 | Adds the vertex without neighbours if it is new and keeps everything else, the edge counter included. |
| Graphs.DirectedGraph.AddEdge | pipeline/libdsa/src/graph/directed_graph.cpp:11-18 | The edge set gains exactly this pair; the separately kept counter stays the cardinality of the edge set whether or not the edge was there, and every edge ends in a vertex of the graph. |
| Graphs.DirectedGraph.RemoveEdge | pipeline/libdsa/src/graph/directed_graph.cpp:20-27 | The edge set loses exactly this pair, the vertices stay, and the counter stays the cardinality, also for absent edges and vertices. |
| Graphs.DirectedGraph.HasEdge | pipeline/libdsa/src/graph/directed_graph.cpp:33-37 | True exactly for the pairs of the edge set. |
| Graphs.DirectedGraph.NeighborList | pipeline/libdsa/src/graph/directed_graph.cpp:39-43 | The neighbours in an arbitrary order, each once; none for an unknown vertex. |
| Graphs.DirectedGraph.Vertices | pipeline/libdsa/src/graph/directed_graph.cpp:45-52 | The vertices in an arbitrary order, each once. |
| Graphs.DirectedGraph.Transpose | pipeline/libdsa/src/graph/directed_graph.cpp:62-71 | A fresh graph on the same vertices with exactly the reversed edges and the same edge count. |
| Graphs.DirectedGraph.Clear | pipeline/libdsa/src/graph/directed_graph.cpp:73-76 | The empty graph with no edges counted. |
| Graphs.TransposeEdgeCount | pipeline/libdsa/src/graph/directed_graph.cpp:62-71 | Reversing every edge keeps the number of edges. |
| Paths.ReachTranspose | pipeline/libdsa/src/graph/directed_graph.cpp:62-71 | One vertex reaches another in the transpose exactly when the second reaches the first. |
| Tarjan.FindSccs | pipeline/libdsa/src/graph/tarjan.cpp:8-92 | The iterative single pass returns the partition into strongly connected components, every edge leads to the same or an earlier component, for any iteration order, and the inner loop takes exactly V + E rounds over all starts. |
| Tarjan.SearchFrom | pipeline/libdsa/src/graph/tarjan.cpp:28-88 | One start keeps the whole invariant (frames form a path, stack segments are owned by active vertices, low-links are witnessed, emitted components are final) and the round count. |
| Tarjan.FinishTop | pipeline/libdsa/src/graph/tarjan.cpp:65-87 | Finishing the top frame, with or without emitting a component and with the unconditional update of the parent, keeps the invariant. |
| Tarjan.PopComponent | pipeline/libdsa/src/graph/tarjan.cpp:68-75 | The do-while loop takes exactly the stack from the root up, newest first, and clears exactly those on-stack flags. |
| Tarjan.FoldAfterEmitIsHarmless | pipeline/libdsa/src/graph/tarjan.cpp:79-86 | The low-link passed to the parent after a component was emitted never changes the parent's low-link. |
| Tarjan.NotARoot | pipeline/libdsa/src/graph/tarjan.cpp:67-67 | A vertex whose low-link differs from its discovery time has a parent on the active path and reaches it. |
| Tarjan.EmittedIsClosed | pipeline/libdsa/src/graph/tarjan.cpp:67-77 | No edge from a popped component leads back to what stays on the stack. |
| Tarjan.EmittedIsScc | pipeline/libdsa/src/graph/tarjan.cpp:67-77 | What is popped at a root is one whole strongly connected component. |
| Kosaraju.FindSccs | pipeline/libdsa/src/graph/kosaraju.cpp:7-81 | The two passes return the partition into strongly connected components, every edge leads to the same or a later component, and pass 1 pops at most 2V + E entries. |
| Kosaraju.FinishingOrder | pipeline/libdsa/src/graph/kosaraju.cpp:8-42 | Pass 1, with post-visit markers and stale entries left on the stack, lists every vertex once in a genuine depth-first finishing order within the pop bound. |
| Kosaraju.LatestFinish | pipeline/libdsa/src/graph/kosaraju.cpp:20-41 | If one vertex reaches another, some vertex of its component finishes no earlier than the other does. |
| Kosaraju.ComponentsFinishInOrder | pipeline/libdsa/src/graph/kosaraju.cpp:20-41 | For an edge from one component to another, the latest finish of the first comes after every finish of the second. |
| Kosaraju.Collect | pipeline/libdsa/src/graph/kosaraju.cpp:57-77 | One search of pass 2 on the transpose collects, each once, what it can reach outside the earlier components, and marks exactly that as visited. |
| Kosaraju.CollectedIsScc | pipeline/libdsa/src/graph/kosaraju.cpp:51-78 | What a search of pass 2 collects is exactly one strongly connected component. |
| Scc.SameComponents | pipeline/libdsa/src/graph/tarjan.cpp:76-91 | Any two detectors that return the partition return the same set of components and the same number of them. |
| Scc.OppositeOrders | pipeline/libdsa/src/graph/kosaraju.cpp:47-80 | An edge between different components goes to an earlier component in Tarjan's output and to a later one in Kosaraju's. |
| Scc.SameScc | pipeline/libdsa/src/graph/tarjan.cpp:76-76 | Components that share a vertex are equal, so no vertex is in two. |
| Bfs.ReachableWithin | pipeline/libdsa/src/graph/bfs.cpp:6-31 | The result is the ball: exactly the vertices at distance at most k, each with its shortest distance; for a negative k the ball of radius 0. |
| Dijkstra.ReachableWithin | pipeline/libdsa/src/graph/dijkstra.cpp:7-39 | The result is the ball of radius k, despite stale heap entries and the early exit; for a negative k it is empty. |
| Dijkstra.NothingInRange | pipeline/libdsa/src/graph/dijkstra.cpp:22-22 | The early exit is taken only for negative limits, before anything is settled. |
| Hops.AnalyzersAgree | pipeline/libdsa/src/graph/bfs.cpp:10-20 | The two analyzers return the same map exactly when the hop limit is not negative. |
| Hops.BallIsUnique | pipeline/libdsa/src/graph/dijkstra.cpp:10-38 | There is only one map with the required domain and shortest distances. |
| Hops.BallGrows | pipeline/libdsa/src/graph/bfs.cpp:15-28 | Raising the limit keeps every entry and adds only vertices beyond the old limit. |
| Keys.U32KeyInjective | pipeline/libdsa/include/dsa/frequency/estimator.h:30-31 | Different words have different four-byte keys. |
| Murmur.RotationsAreOrs | pipeline/libdsa/src/frequency/count_min_sketch.cpp:30-34 | The two rotations are the or of a left and a right shift of the 32-bit word. |
| Murmur.Hash | pipeline/libdsa/src/frequency/count_min_sketch.cpp:19-60 | The loop over whole blocks, the tail and the finalization compute the hash on 32-bit words, with every wrap-around, rotation and exclusive or spelled out. |
| Murmur.HashInjective | pipeline/libdsa/src/frequency/count_min_sketch.cpp:19-60 | For a fixed seed, different four-byte keys have different hashes. |
| Columns.HashIsAPermutation | pipeline/libdsa/src/frequency/count_min_sketch.cpp:19-60 | On four-byte keys the hash is a permutation of the 2^32 words, for every seed. |
| Columns.ColumnsAreBalanced | pipeline/libdsa/src/frequency/count_min_sketch.cpp:62-67 | For every width, every column of every row receives 2^32 / width of the four-byte keys, the first 2^32 % width columns one more; so all columns receive the same number when the width divides 2^32, as powers of two do. |
| HashValues.EmptyKey | pipeline/libdsa/src/frequency/count_min_sketch.cpp:19-60 | The empty key under seed 1 has the hash 0x514e28b7 that is published for the 32-bit MurmurHash3. |
| HashValues.FourByteKey | pipeline/libdsa/src/frequency/count_min_sketch.cpp:19-60 | The bytes 21 43 65 87 under seed 0 have the hash 0xf55b516b published for it, which fixes the multipliers, rotations and addend of the blocks. |
| HashValues.ThreeByteKey | pipeline/libdsa/src/frequency/count_min_sketch.cpp:19-60 | The bytes 21 43 65 under seed 0 have the published hash 0x7e4a8634, which fixes how the tail bytes are gathered. |
| Rows.SeedInjective | pipeline/libdsa/src/frequency/count_min_sketch.cpp:19-60 | For a fixed key of any length, different seeds give different hashes. |
| Rows.FirstSeeds | pipeline/libdsa/src/frequency/count_min_sketch.cpp:13-15 | The seeds start with 0x9e3779b9 and 0xefb43b70 and go on in equal steps modulo 2^32. |
| Rows.RowsDiffer | pipeline/libdsa/src/frequency/count_min_sketch.cpp:13-15 | No two of the first 2^32 rows hash any key to the same word. |
| CountMin.CountMinSketch.Record | pipeline/libdsa/src/frequency/count_min_sketch.cpp:62-67 | After recording, every cell again holds the number of keys of the stream that fall into it. |
| CountMin.CountMinSketch.Estimate | pipeline/libdsa/src/frequency/count_min_sketch.cpp:69-76 | The answer is the least cell of the key over all rows. |
| CountMin.CountMinSketch.Reset | pipeline/libdsa/src/frequency/count_min_sketch.cpp:78-82 | The sketch is that of the empty stream again. |
| CountMin.CellIsSumOfFrequencies | pipeline/libdsa/src/frequency/count_min_sketch.cpp:62-67 | Every cell is the sum of the true frequencies of the keys in its column. |
| CountMin.OrderDoesNotMatter | pipeline/libdsa/src/frequency/count_min_sketch.cpp:62-67 | The table depends only on the multiset of the stream. |
| CountMin.RowSumIsLength | pipeline/libdsa/src/frequency/count_min_sketch.cpp:62-67 | Every row sums to the length of the stream. |
| CountMin.HeavyColumns | pipeline/libdsa/src/frequency/count_min_sketch.cpp:62-67 | At most m / t columns of a row hold t or more. |
| CountMin.EstimateBounds | pipeline/libdsa/src/frequency/count_min_sketch.cpp:69-76 | The estimate is never below the true frequency and never above the length of the stream. |
| CountMin.EstimateExact | pipeline/libdsa/src/frequency/count_min_sketch.cpp:69-76 | The estimate is the true frequency if some row isolates the key. |
| MisraGries.HeavyHitters.constructor | pipeline/libdsa/src/frequency/heavy_hitters.cpp:6-11 | Starts with the counters of the empty stream; fewer than two slots are rejected by the caller, see MakeEstimator. |
| MisraGries.HeavyHitters.Record | pipeline/libdsa/src/frequency/heavy_hitters.cpp:13-34 | Increment, insertion or the decrement-all loop that erases while iterating bring the counters to those of the longer stream. |
| MisraGries.HeavyHitters.Estimate | pipeline/libdsa/src/frequency/heavy_hitters.cpp:36-40 | The answer is the key's counter after the stream, or 0. |
| MisraGries.Decrement | pipeline/libdsa/src/frequency/heavy_hitters.cpp:27-33 | The erase-while-iterating loop subtracts one from every counter, once, and drops those that reach zero, in any order. |
| MisraGries.Accounting | pipeline/libdsa/src/frequency/heavy_hitters.cpp:13-34 | The stream's length is the sum of the counters plus k for every decrement-all phase; at most k - 1 counters, all positive. |
| MisraGries.EstimateBounds | pipeline/libdsa/include/dsa/frequency/heavy_hitters.h:9-13 | The estimate lies between the true frequency minus the number of phases and the true frequency. |
| MisraGries.HeavyHitterGuarantee | pipeline/libdsa/include/dsa/frequency/heavy_hitters.h:9-13 | k times the error is at most the stream's length, and every key with k times its frequency above that length has a counter. |
| HashMapExact.ExactCounter.Record | pipeline/libdsa/src/frequency/hash_map_exact.cpp:5-8 | The counts stay the multiplicities of the stream. |
| HashMapExact.ExactCounter.Estimate | pipeline/libdsa/src/frequency/hash_map_exact.cpp:10-14 | The answer is the true frequency, 0 for an unseen key. |
| Estimators.MakeEstimator | tools/portscan-pipeline/detector.cpp:41-50 | A fresh estimator for the empty stream, for every width and depth; fails exactly for Misra-Gries with fewer than two slots. |
| Estimators.Bracketed | pipeline/libdsa/src/frequency/hash_map_exact.cpp:10-14 | On every stream and key: Misra-Gries <= exact <= sketch. |
| Detector.PortScanDetector.MaybeResetWindow | tools/portscan-pipeline/detector.cpp:69-80 | Opens the first window, or closes the current one, with unsigned wrap-around for late events, forgetting counts and alerted sources together. |
| Detector.PortScanDetector.Process | tools/portscan-pipeline/detector.cpp:82-108 | One event takes the whole visible state to the next state of the specification, with an alert exactly when the return value says so. |
| Detector.PortScanDetector.ProcessAll | tools/portscan-pipeline/main.cpp:212-216 | After all events the state is that of the run. |
| DetectorTheorems.SameWindows | tools/portscan-pipeline/detector.cpp:69-80 | Windows depend on the timestamps alone, so all three detectors cut the stream at the same events. |
| DetectorTheorems.AlertsOfRun | tools/portscan-pipeline/detector.cpp:91-104 | The alerts of a run are, in order, the events that are the first of their source in their window over the threshold; the alerted set is exactly the sources seen over it. |
| DetectorTheorems.OneAlertPerWindow | tools/portscan-pipeline/detector.cpp:91-104 | Two alerts of a run with the same window and source are the same alert. |
| DetectorTheorems.ExactAlertsAtThreshold | tools/portscan-pipeline/detector.cpp:92-104 | With the exact counter an event is alerted if and only if it is its source's (threshold + 1)-th in the window. |
| DetectorTheorems.DetectorsBracket | tools/portscan-pipeline/main.cpp:206-215 | On every stream, an alert under Misra-Gries has one under the exact counter for the same window and source no later, and that has one under the sketch no later. |
| DetectorTheorems.MisraGriesReports | tools/portscan-pipeline/detector.cpp:82-108 | Misra-Gries alerts no source at or below the threshold, and reports every source whose excess over it times k is more than the window's length. |
| DetectorTheorems.SketchMissesNothing | tools/portscan-pipeline/detector.cpp:82-108 | The sketch reports every source whose true count in the window exceeds the threshold. |
| WindowLaws.FirstWindow | tools/portscan-pipeline/detector.cpp:69-73 | The first event opens window 0 at its own time. |
| WindowLaws.WindowLaw | tools/portscan-pipeline/detector.cpp:69-80 | Over every run: an event stays in the window of the one before, with start s other than 0, if and only if s <= t <= s + window or t < s and t - s + 2^64 <= window; otherwise it opens the next window at its own time. A start of 0 counts as not started. |
| WindowLaws.WindowFromFirst | tools/portscan-pipeline/detector.cpp:69-80 | A window starts at its first event's time, unless that is 0, and holds exactly the sources of its events so far. |
| WindowLaws.CountFromFirst | tools/portscan-pipeline/detector.cpp:82-92 | The true count of a source is how often it occurs from its window's first event on. |
| WindowLaws.WhatAlertsTell | tools/portscan-pipeline/detector.cpp:92-104 | Every alert of a run tells the number, source and time of an event and how many windows were opened before; under the exact counter its frequency is always threshold + 1. |
| LpmTrie.Trie.constructor | pipeline/libdsa/src/trie/lpm_trie.cpp:5-7 | A fresh trie stores nothing and has one node. |
| LpmTrie.Trie.Insert | pipeline/libdsa/src/trie/lpm_trie.cpp:11-28 | The stored map gains exactly this prefix, or its new label; the size counter stays the map's cardinality, the node counter the number of nodes, at most len nodes are added. |
| LpmTrie.Trie.Remove | pipeline/libdsa/src/trie/lpm_trie.cpp:30-45 | Tells whether the prefix was stored, and the stored map loses exactly this prefix. |
| LpmTrie.Trie.Lookup | pipeline/libdsa/src/trie/lpm_trie.cpp:47-67 | The walk that stops at the first missing child returns the best label over all prefixes of the address. |
| LpmTrie.Trie.Size | pipeline/libdsa/src/trie/lpm_trie.cpp:69-71 | The cardinality of the stored map. |
| LpmTrie.LongestMatch | pipeline/libdsa/src/trie/lpm_trie.cpp:47-67 | The best label is that of the longest stored prefix of the address, or -1 without one (section 5.1 of RFC 4632); it is -1 exactly when no stored prefix covers the address or the longest that does carries the label -1. |
| LpmTrie.SameBlock | pipeline/libdsa/include/dsa/trie/lpm_trie.h:27-30 | Two addresses share their first len bits exactly when they have the same quotient by 2^(32 - len), so lie in the same aligned block of that size. |
| LpmTrie.Replay | pipeline/pipeline/src/engine.cpp:307-311 | After any inserts and removals the trie is the finite map they describe, with at most 1 + 32 nodes per insert. |
| Correlator.Correlator.Process | soc/services/aggregator/correlator.go:51-106 | One alert takes the incident map to the specified one, and the returned alert and flag are the specified outcome, malformed alerts included, for any clock value read before the lock. |
| Correlator.Correlator.Snapshot | soc/services/aggregator/correlator.go:108-123 | The snapshot lists the incident's nodes in ascending order, each once, whatever order the map yields them in. |
| Correlator.Correlator.EvictExpired | soc/services/aggregator/correlator.go:138-147 | Deleting while iterating, in any order, removes exactly the expired incidents. |
| Sorting.AscendingUnique | soc/services/aggregator/correlator.go:113-113 | A set of names has only one ascending listing. |
| CorrelatorTheorems.Replay | soc/services/aggregator/correlator.go:51-106 | Any alerts and evictions, in the order in which they take the lock and with any times, give the outcomes of the run. |
| CorrelatorTheorems.EvictionVisibleToLateAlertsOnly | soc/services/aggregator/correlator.go:138-147 | For every run, whatever times its events carry, the outputs and flags are those without any eviction if and only if no alert comes late: within the window of its key's last alert although an eviction since was past that window. |
| CorrelatorTheorems.EvictionIsInvisible | soc/services/aggregator/correlator.go:138-147 | When the times of alerts and evictions never go back in lock order, any interleaving of evictions gives the same outputs and flags as none. |
| CorrelatorTheorems.LateAlertSeesEviction | soc/services/aggregator/correlator.go:57-63 | Late alerts exist, with a time of their own or with a clock value read before that of an eviction that took the lock first: a duplicate is emitted again after the eviction and suppressed without it. |
| CorrelatorTheorems.IncidentIsGeneration | soc/services/aggregator/correlator.go:65-92 | In every run, with or without evictions, the state kept for a key is exactly the count, nodes, times and first severity of the alerts since its incident was opened, and none is kept when it has been evicted. |
| CorrelatorTheorems.OutcomeByGeneration | soc/services/aggregator/correlator.go:65-106 | In every run, with or without evictions and whatever times its events carry, the last alert is passed on exactly when it opens its incident or brings its second node, with the incident's count and sorted nodes so far, upgraded only in the second case. |
| CorrelatorTheorems.IncidentEmissions | soc/services/aggregator/correlator.go:94-105 | In every such run, the flags raised for one incident are one, or two exactly when at least two different nodes have reported. |
| CorrelatorTheorems.EvictionsCutIncidents | soc/services/aggregator/correlator.go:138-147 | Evictions only cut incidents short: the current incident with evictions holds the latest alerts of the one without. |
| CorrelatorLaws.SameKey | soc/services/aggregator/correlator.go:56-56 | Two alerts share a key if and only if kind and source are equal, or the key of one cut at another bar gives the other. |
| CorrelatorLaws.KeysSeparate | soc/services/aggregator/correlator.go:56-56 | Between kinds without a bar the keys are equal if and only if kind and source are. |
| CorrelatorLaws.KeysCollide | soc/services/aggregator/correlator.go:56-56 | With bars they need not be: kinds "scan" and "scan|x" can share a key. |
| CorrelatorLaws.NonInterference | soc/services/aggregator/correlator.go:51-106 | In every run over kinds without a bar, the outcome of an alert is its outcome in the run that keeps only the evictions and the alerts of its own kind and source. |
| CorrelatorLaws.JoinsWithinWindow | soc/services/aggregator/correlator.go:57-92 | For times that are not negative, an alert joins the current incident of its key if and only if it comes no more than a window after that incident's last alert, and otherwise opens a new one. |
| CorrelatorLaws.OthersLeaveAlone | soc/services/aggregator/correlator.go:138-147 | Alerts with other keys, malformed ones and, without evictions, ticks leave the current incident of a key alone; for times that are not negative an eviction ends it exactly when its last alert is more than a window old. |
| CorrelatorLaws.NodesReported | soc/services/aggregator/correlator.go:76-91 | The nodes of an incident are the node names of its alerts, except empty ones. |
| CorrelatorLaws.Difference | soc/services/aggregator/correlator.go:66-66 | Differences of times are exact when they fit into 64 bits, and right modulo 2^64 always. |
| CorrelatorLaws.EvictionKeeps | soc/services/aggregator/correlator.go:142-146 | For times that are not negative, an eviction keeps exactly the incidents whose last alert is no more than a window old, unchanged. |
| CorrelatorLaws.PassedOn | soc/services/aggregator/correlator.go:65-123 | Every alert passed on carries its incident's key, first and last time, number of alerts, ascending nodes, cross-node flag and first severity; the first alert keeps severity and tags, the one with the second node gets the next severity and the tag once; nothing else changes. |
| CorrelatorLaws.ArrivalTimes | soc/services/aggregator/correlator.go:57-60 | Every alert of an incident came with an event, at its own time or, lacking one, the clock's. |
| CorrelatorLaws.MalformedPassesThrough | soc/services/aggregator/correlator.go:52-54 | An alert without source or kind is passed on untouched and leaves no trace. |
| CorrelatorLaws.Lexicographic | soc/services/aggregator/correlator.go:113-113 | The order of the node names: a prefix comes first, else the first difference decides. |
| GraphGrowth.ComponentsOnlyGrow | pipeline/libdsa/src/graph/directed_graph.cpp:11-18 | When a graph gains edges, a component stays inside the component of any of its members. |
| GraphGrowth.BallsOnlyGrow | pipeline/libdsa/src/graph/bfs.cpp:6-31 | When a graph gains edges, a ball keeps its vertices and no distance gets longer. |
| GraphGrowth.CyclesOfPartition | pipeline/pipeline/src/engine.cpp:486-490 | Which components have more than one vertex, and how many, does not depend on the detector or its order. |
| Pipeline.Engine.RollWindow | pipeline/pipeline/src/engine.cpp:393-403 | The engine's window start and reset do what the port-scan detector's window does. |
| Pipeline.Engine.CountSource | pipeline/pipeline/src/engine.cpp:391-417 | Window, count, threshold (as unsigned 64-bit) and per-window deduplication alert exactly the events that are due for the port-scan detector, with its frequency. |
| Pipeline.Engine.BlastRadiusOf | pipeline/pipeline/src/engine.cpp:443-443 | Either analyzer returns the ball around the source. |
| Pipeline.Engine.DetectCycles | pipeline/pipeline/src/engine.cpp:484-523 | The components reported are all those with more than one vertex, once each, when there are more than the recorded number, which then becomes the new record; otherwise nothing happens. |
| Pipeline.Engine.Connect | pipeline/pipeline/src/engine.cpp:477-479 | The graph gains the two end points and the edge. |
| Pipeline.Engine.Scan | pipeline/pipeline/src/engine.cpp:405-474 | The blast radius is taken in the graph before the event's own edge, and only with a port scan alert of a source already in it. |
| Alerts.FirstRuleDecides | pipeline/pipeline/src/engine.cpp:120-129 | The first configured rule for an alert kind decides its severity, unknown words meaning medium; without a rule, blast radius and component alerts are high and the others medium. |
| Alerts.SeverityWords | pipeline/pipeline/src/engine.cpp:110-117 | The four words name the four severities and any other word gives the fallback. |
| Pipeline.Engine.Send | pipeline/pipeline/src/engine.cpp:426-518 | The alerts of one event go out one by one: port scan, blast radius, then the components in order, each with its source, severity, node, namespace, tags and details as data. |
| Pipeline.Engine.Process | pipeline/pipeline/src/engine.cpp:387-524 | One event keeps the engine's invariant: graph, counters, window, record and everything sent are those the events so far call for. |
| Pipeline.Run | pipeline/pipeline/src/engine.cpp:286-524 | From the input lines to the alerts: the engine has processed exactly the events read up to the end or the first line that makes the parser throw, has sent exactly the alerts these call for, and its classifier holds the configured networks. |
| Pipeline.Engine.Snapshot | pipeline/pipeline/src/engine.cpp:535-540 | The vertex and edge numbers and components written at the end are those of the graph of all events. |
| PipelineTheorems.GraphIsPairs | pipeline/pipeline/src/engine.cpp:476-479 | The graph holds exactly the (source, destination) pairs of the events so far and their end points. |
| PipelineTheorems.DetectionsRefine | pipeline/pipeline/src/engine.cpp:481-484 | Each component found at one detection is contained in exactly one component of every later detection. |
| PipelineTheorems.BlastRadiusGrows | pipeline/pipeline/src/engine.cpp:442-443 | A later blast radius of the same source contains every earlier one, with no longer distances. |
| PipelineTheorems.PortScansAreDetectorAlerts | pipeline/pipeline/src/engine.cpp:410-436 | The engine's port scan alerts are, in order, those of the stand-alone port-scan detector on the same events. |
| PipelineTheorems.HighWaterIsMaximum | pipeline/pipeline/src/engine.cpp:492-523 | The recorded number is the maximum over all detections so far. |
| PipelineTheorems.AnomaliesAtNewMaximum | pipeline/pipeline/src/engine.cpp:492-523 | A detection raises anomalies if and only if it sees more components with several vertices than every earlier detection, and then exactly those. |
| PipelineTheorems.ComponentReported | pipeline/pipeline/src/engine.cpp:492-523 | At a detection, a component with several vertices is reported if and only if the detection sees more of them than every detection before it. |
| MergeRun.NewComponentPassedOver | pipeline/pipeline/src/engine.cpp:492-493 | A run from the start in which the second detection sees a component that none before it saw and reports nothing, because two others have merged. |
| MergeRun.Merge | pipeline/pipeline/src/engine.cpp:387-524 | The engine takes this run on the collector's lines for it. |
| PipelineTheorems.RunOnCollector | collector/src/user/collector.cpp:56-63 | From the events the collector prints to the alerts the engine sends: nothing throws, the engine has the host-order addresses and times of all of them in order, the graph is that of their pairs, and the alerts are those these events call for. |
| PipelineLaws.WindowSeconds | pipeline/pipeline/src/engine.cpp:397-397 | The window is the configured seconds times 10^9; a negative number of them is reduced modulo 2^64. |
| PipelineLaws.Threshold | pipeline/pipeline/src/engine.cpp:415-415 | The threshold is the configured one; a negative one becomes 2^63 or more, which no count below that exceeds. |
| PipelineLaws.DetectionEvery | pipeline/pipeline/src/engine.cpp:483-483 | Detections come at the multiples of ten times the interval; with a negative interval there is none in the first 2^63 - 1 events. |
| PipelineLaws.EngineWindow | pipeline/pipeline/src/engine.cpp:393-403 | The engine's window start is that of its last event's window. |
| PipelineLaws.EngineWindowLaw | pipeline/pipeline/src/engine.cpp:393-403 | An event stays in the engine's window of the one before if and only if s <= t <= s + window or t < s and t - s + 2^64 <= window, or that window has start 0; otherwise its own time is the new start. |
| PipelineLaws.BlastRadiusIsBall | pipeline/pipeline/src/engine.cpp:441-443 | Under both analyzers the blast radius sent is the ball of the configured number of hops in the graph before the event; for negative numbers it is the source alone with breadth-first search and empty with Dijkstra. |
| PipelineLaws.AlertsOfEvent | pipeline/pipeline/src/engine.cpp:414-523 | The alerts of one event in any right run: at most one port scan, at most one blast radius after it, then one per component found; each with its kind, tags, time, node, namespace and severity, an address that both parsers read as the source (the first member for a component), and its own details: frequency, threshold and label of the longest network, ball and hop limit, or members. |
| PipelineLaws.SentIsFound | pipeline/pipeline/src/engine.cpp:426-518 | Everything sent in a run is an alert of one of its events, and their number is the number of scans, blast radii and components found. |
| PipelineLaws.NetworksStored | pipeline/pipeline/src/engine.cpp:306-311 | The classifier holds exactly the configured prefixes, each with the label given last. |
| Numerals.StoiOfDecimal | pipeline/pipeline/src/engine.cpp:75-75 | `stoi` gives back every printed number that fits and throws on every other. |
| Numerals.StoulOfDecimal | pipeline/pipeline/src/engine.cpp:100-102 | `stoul` and `stoull` give back every printed number below 2^64 and throw on every other. |
| Json.JsonField | pipeline/pipeline/src/engine.cpp:45-67 | The moving position finds the text that follows the first quoted key and the next colon, up to its end. |
| Json.FieldIsFound | tools/portscan-pipeline/parser.cpp:34-49 | In any flat object, with any blanks around keys, colons, values and commas, a field is read back by its key, unless an earlier field has that key or, in quotes, that value; so the search never matches inside other values. |
| Json.FieldIsMissing | tools/portscan-pipeline/parser.cpp:34-39 | A key that no field of a flat object has is read as the empty value. |
| Ipv4.ReadOctets | tools/portscan-pipeline/parser.cpp:15-17 | The loop over dotted parts reads at most four octets into the buffer, the rest staying 0, and fails exactly when one of those parts is no number. |
| Ipv4.ParseIp | pipeline/pipeline/src/engine.cpp:69-78 | The four octets reduced to 8 bits, missing ones 0, joined highest first; or the exception. |
| Ipv4.ParseIpv4 | tools/portscan-pipeline/parser.cpp:10-20 | 0 unless there are four octets, else their shifted 32-bit values joined; or the exception. |
| Ipv4.ParseToString | tools/portscan-pipeline/parser.cpp:22-27 | Both parsers give back every address either program prints. |
| Ipv4.ParseNtop | collector/src/user/collector.cpp:40-44 | Both parsers read a network-order word printed by the collector as its host-order value. |
| Ipv4.ByteSwapTwice | collector/src/user/collector.cpp:40-44 | No address is lost: swapping the bytes twice gives the address back. |
| RoundTrip.ParseEvent | pipeline/pipeline/src/engine.cpp:87-105 | Skips, throws or yields an event as specified, for every line. |
| RoundTrip.ParseJson | tools/portscan-pipeline/parser.cpp:51-66 | The same for the tool, with the clock in place of a missing timestamp. |
| RoundTrip.PipelineReadsCollector | collector/src/user/collector.cpp:56-63 | For every event the collector prints, the pipeline recovers port, pid, timestamp and both addresses in host order. |
| RoundTrip.ToolReadsCollector | tools/portscan-pipeline/parser.cpp:51-66 | For every event the collector prints, the tool recovers the fields it keeps. |
| RoundTrip.CollectorLineInjective | collector/src/user/collector.cpp:60-63 | Different events give different lines. |
| RoundTrip.ReadAll | pipeline/pipeline/src/engine.cpp:386-391 | The loop reads the events of all lines, skipping what is none, up to the first line that throws, and tells whether one did. |
| RoundTrip.StreamIsReceived | pipeline/pipeline/src/engine.cpp:386-391 | A stream of collector lines is read as its events in order, none lost or invented. |
| Generator.PipelineReadsGenerator | scripts/generate_portscan_stream.py:55-73 | The pipeline reads every line of the stream generator, which has a blank after each colon and comma and no process number, as its event with process number 0. |
| Generator.ToolReadsGenerator | scripts/generate_portscan_stream.py:109-110 | The tool reads every line of the stream generator as the event it was made from. |
| ReaderLaws.NumeralIsRead | tools/portscan-pipeline/parser.cpp:16-16 | A number is read past white space and one sign up to the first character that is no digit; without a digit there is none. |
| ReaderLaws.BaseTen | tools/portscan-pipeline/parser.cpp:22-27 | Numbers are printed in base ten, the last digit last. |
| ReaderLaws.LeadingZeros | tools/portscan-pipeline/parser.cpp:22-27 | Numbers are printed without leading zeros, which do not matter when they are read. |
| ReaderLaws.ReadersOfNumerals | pipeline/pipeline/src/engine.cpp:75-102 | On such texts `stoi` gives the signed value when it has 32 bits and `stoul` the value modulo 2^64 when its digits have no more than 64; both throw otherwise. |
| ReaderLaws.PipelineAddress | pipeline/pipeline/src/engine.cpp:69-78 | Of any dotted numbers the pipeline joins the low bytes of the first four, zeros for the missing ones, and throws exactly when one of them has 2^31 or more. |
| ReaderLaws.ToolAddress | tools/portscan-pipeline/parser.cpp:10-20 | The tool gives 0 for fewer than four dotted numbers and the word for four or more numbers below 256, and throws exactly when one of the first four has 2^64 or more. |
| ReaderLaws.OctetOver255 | tools/portscan-pipeline/parser.cpp:16-19 | An address with an octet of 256 that the pipeline reads as 0.0.0.0 and the tool as 1.0.0.0. |
| ReaderLaws.BytesOfWord | tools/portscan-pipeline/parser.cpp:22-27 | An address is printed as its four bytes from the highest on, and reversing the byte order does what it says. |
| ReaderLaws.LookupIsRead | tools/portscan-pipeline/parser.cpp:34-49 | In any flat object, in any order and with any blanks, each of the five keys is read as the value of its first field, or as empty. |
| ReaderLaws.PipelineReadsObject | pipeline/pipeline/src/engine.cpp:87-105 | The pipeline takes an event from every such object with both addresses: port modulo 2^16, process number modulo 2^32, missing numbers 0, and an exception exactly for numbers of 2^64 or more. |
| ReaderLaws.ToolReadsObject | tools/portscan-pipeline/parser.cpp:51-66 | The same for the tool, with the clock for a missing timestamp. |
| ReaderLaws.SkippedLines | pipeline/pipeline/src/engine.cpp:88-96 | Both parsers pass over every line that does not start with a brace, and of flat objects exactly those without one of the two addresses. |
| IsoWeek.YearOfBounds | soc/services/incident-service/internal/reports/summary.go:51-51 | The year of a day is the one whose first day is not after it and whose successor's is, in the Gregorian calendar before and after year 1. |
| IsoWeek.WeekOneHasFirstThursday | soc/services/incident-service/internal/reports/summary.go:65-72 | Week 1 starts on a Monday and contains the year's first Thursday (section 4.1.4 of ISO 8601:2004). |
| IsoWeek.WeeksTileYears | soc/services/incident-service/internal/reports/summary.go:65-76 | A year has 52 or 53 weeks, 53 exactly when it starts on a Thursday or is a leap year starting on a Wednesday, and its last week ends where the next year's week 1 starts. |
| IsoWeek.WeeksAbut | soc/services/incident-service/internal/reports/summary.go:65-76 | Consecutive weeks abut and last 604 800 000 000 000 ns, for every year and week number. |
| IsoWeek.RangeIsWeek | soc/services/incident-service/internal/reports/summary.go:65-76 | The days of a week's range are exactly the days with that ISO week. |
| IsoWeek.ReportWindow | soc/services/incident-service/internal/reports/summary.go:48-60 | The range of the current week is exactly the seven days that end at the last Monday 00:00 UTC not after now. |
| IsoWeek.KnownDays | soc/services/incident-service/internal/reports/summary.go:54-61 | Fixes the calendar: weekdays and day numbers of 1 January of years 1, 1970 and 2000, and the leap years among 1900, 2000 and 2024. |
| IsoWeek.KnownWeeks | soc/services/incident-service/internal/reports/summary.go:48-52 | Fixes the ISO weeks at the turn of 2008/2009, 2009/2010 and 2020/2021, with weeks 1 and 53. |
| IsoWeek.LastCompletedWeek | soc/services/incident-service/internal/reports/summary_test.go:84-91 | On Tuesday 19 May 2026, 06:00, the last completed week is week 20 of 2026. |
| Actions.Store.DecideAction | soc/services/incident-service/internal/store/postgres.go:356-375 | The guarded update changes a pending row and reports one row, and otherwise changes nothing and reports none. |
| Actions.Store.MarkActionExecuted | soc/services/incident-service/internal/store/postgres.go:378-388 | The unguarded update stores the outcome in the row, whatever its status. |
| Actions.Server.Advance | soc/services/incident-service/internal/api/api.go:241-277 | Each statement of the approve handler, with database errors before or after taking effect, and of the reject handler, is one step of the protocol. |
| Actions.Server.Perform | soc/services/incident-service/internal/api/api.go:241-277 | Any number of handlers, with their steps in any order, behave as the protocol's run. |
| Actions.InvNext | soc/services/incident-service/internal/api/api.go:241-277 | Every step keeps the protocol's invariant: at most one handler works on an approved action. |
| Actions.ExecutedAtMostOnce | soc/services/incident-service/internal/api/api.go:250-264 | In every interleaving the side effect of an action happens at most once, by the user recorded as its approver. |
| Actions.NeverAfterReject | soc/services/incident-service/internal/api/api.go:386-402 | An action that is rejected at any point of a run has not been executed and never will be. |
| Actions.StatusFollows | soc/services/incident-service/internal/store/postgres.go:378-388 | No step leaves the life cycle: the unguarded update only ever overwrites approved rows, and settled rows never change. |
| Actions.Server.Crash | soc/services/incident-service/internal/api/api.go:241-277 | A handler can be lost with its process at any point. |
| Actions.CanStillRun | soc/services/incident-service/internal/api/api.go:250-262 | An approved action that has not run can still run if and only if its handler is still at work, that is neither finished nor lost with its process. |
| Actions.CrashLosesApproval | soc/services/incident-service/internal/api/api.go:250-262 | A handler lost between its approval and the side effect leaves the action unexecuted for ever. |
| Actions.ApprovalCanBeLost | soc/services/incident-service/internal/store/postgres.go:372-375 | The other case happens: the row cannot be read back after its approval, and the action is never executed. |
| ActionLaws.OutcomeIsStored | soc/services/incident-service/internal/store/postgres.go:378-388 | In every run a row is `executed` only without an error and `failed` only with one, the error is what the action's side effect returned when it took place, and rows in other states have none. |
| ActionLaws.AnswersHold | soc/services/incident-service/internal/api/api.go:250-276 | Every answer is true: 200 to an approval means that this handler performed the side effect and the row tells so under its user, 500 that it performed it, 400 that it did not; 200 to a rejection that the row is rejected under its user. |
| ActionLaws.ApprovalCompletes | soc/services/incident-service/internal/api/api.go:250-276 | From any state, an approval of a pending action that meets no database error performs the side effect once, stores its outcome under the user, touches no other row and answers 200. |
| ActionLaws.RejectionCompletes | soc/services/incident-service/internal/api/api.go:395-401 | A rejection of a pending action that meets no database error rejects it under the user, does nothing else and answers 200. |
| ActionLaws.LateDecision | soc/services/incident-service/internal/store/postgres.go:372-374 | A decision on an action that is missing or no longer pending changes nothing and is answered with 400. |

## Left out

- CountMin.EstimateBounds: needs streams shorter than 2^64, because counters are unbounded numbers here and the source's 64-bit counters would wrap beyond; the same holds for CountMin.EstimateExact, Estimators.Bracketed, DetectorTheorems.DetectorsBracket and DetectorTheorems.SketchMissesNothing.
- MisraGries.Accounting: counters and the stream length are unbounded numbers; the source's 64-bit ones agree up to 2^64 - 1 records between resets.
- HashMapExact.ExactCounter.Record: counts are unbounded numbers, as above.
- Tarjan.FindSccs: the discovery counter is an unbounded number; the source's `int` bounds it to 2^31 - 1 vertices.
- Pipeline.Engine.Send: the details of an alert are kept as data, not rendered to JSON text; the handler chain behind the alerts is not modelled.
- Pipeline.Engine.Process: total and alert counters are unbounded.
- Ipv4.ParseNtop: `inet_ntop` is taken to print the bytes in memory order on a little-endian host.
- Numerals.StoulOfDecimal: `unsigned long` is taken to have 64 bits.
- Actions.Server.Advance: each statement on the database and the side effect are atomic steps, with crashes between them; times, audit contents and what the side effect does to the cluster are not modelled.
- Correlator.Correlator.Process: the part under the lock is one atomic step; the clock is read before it, so its value is a parameter that nothing orders against other calls. The alert is a value here, while the source enriches the caller's object in place. Counts are unbounded.
- LpmTrie.Trie.Insert: prefix lengths above 32, for which the source shifts by negative amounts, are excluded by precondition.
- Degenerate configurations are preconditions: recording into or asking a sketch of width 0 (division by zero; it can be constructed), a zero detection interval (division by zero) or one whose tenfold overflows `int`, a non-positive correlator window (the ticker panics). A sketch of depth 0 is modelled.
- Helper methods split long source loops: Tarjan.SearchFrom, Tarjan.FinishTop, Kosaraju.Collect and the parts of Pipeline.Engine.Process each model the lines cited for them.
- The (epsilon, delta) error probability of the sketch: the code has fixed seeds and no randomness; the deterministic facts are proved instead.
- Conservative update, sketch merging, bucketed windows and the Misra-Gries variant with k slots appear in the repository's documentation but not in its code.
- The stream generator's random choices: every line it can write is covered, whatever it chose.
- Estimator keys made of address pairs, memory figures, names, traces and the algorithm registries.
- The tool's tcpdump parsing by regular expression, its watch-list parser, and the engine's configuration file parser.
- The collector's kernel program and ring buffer, messaging, mail, object storage, Kubernetes calls, HTTP routing, roles and the other database queries.
