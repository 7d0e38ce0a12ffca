# Franky: the profiler's promise, proved

Franky is a sampling profiler for the JVM.  A native agent counts stack traces in fixed-size hash tables,
updated in place by a signal handler; an IDE plugin turns the agent's report into a flame graph.  Its own
description says that it "is truthful".  This project models the path of a sample from the SIGPROF tick to the
rectangle on the screen, and states exactly when, and in which sense, that promise holds.  Beside it stand the
ownership protocol of the plugin (`Lifetime`) and three parts of the logging header that comes with the agent.

`dafny verify dfyconfig.toml` checks everything.

## How it is laid out

| files | what they hold |
|---|---|
| `Words`, `Hashing`, `HashVectors` | 64-bit arithmetic written out modulo 2^64, the two hash functions as invertible maps, and a value of each |
| `ProbeTable` | open addressing with cyclic probing and overwriting of the home bucket, over any key type |
| `Samples`, `Tables` | what one tick does to the store, and what the store is after any sequence of ticks |
| `Sorting`, `Reports`, `Totals` | the report: sorting, cutting at the first zero, dropping NULL frames, and what it weighs |
| `Sessions` | START, STOP, DETACH and ticks as steps, and the invariant of every run |
| `Profilers` | the class `Profiler`, with its arrays, loops and counters, proved against the functions above |
| `FlameTrees`, `FlameTheorems` | the flame tree as mutable nodes with parent links, and what its costs mean |
| `FlameLayouts`, `FlameGeometry`, `FlamePixels` | the panel that lays the tree out, the geometry it guarantees, and what is left of it in pixels |
| `Truthful`, `Pipeline`, `Pictures` | the chain from tick to report, to tree, to rectangle |
| `Writers`, `Exactness`, `Miscounts` | what still holds beyond the conditions of truthfulness, and sessions at which it fails |
| `Lifetimes` | the lifetime graph, terminated re-entrantly |
| `Globs`, `HitCounters`, `LogConfigs` | the wildcard matcher, the every-N counter, the compressed level map |

The source's mutable objects are classes whose methods have the source's loops; each method is tied by its
contract to a function or relation on values, and the theorems are about those.  `World` in `Lifetimes` and the
ghost parameters `nodes` and `costs` of the layout methods are bookkeeping for the proofs: the set of all
lifetimes with the journal of what ran, and the tree being drawn by path.

## What a reader should take away

* **Truthful, with conditions.**  `Pictures.ShowSession` runs one session on the mutable classes and ends with
  the bounds of the components on the panel, whose widths are ratios of tick counts cut off to pixels.  The
  conditions (`Truthful.Faithful`) speak of the ticks alone: no trace hashes to the empty mark 0, at most 32768
  distinct hashes, and traces that share a hash report the same path.  For runs without hash 0 they are exact:
  `Exactness.ExactIffFaithful` says that the tree is right whenever STOP comes if and only if they hold.  What
  becomes of single statements without them is proved too: `Truthful.RootExactIffFits`,
  `Exactness.NodeCostAtMostTicks` and `Miscounts.OverflowLoses` for capacity, `Truthful.NodeCostIsCredit` and
  `Miscounts.MiscountedSession` for collisions, `Tables.ZeroHashLoses` and
  `Samples.StoreTraceKeepsOrder` for hash 0, `Tables.StoreMethodKeepsOrder` for a NULL method.
  `Samples.Conservation` and `Truthful.RootCost` need none of them.
* **What is drawn.**  `FlamePixels.PictureIsNeat` holds for any tree, current root and panel width, and after any
  clicks and paints every component is part of the current picture or has no size (`FlameLayouts.FlameComponent`).
  The height the panel asks for ends where the lowest frame begins (`FlamePixels.BottomRowCut`).
* **A report with an all-NULL trace is refused.**  The agent drops frames without a method and still emits the
  sample; the tree throws on a sample without frames.  `Exactness.RefusedIffWritten` says exactly when, for every
  session, and `Miscounts.RefusedSession` is one.
* **The two tables of traces drift apart on STOP.**  Only `_traces` is sorted, `_hashes` is not
  (`Sessions.StopMisaligns`, and exactly when: `Exactness.StopAlignedIff`).  No tick can meet this state, because
  START clears both before it arms the timer (`Sessions.EveryRun`).
* **No double termination.**  A lifetime that is terminated while its ancestors are being terminated finds every
  child on its snapshot still alive.  The reason is the order of creation (`Lifetimes.ChildSnapshot`): what a child
  ends was created after it, while the entries still to run name older children.  Over any history of operations
  each user action of an ended lifetime has run exactly once (`Lifetimes.World`, whose `Valid` says so after every
  operation).  All this needs distinct parents: `Lifetimes.NamedTwice` is a double termination.
* **Where the code is not what its comments say.**  `validateEveryN` fires on every n-th call if and only if n is
  at most 100000 (`HitCounters.EveryNthCall`).  The compressed map of the typed configurations files the first
  value of a type under Global, whatever its level, and can answer wrongly for a type whose first `set` was not at
  Global (`LogConfigs.WrongAnswer` does; `LogConfigs.CallsExact` gives the exact condition).

## Standing assumptions

* A tick and a request are atomic steps; a signal never interrupts another handler or a report.
* What AsyncGetCallTrace answers is an arbitrary input of at most 64 frames, or an arbitrary error code; method ids
  are 64-bit words, NULL is 0, and their signed reading in the report is the same word.
* Counters are unbounded; `Truthful.CountersBounded` and `Truthful.CostsBounded` show that no counter of the agent
  and no cost of the tree exceeds the number of ticks, so with fewer than 2^31 ticks none overflows.
* Hash-0 traces, NULL top methods, more than 32768 distinct keys and hash collisions are excluded only in the
  statements that name `Marked`, `Topped`, `Fits`, `MethodsFit`, `CollisionFree` or `Faithful`.
* The iteration orders of hash maps and unordered sets, and the order in which a sort leaves equal counts, are
  arbitrary.
* The layout is computed in real numbers.
* User actions touch no lifetime.  Parents are distinct, except where a statement says otherwise.

## Model

| member | source | states |
|---|---|---|
| `Pictures.ShowSession` | franky-agent/src/profiler.cpp:153-176 | START, the ticks, STOP, flame tree, panel, a paint, a click on any frame and a paint again, on the mutable classes: the components on the panel have, for each path below the clicked one that some tick took, the 20-pixel row of its depth and the width floor(panel * ticks under it / ticks under the clicked one); the clicked frame and each one above it are full bars; nothing else has any size; no two drawn frames share a pixel, and the pixel rules of `PictureIsNeat` hold; and the report is rejected exactly if some tick had only NULL frames |
| `Pipeline.ProfileSession` | franky-agent/src/profiler.cpp:301-313 | one whole session on the mutable classes: the tree has a node exactly for the root and for each path that some tick began with, and the node's cost is the number of those ticks; the tree is refused exactly if some tick had only NULL frames |
| `Pipeline.LaterSession` | franky-agent/src/profiler.cpp:193-203 | whatever went on before, a session that is started while stopped reports its own ticks and no earlier one |
| `Pipeline.IdleRequests` | franky-agent/src/profiler.cpp:193-203 | START while running and DETACH at any time take no tick away from the report |
| `Truthful.ReportWeighsTicks` | franky-agent/src/profiler.cpp:424-446 | for any weight of paths, the samples of a report weigh together what the ticks since START weigh one by one |
| `Truthful.NodeCostIsTickCount` | franky-intellij/src/main/kotlin/me/serce/franky/ui/flame/flameTree.kt:26-38 | the cost at path p is the number of ticks since START whose non-NULL frames, outermost first, begin with p |
| `Truthful.NodeExistsIffTicked` | franky-intellij/src/main/kotlin/me/serce/franky/ui/flame/flameTree.kt:31-37 | the tree has a node at p if and only if p is the root's path or some tick's path begins with p |
| `Truthful.RootCost` | franky-intellij/src/main/kotlin/me/serce/franky/ui/flame/flameTree.kt:26-28 | in every session, with no condition on hashes or capacity, the root's cost plus the number of overwritten samples is calls_total minus non_java, gc, deopt and unknown |
| `Truthful.RootExactIffFits` | franky-agent/src/profiler.cpp:102-119 | the root's cost is exactly calls_total minus the four special counters if and only if no more distinct hashes were stored than there are slots |
| `Truthful.NodeCostIsCredit` | franky-agent/src/profiler.cpp:108-110 | without collision-freedom: each node costs the ticks under its path when every tick is credited to the first trace that had its hash |
| `Truthful.SelfCostsAreTops` | franky-agent/src/profiler.cpp:166-168 | the self costs of the nodes labelled m add up to the number of ticks with m on top |
| `Truthful.AggregationsAgree` | franky-agent/src/profiler.cpp:134-151 | the two independent aggregations agree: for each method the sum of self costs over the nodes labelled with it is its entry in the methods section |
| `Truthful.NonNullKeeps` | franky-agent/src/profiler.cpp:435-444 | the reported frames are the frames with a method, each as often as it occurs in the stored trace |
| `Truthful.NonNullConcat` | franky-agent/src/profiler.cpp:435-444 | dropping NULL frames keeps the order of the others |
| `Truthful.LabelsHaveInfos` | franky-intellij/src/main/kotlin/me/serce/franky/ui/flame/flameGraph.kt:101-102 | every node of the tree but the root carries a nonzero method id that has a MethodInfo in the same report |
| `Truthful.RootHasNoInfo` | franky-intellij/src/main/kotlin/me/serce/franky/ui/flame/flameGraph.kt:102 | the root's id 0 has no MethodInfo, so the root alone falls back to the synthetic one |
| `Truthful.ReportedSamples` | franky-agent/src/profiler.cpp:424-446 | the samples of a report are, as a multiset, the slots in use after the ticks since START, in non-increasing order of count |
| `Truthful.OneKind` | franky-agent/src/profiler.cpp:153-176 | which tick is of which kind: no environment, the answers -2 and -9, every other answer up to 0, and the traces of 1 to 64 frames, which are the first frames of the buffer |
| `Truthful.ReportedCounters` | franky-agent/src/profiler.cpp:403-411 | calls_total of a report is the number of ticks since START, and non_java, gc, deopt and unknown are the numbers of those of each kind |
| `Truthful.MethodsDescend` | franky-agent/src/profiler.cpp:448-459 | the methods section of every report comes hottest first |
| `Truthful.ReportedInfos` | franky-agent/src/profiler.cpp:462-467 | a report has exactly one MethodInfo for each method that it mentions in a sample or in the methods section, and none for any other |
| `Truthful.SameTicksSameReport` | franky-agent/src/profiler.cpp:306-313 | two STOPs with the same ticks since START, in particular a repeated STOP, report the same counters, the same multiset of samples, and the same methods and method ids |
| `Truthful.CountersBounded` | franky-agent/src/profiler.cpp:153-176 | no special counter, no trace count and no method count exceeds calls_total, which is the number of ticks, so none leaves the range of int before calls_total does |
| `Truthful.CostsBounded` | franky-intellij/src/main/kotlin/me/serce/franky/ui/flame/flameTree.kt:26-38 | in every session no cost in the tree exceeds the reported calls_total |
| `Exactness.NodeCostAtMostTicks` | franky-agent/src/profiler.cpp:102-119 | without collisions, but with any number of hashes and also with hash 0, no node costs more than its ticks and no node stands at a path that no tick took |
| `Exactness.RefusedIffWritten` | franky-intellij/src/main/kotlin/me/serce/franky/ui/flame/flameTree.kt:7-11 | in every session the tree rejects the report if and only if the last trace written to some slot had only NULL methods |
| `Exactness.RefusedIffFirst` | franky-intellij/src/main/kotlin/me/serce/franky/ui/flame/flameTree.kt:7-11 | below capacity: it does if and only if some tick that was the first one with its hash had only NULL methods |
| `Exactness.ShortRunFits` | franky-agent/src/profiler.h:26 | a run of at most 32768 ticks fits both tables, and loses no sample if no hash is 0 |
| `Exactness.MethodsExactIffFit` | franky-agent/src/profiler.cpp:448-460 | the methods section lists exactly the methods that were on top of a tick, each with the number of those ticks, if and only if there were no more of them than slots |
| `Exactness.RepeatedStop` | franky-agent/src/profiler.cpp:306-313 | a second STOP right after a report sends the same counters, the same multiset of samples, and the same methods and method ids |
| `Exactness.ExactIffFaithful` | franky-agent/src/profiler.cpp:102-119 | for any run without hash 0 and any report at each of its moments: all their flame trees are exact, with a node for each path that a tick took at the number of ticks that took it, if and only if the run fits the table and traces that share a hash report the same path |
| `Exactness.CollisionFreeIffCredited` | franky-agent/src/profiler.cpp:108-110 | every path is credited exactly the ticks that took it, at every moment of a run, if and only if traces that share a hash report the same path |
| `Miscounts.ReportEachMoment` | franky-agent/src/profiler.cpp:301-313 | the same on the mutable classes, which are started and stopped once for each moment of the run |
| `Miscounts.OverflowLoses` | franky-agent/src/profiler.cpp:117-118 | a run of 32769 ticks with nonzero distinct hashes loses samples, and the root of every report of it costs fewer ticks than had a trace |
| `Miscounts.OverflowHidesMethods` | franky-agent/src/profiler.cpp:149-150 | a run of 32769 ticks with distinct methods on top makes the methods section of every report wrong |
| `Miscounts.TickWith` | franky-agent/src/profiler.cpp:162-164 | the handler stores any trace of 1 to 64 frames from some tick |
| `Miscounts.MiscountedSession` | franky-agent/src/profiler.cpp:108-110 | a session of two ticks whose traces collide, run on the mutable classes: its tree has a node of cost 2 at a path that one tick took |
| `Miscounts.CollisionMiscounts` | franky-agent/src/profiler.cpp:108-110 | every report of these two ticks has that node |
| `Miscounts.RefusedSession` | franky-intellij/src/main/kotlin/me/serce/franky/ui/flame/flameTree.kt:7-11 | a session of one tick that meets every condition of truthfulness, and whose report the tree rejects |
| `Writers.SlotWriter` | franky-agent/src/profiler.cpp:71-77 | in every run a slot is in use exactly if some tick wrote it, and holds the trace and the hash of the last tick that did |
| `Writers.TableBelowTicks` | franky-agent/src/profiler.cpp:102-119 | in every run, for any weight that does not tell traces of one hash apart, the trace table weighs at most what the ticks weigh |
| `Tables.TableWeighsTicks` | franky-agent/src/profiler.cpp:102-119 | below capacity, for any such weight, it weighs exactly what the ticks weigh |
| `Profilers.Profiler.constructor` | franky-agent/src/profiler.cpp:41 | the static instance starts as a cleared store with the timer off |
| `Profilers.Profiler.StoreCallTrace` | franky-agent/src/profiler.cpp:102-119 | the probe loop over `_hashes` and `_traces` in place equals the store function on the hash of the trace, for any state of the two arrays, aligned or not |
| `Profilers.Profiler.StoreMethodId` | franky-agent/src/profiler.cpp:134-151 | the probe loop over `_methods` in place equals the store function |
| `Profilers.Profiler.RecordSample` | franky-agent/src/profiler.cpp:153-176 | one tick changes counters and tables as the tick function says |
| `Profilers.Profiler.Start` | franky-agent/src/profiler.cpp:193-203 | START clears counters and all three arrays and arms the timer; while running it changes nothing |
| `Profilers.Profiler.Stop` | franky-agent/src/profiler.cpp:205-210 | STOP disarms the timer and keeps the store; when stopped it changes nothing |
| `Profilers.Profiler.SaveMethods` | franky-agent/src/profiler.cpp:448-460 | `_methods` is sorted by a permutation in place, and the section is its entries up to the first zero count, hottest first; exactly their ids join the set |
| `Profilers.Profiler.SaveCallTraces` | franky-agent/src/profiler.cpp:424-446 | `_traces` is sorted by a permutation in place, and the section is its entries up to the first zero count, hottest first, without NULL frames; exactly their ids join the set |
| `Profilers.Profiler.SaveFrames` | franky-agent/src/profiler.cpp:435-444 | the inner loop emits the non-NULL frames in order and adds exactly their ids |
| `Profilers.Profiler.SaveMethodIds` | franky-agent/src/profiler.cpp:462-467 | each id of the set gets exactly one MethodInfo, and no other id does |
| `Profilers.Profiler.WriteResult` | franky-agent/src/profiler.cpp:403-422 | the report states each of the five counters under its own name and both sections of the sorted store; `_hashes`, the counters and the timer stay as they were |
| `Profilers.Profiler.HandleRequest` | franky-agent/src/profiler.cpp:301-320 | every request is a step of the session protocol, and exactly STOP answers, with one report on the new store |
| `Profilers.Profiler.Tick` | franky-agent/src/profiler.cpp:44-46 | a tick that fires while the timer is armed is a step of the session protocol |
| `Sessions.EveryRun` | franky-agent/src/profiler.cpp:193-210 | in every interleaving of START, STOP, DETACH and ticks: the timer fires every 10 milliseconds exactly when `_running`, and while it does the store is exactly the replay of the ticks since START, and after STOP it is that replay with both tables permuted |
| `Sessions.AlignedWhenArmed` | franky-agent/src/profiler.cpp:198-202 | whenever a tick can fire, `_hashes` and `_traces` are aligned and the probe-chain invariant holds |
| `Sessions.StopMisaligns` | franky-agent/src/profiler.cpp:425 | there is a one-tick session after which every STOP leaves the two arrays out of step, so START has to clear them |
| `Exactness.StopAlignedIff` | franky-agent/src/profiler.cpp:425 | STOP leaves aligned arrays aligned if and only if the slots in use were the first ones |
| `Samples.Conservation` | franky-agent/src/profiler.cpp:153-176 | in every run calls_total is the number of ticks, and equals non_java + gc + deopt + unknown + the sum of the trace counts + the number of overwritten samples |
| `Samples.CountersCount` | franky-agent/src/profiler.cpp:169-175 | after any run non_java, gc, deopt and unknown are the numbers of ticks without environment, with -2, with -9, and with any other non-positive answer |
| `Samples.StoreTraceKeepsOrder` | franky-agent/src/profiler.cpp:102-119 | storing a trace keeps the two arrays aligned and probe-chained if and only if its hash is not the empty mark 0, whether or not it evicts |
| `Tables.StoreMethodKeepsOrder` | franky-agent/src/profiler.cpp:134-151 | storing a method keeps the method table in order if and only if the method is not NULL, whether or not it evicts |
| `Tables.TraceTableHolds` | franky-agent/src/profiler.cpp:102-119 | after every run with nonzero hashes the trace table is in order; it refines the multiset of stored hashes until more than MAX_CALLTRACES distinct ones were stored, and samples are lost exactly from then on |
| `Tables.TraceRoom` | franky-agent/src/profiler.cpp:107-118 | a store overwrites a slot in use exactly if the hash is new and the table full, and then it is one distinct hash too many |
| `Tables.NewTraceSlot` | franky-agent/src/profiler.cpp:102-119 | a new hash goes to the first empty slot from hash modulo 32768 on, cyclically |
| `Tables.FullTraceTable` | franky-agent/src/profiler.cpp:117-118 | a new hash in a full table replaces hash and trace at hash modulo 32768, with count 1, and nothing else |
| `Tables.LossIffOverflow` | franky-agent/src/profiler.cpp:102-119 | the number of overwritten samples is zero if and only if no more distinct hashes were stored than there are slots |
| `Tables.TraceLookup` | franky-agent/src/profiler.cpp:102-119 | below capacity, probing for any hash yields exactly the number of times it was stored, in any order |
| `Tables.ZeroHashLoses` | franky-agent/src/profiler.cpp:111-113 | two ticks whose traces have the hashes 0 and 32768 lose a sample in a table with two keys: the empty mark is a real hash value |
| `Tables.MethodTableHolds` | franky-agent/src/profiler.cpp:134-151 | after every run without NULL top methods the method table is in order; below capacity it refines the multiset of top methods, beyond it it is full |
| `Tables.NewMethodSlot` | franky-agent/src/profiler.cpp:134-151 | a new method goes to the first empty slot from its hash modulo 32768 on, cyclically |
| `Tables.FullMethodTable` | franky-agent/src/profiler.cpp:149-150 | a new method in a full table replaces the entry at its hash modulo 32768, with count 1, and nothing else |
| `Tables.MethodLookup` | franky-agent/src/profiler.cpp:134-151 | below capacity, probing for any method yields the number of ticks that had it on top |
| `ProbeTable.ScanEnds` | franky-agent/src/profiler.cpp:107-115 | the cyclic probe loop ends at the first stopping slot from its bucket on, or back at the bucket if there is none |
| `ProbeTable.SlotWraps` | franky-agent/src/profiler.cpp:114 | the d-th probe looks at slot (bucket + d) modulo 32768 |
| `ProbeTable.ProbeFinds` | franky-agent/src/profiler.cpp:107-115 | in an ordered table probing finds the key exactly if it is stored, else the first empty slot of the chain, else the home bucket |
| `ProbeTable.ProbeKeeps` | franky-agent/src/profiler.cpp:139-150 | writing the key where probing ends keeps the invariant (chains without empty slots, no key twice), across wraparound and when it evicts another key |
| `ProbeTable.StoreRefines` | franky-agent/src/profiler.cpp:134-151 | with room for the key, one store refines adding it to the multiset of stored keys: its count grows by one and no other changes |
| `ProbeTable.LookupCounts` | franky-agent/src/profiler.cpp:139-147 | probing a refining table yields the multiplicity of the key |
| `Hashing.HashCallTrace` | franky-agent/src/profiler.cpp:80-100 | the loop of `hashCallTrace` computes the hash that the theorems below are about, modulo 2^64 |
| `Hashing.HashMethodBijective` | franky-agent/src/profiler.cpp:121-132 | `hashMethod` is a bijection on 64-bit words, with an explicit inverse |
| `Hashing.MixInvertible` | franky-agent/src/profiler.cpp:88-92 | from the hashes before and after a round the key is determined, and from the key and the hash after it the one before |
| `Hashing.SameKeysSameHash` | franky-agent/src/profiler.cpp:86-93 | traces with equal frame keys have equal hashes: the hash sees nothing else of the frames |
| `Hashing.HashTraceSeparates` | franky-agent/src/profiler.cpp:80-100 | `hashCallTrace` never collides on two equal-length traces whose frame keys differ in exactly one position |
| `Hashing.HashSeesMethod` | franky-agent/src/profiler.cpp:86-93 | two traces of one length that differ only in the method of one frame have different hashes, whatever its bci |
| `Hashing.HashSeesBci` | franky-agent/src/profiler.cpp:86-93 | two traces of one length that differ only in the bci of one frame have different hashes, if both are 32-bit integers |
| `Hashing.KeyMerges` | franky-agent/src/profiler.cpp:87 | frames that differ in both can share their key, and then their one-frame traces share the hash |
| `HashVectors.MethodHashValue` | franky-agent/src/profiler.cpp:121-132 | the hash of one method id, as a number |
| `HashVectors.TraceHashValue` | franky-agent/src/profiler.cpp:80-100 | the hash of one two-frame trace with a negative bci, as a number |
| `Hashing.EveryHashOccurs` | franky-agent/src/profiler.cpp:80-100 | every 64-bit word, so also the empty mark 0, is the hash of some one-frame trace |
| `Sorting.Qsort` | franky-agent/src/profiler.cpp:425 | sorting in place yields a sorted permutation for any comparator that is a total preorder |
| `Totals.ReportWeighsTable` | franky-agent/src/profiler.cpp:424-446 | sorting and cutting at the first zero loses no weight, for any weight of paths |
| `Totals.ReportIsComplete` | franky-agent/src/profiler.cpp:424-446 | the samples section emits every slot in use exactly once and no other, in non-increasing order of count |
| `FlameTrees.FlameNode.constructor` | franky-intellij/src/main/kotlin/me/serce/franky/ui/flame/flameTree.kt:41-44 | a new node costs nothing, has no children, and extends its parent's path by its method id |
| `FlameTrees.FlameTree.constructor` | franky-intellij/src/main/kotlin/me/serce/franky/ui/flame/flameTree.kt:17 | a new tree is its root alone, at cost zero |
| `FlameTrees.FlameTree.ChildOf` | franky-intellij/src/main/kotlin/me/serce/franky/ui/flame/flameTree.kt:33-35 | the child under a method id is the one that is there, or a new node of cost zero hung below its parent; no cost changes |
| `FlameTrees.FlameTree.Descend` | franky-intellij/src/main/kotlin/me/serce/franky/ui/flame/flameTree.kt:33-36 | one round of the walk moves to the child for the frame and adds the sample's count there and nowhere else |
| `FlameTrees.FlameTree.AddSample` | franky-intellij/src/main/kotlin/me/serce/franky/ui/flame/flameTree.kt:26-38 | adding a sample keeps the tree well-formed and changes the costs as the walk along its reversed frames does |
| `FlameTrees.FlameTree.Build` | franky-intellij/src/main/kotlin/me/serce/franky/ui/flame/flameTree.kt:16-24 | building fails with IllegalArgument exactly if some sample has no frame, and names the first one; else the tree is well-formed and its costs are the tally of the samples |
| `FlameTrees.TallyWeighs` | franky-intellij/src/main/kotlin/me/serce/franky/ui/flame/flameTree.kt:16-38 | a path has a node exactly if it is a prefix of some sample's path, and its cost is the weight of the samples whose path begins with it |
| `FlameTrees.PathAt` | franky-intellij/src/main/kotlin/me/serce/franky/ui/flame/flameTree.kt:31 | the path of a sample is its frames' method ids in reversed order |
| `FlameTheorems.SelfCost` | franky-intellij/src/main/kotlin/me/serce/franky/ui/flame/flameTree.kt:26-38 | a node's cost minus its children's costs is the weight of the samples that end exactly there |
| `FlameTheorems.TallyPermutes` | franky-intellij/src/main/kotlin/me/serce/franky/ui/flame/flameTree.kt:20-23 | permuting the samples changes no node and no cost |
| `FlameTheorems.TallyMerges` | franky-intellij/src/main/kotlin/me/serce/franky/ui/flame/flameTree.kt:20-23 | splitting a sample into two with the same frames, or merging two, changes no node and no cost |
| `Pictures.BuiltDraws` | franky-intellij/src/main/kotlin/me/serce/franky/ui/flame/flameTree.kt:16-38 | any tree built of samples, also of samples that count nothing, meets what the panel asks for, unless it has nodes and no cost at all |
| `Pictures.ShowTree` | franky-intellij/src/main/kotlin/me/serce/franky/ui/flame/flameGraph.kt:113-142 | a panel opened on any such tree, painted, clicked on at any visible node and painted again displays that node's picture, in whole pixels as `PictureIsNeat` and `PictureIsClear` say, and nothing else of any size, and asks for the height at which the lowest frame begins |
| `Pictures.RectangleIsTickShare` | franky-intellij/src/main/kotlin/me/serce/franky/ui/flame/flameGraph.kt:51-79 | in every displayed picture of a session's report the component of a node is at its depth's row and floor(panel * its ticks / the current root's ticks) wide |
| `Pictures.BarsAbove` | franky-intellij/src/main/kotlin/me/serce/franky/ui/flame/flameGraph.kt:81-99 | the components of the current root and its ancestors are full-width bars, each on its own row |
| `FlameLayouts.FlameComponent.constructor` | franky-intellij/src/main/kotlin/me/serce/franky/ui/flame/flameGraph.kt:41-49 | a fresh panel displays the whole visible tree below the root and nothing else |
| `FlameLayouts.FlameComponent.Paint` | franky-intellij/src/main/kotlin/me/serce/franky/ui/flame/flameGraph.kt:125-128 | painting lays the current root's picture out for the present panel width; every component is part of that picture or has no size, as before |
| `FlameLayouts.FlameComponent.ResetNode` | franky-intellij/src/main/kotlin/me/serce/franky/ui/flame/flameGraph.kt:113-123 | a click displays the picture of the clicked node, and every component that is not part of it has no size |
| `FlameLayouts.FlameComponent.Build` | franky-intellij/src/main/kotlin/me/serce/franky/ui/flame/flameGraph.kt:51-65 | a visible node and everything visible below it is placed, by cost and in some order of the children; nothing outside the subtree changes; an empty interval, such as that of a node without cost, changes nothing; the height is the lowest top reached |
| `FlameLayouts.FlameComponent.BuildChildren` | franky-intellij/src/main/kotlin/me/serce/franky/ui/flame/flameGraph.kt:58-64 | the loop places the subtree of every child that has a cost, each once, one after the other |
| `FlameLayouts.FlameComponent.CountLevel` | franky-intellij/src/main/kotlin/me/serce/franky/ui/flame/flameGraph.kt:82-89 | the number of parent links from a node is its depth |
| `FlameLayouts.FlameComponent.CalcTop` | franky-intellij/src/main/kotlin/me/serce/franky/ui/flame/flameGraph.kt:81-99 | every proper ancestor of the current root becomes a collapsed full-width bar at its own depth, and the current root's depth is returned |
| `FlameLayouts.FlameComponent.RecalcPositions` | franky-intellij/src/main/kotlin/me/serce/franky/ui/flame/flameGraph.kt:137-141 | the whole picture of the current root is displayed, all other components stay as they were, and the height asked for is the top of the lowest frame shown |
| `FlameGeometry.WidthIsShare` | franky-intellij/src/main/kotlin/me/serce/franky/ui/flame/flameGraph.kt:51-65 | for any current root r every visible node below it has width cost(node) / cost(r) and its own depth as level |
| `FlameGeometry.ChildStarts` | franky-intellij/src/main/kotlin/me/serce/franky/ui/flame/flameGraph.kt:59-64 | the j-th child spans exactly the share of its cost, after the share of the children before it |
| `FlameGeometry.DescendantInside` | franky-intellij/src/main/kotlin/me/serce/franky/ui/flame/flameGraph.kt:51-65 | everything below a node stays inside its interval |
| `FlameGeometry.SiblingsApart` | franky-intellij/src/main/kotlin/me/serce/franky/ui/flame/flameGraph.kt:59-64 | siblings do not overlap, and neighbours touch |
| `FlamePixels.PictureIsNeat` | franky-intellij/src/main/kotlin/me/serce/franky/ui/flame/flameGraph.kt:30-38 | for any tree, any current root and any panel width, of the drawn components: two frames neither of which is below the other share no pixel column; a frame passes the right edge of one it is below by at most one pixel and its left edge never; the children of a frame, in some order, begin at its left edge and follow each other with gaps of at most one pixel |
| `FlamePixels.PictureIsClear` | franky-intellij/src/main/kotlin/me/serce/franky/ui/flame/flameGraph.kt:32 | every drawn frame at depth d fills the 20 pixel rows from 20 * d on, and no two drawn frames share a pixel |
| `FlamePixels.BottomRowCut` | franky-intellij/src/main/kotlin/me/serce/franky/ui/flame/flameGraph.kt:76-78 | the height that the panel asks for is where its lowest frame begins: in every displayed picture some frame hangs a whole row below it |
| `FlamePixels.DrawnApart` | franky-intellij/src/main/kotlin/me/serce/franky/ui/flame/flameGraph.kt:30-38 | in a displayed picture two frames neither of which is below the other share no pixel column |
| `FlamePixels.DrawnWithin` | franky-intellij/src/main/kotlin/me/serce/franky/ui/flame/flameGraph.kt:30-38 | in a displayed picture a frame passes the right edge of any frame it is below by at most one pixel, and its left edge never |
| `FlamePixels.DrawnInRow` | franky-intellij/src/main/kotlin/me/serce/franky/ui/flame/flameGraph.kt:58-64 | in a displayed picture the children of a frame, in the order in which `build` met them, begin at its left edge and follow each other with gaps of at most one pixel |
| `FlameGeometry.NoOverlap` | franky-intellij/src/main/kotlin/me/serce/franky/ui/flame/flameGraph.kt:51-65 | two nodes neither of which is below the other never overlap, in particular no two on one level |
| `Lifetimes.Lifetime.constructor` | franky-intellij/src/main/kotlin/me/serce/franky/util/lifetimes.kt:7-24 | a new lifetime is live and has no actions |
| `Lifetimes.Lifetime.Add` | franky-intellij/src/main/kotlin/me/serce/franky/util/lifetimes.kt:40-45 | adding appends, or fails on a terminated lifetime and changes nothing |
| `Lifetimes.Lifetime.AddNested` | franky-intellij/src/main/kotlin/me/serce/franky/util/lifetimes.kt:47-54 | a terminate entry goes to the parent and an unhook entry to the child; a dead child changes nothing, a dead parent is the error |
| `Lifetimes.Lifetime.Terminate` | franky-intellij/src/main/kotlin/me/serce/franky/util/lifetimes.kt:28-38 | re-entrant termination over the reversed snapshot, on lists in order it completes, keeps the invariant, and ends exactly the live lifetimes below, each of whose user actions runs once, last registered first; on any lists it does what `Exec` says, including an exception that a nested call raises and that ends the outer calls where they stand |
| `Lifetimes.ExecEnds` | franky-intellij/src/main/kotlin/me/serce/franky/util/lifetimes.kt:28-38 | the same for a nested call, inside any running terminations of earlier lifetimes, whose own lists stand half run |
| `Lifetimes.World.constructor` | franky-intellij/src/main/kotlin/me/serce/franky/util/lifetimes.kt:7-24 | at first there is no lifetime, nothing has run and nothing was asked for |
| `Lifetimes.World.Register` | franky-intellij/src/main/kotlin/me/serce/franky/util/lifetimes.kt:26 | registering a user action appends it, or fails on a terminated lifetime and changes nothing; the invariant and the account of the whole history hold again |
| `Lifetimes.World.Terminate` | franky-intellij/src/main/kotlin/me/serce/franky/util/lifetimes.kt:28-38 | terminating any lifetime at top level: the error exactly if it had ended; else everything below ends, every other list loses exactly its entries for what ended; the invariant and the account of the whole history hold again |
| `Lifetimes.World.Create` | franky-intellij/src/main/kotlin/me/serce/franky/util/lifetimes.kt:10-16 | creation succeeds exactly if all parents are live, and otherwise stops at the first dead one; each parent reached gets one entry per occurrence; with distinct parents the invariant and the account of the whole history hold, also after a failure |
| `Lifetimes.World.AttachAll` | franky-intellij/src/main/kotlin/me/serce/franky/util/lifetimes.kt:12-14 | the loop registers the child with its parents in order, one entry per occurrence, up to the first dead one |
| `Lifetimes.CreateIffDistinct` | franky-intellij/src/main/kotlin/me/serce/franky/util/lifetimes.kt:10-16 | creation under live parents keeps the invariant if and only if no parent is named twice |
| `Lifetimes.NamedTwiceThrows` | franky-intellij/src/main/kotlin/me/serce/franky/util/lifetimes.kt:29-36 | on any lists, terminating a live lifetime whose list names a child twice ends in the exception |
| `Lifetimes.CompletesIffNamedOnce` | franky-intellij/src/main/kotlin/me/serce/franky/util/lifetimes.kt:10-16 | right after a creation, terminating one of the parents completes if that parent was named once, also when others were named twice, and ends in the exception if it was named more often |
| `Lifetimes.CreatedEnds` | franky-intellij/src/main/kotlin/me/serce/franky/util/lifetimes.kt:47-54 | right after a creation, terminating the new lifetime completes and leaves every other list as it was before, however often a parent was named |
| `Lifetimes.NamedTwice` | franky-intellij/src/main/kotlin/me/serce/franky/util/lifetimes.kt:10-38 | on the mutable classes: a child is created under one parent named twice, and terminating that parent ends in the exception |
| `Lifetimes.ChildSnapshot` | franky-intellij/src/main/kotlin/me/serce/franky/util/lifetimes.kt:33-36 | the entries of the snapshot still to run name only live children: a child that just ended can have ended none created before it |
| `Lifetimes.NoneSurvives` | franky-intellij/src/main/kotlin/me/serce/franky/util/lifetimes.kt:28-38 | after a termination nothing below it is alive |
| `Lifetimes.BetweenOperations` | franky-intellij/src/main/kotlin/me/serce/franky/util/lifetimes.kt:28-54 | between operations a live list holds a terminate entry exactly for each live child and none twice, starts with one unhook entry per parent in order, and holds no other; terminate entries stand in order of creation; every parent of a live lifetime is live |
| `Lifetimes.CreateThenTerminate` | franky-intellij/src/main/kotlin/me/serce/franky/util/lifetimes.kt:47-54 | terminating a lifetime that has no actions of its own yet undoes its creation: no action runs, no other lifetime ends, and every live list is what it was before |
| `Lifetimes.MadeRemembers` | franky-intellij/src/main/kotlin/me/serce/franky/util/lifetimes.kt:10-16 | creation keeps the account of the whole history: a live list is everything ever put on it, in order of registration, without the entries of what has ended since; the journal has each user action of each ended lifetime exactly once, last registered first, and none of a live one |
| `Lifetimes.AddedRemembers` | franky-intellij/src/main/kotlin/me/serce/franky/util/lifetimes.kt:40-45 | registering a user action keeps that account |
| `Lifetimes.FinishedRemembers` | franky-intellij/src/main/kotlin/me/serce/franky/util/lifetimes.kt:28-38 | termination keeps that account |
| `Lifetimes.TestLifetimes` | franky-intellij/src/test/kotlin/me/serce/franky/util/LifetimeTest.kt:37-49 | the test itself, on the mutable classes: its string is 2, 1, Hello, World |
| `Globs.WildCardMatch` | franky-agent/include/easylogging.h:1273-1295 | matching terminates and is true exactly if the text can be cut into one piece per pattern character that the character stands for |
| `Globs.EmptyPattern` | franky-agent/include/easylogging.h:1294 | the empty pattern matches the empty text only |
| `Globs.OneCharacter` | franky-agent/include/easylogging.h:1276-1292 | a '?' or an ordinary character consumes exactly one character |
| `Globs.Star` | franky-agent/include/easylogging.h:1282-1287 | a '*' matches nothing or takes one more character: the two recursive calls are all there is to try |
| `HitCounters.RegisteredHitCounters.Get` | franky-agent/include/easylogging.h:3311 | a counter is found exactly if the site is registered |
| `HitCounters.RegisteredHitCounters.Obtain` | franky-agent/include/easylogging.h:3311-3314 | the site's counter, registered now if it was not; no other counter changes |
| `HitCounters.RegisteredHitCounters.Hit` | franky-agent/include/easylogging.h:3315 | a hit advances the counter of its site and no other |
| `HitCounters.RegisteredHitCounters.ValidateEveryN` | franky-agent/include/easylogging.h:3309-3318 | in any interleaving of sites: at a site that always asked for the same n <= 100000 the k-th call fires exactly when n divides k |
| `HitCounters.CountFollows` | franky-agent/include/easylogging.h:3259-3264 | for 1 <= n <= 100000 the wrapping count stays at most 100000 and congruent to the number of calls modulo n |
| `HitCounters.CountStuck` | franky-agent/include/easylogging.h:3259-3264 | for n > 100000 the counter stands still at 100001 once it got there |
| `HitCounters.EveryNthCall` | franky-agent/include/easylogging.h:3309-3318 | every k-th call fires exactly when n divides k, for all k, if and only if n <= 100000 |
| `LogConfigs.Configurations.UnsafeSet` | franky-agent/include/easylogging.h:2855-2865 | one set at a level changes what the list answers for that type at that level, and from Global at every valid level, and nothing else; no pair is listed twice |
| `LogConfigs.Configurations.UnsafeSetGlobally` | franky-agent/include/easylogging.h:2882-2891 | the level iteration sets every valid level from Trace to Info, and Global before them if asked to; a type that is new to the list is listed first at Global or else at Trace |
| `LogConfigs.Configurations.Set` | franky-agent/include/easylogging.h:2596-2602 | the same for the public entry, which repeats the global pass |
| `LogConfigs.TypedConfigurations.constructor` | franky-agent/include/easylogging.h:3055-3093 | `build` for one type folds the entries of that type, in list order, into the map |
| `LogConfigs.RunAnswers` | franky-agent/include/easylogging.h:2596-2602 | after any sequence of sets the list answers, for every level and type, the last value that reached it, and lists no pair twice |
| `LogConfigs.BuildCompresses` | franky-agent/include/easylogging.h:3055-3093 | under Global the map holds the Global value, or the first value of the type while there is none; any other stored value is the list's own, and a listed level that the map leaves out has the value under Global or that of the first entry |
| `LogConfigs.CompressionExact` | franky-agent/include/easylogging.h:3033-3053 | the compressed map with Global fallback answers like the list at every level if and only if the type's first entry is at Global, or Global is not set, or both have the same value |
| `LogConfigs.CallsExact` | franky-agent/include/easylogging.h:3033-3053 | after any sets, the map answers every level with the last value that reached it if and only if the first set of the type was at Global, or none was, or the first set's level and Global were last set to the same value |
| `LogConfigs.WrongAnswer` | franky-agent/include/easylogging.h:3033-3053 | enabled at Debug, disabled at Global, enabled at Debug again: on the mutable classes the list says enabled for Debug and the map says disabled |
| `LogConfigs.LastSetWins` | franky-agent/include/easylogging.h:3000-3014 | after any sets whose first one for a type is at Global, the compressed map answers for every level the value of the last set at that level or at Global |
| `LogConfigs.FallsBack` | franky-agent/include/easylogging.h:3000-3014 | a level that no set reached gets the default value if the type was never set, else the last value that reached Global, else the last value that reached the level of the first set |

## Left out

- Signal concurrency: two handlers at once, or a handler still running during STOP; the source has no synchronisation to reason about.
- Sockets, protobuf framing, the plugin's network side and attaching to a JVM: a report is a value, a request an event; a request type beside START, STOP and DETACH, which the loop skips, has no event.
- JVMTI, JNI, method names and the compiled and inlined flags: a MethodInfo is its id.
- The interval timer itself: the model keeps the interval it was last set to, and a tick can come whenever that is not zero; how many ticks come, and when, is arbitrary.
- Frames beyond the number of frames in a stored trace, which keep stale contents that nothing reads.
- IEEE rounding in the layout: fractions are reals.
- Swing painting, component texts and percentages, PSI lookup, mouse handling and subjects.
- `Lifetime.toDisposable`, which rests on a foreign disposer, and the flag `isEternal`, which nothing reads.
- User actions that terminate or create lifetimes.
- Lifetimes.World.Terminate: is stated of lifetimes that were created under distinct parents; with a parent named twice, `Lifetimes.Lifetime.Terminate` still says what each call does, but whether it completes is characterised only right after the creation.
- FlameLayouts.FlameComponent.constructor: a tree that has nodes but no cost at all is not laid out, because its shares are 0 / 0, which is no real number.
- The locks, writers, files, date formats and configuration files of the logging header, and its typed maps for Format, Filename, ToFile, MillisecondsWidth and PerformanceTracking, which have rules of their own.
- Parsing of configuration values: `parse` is an arbitrary function of the value's text.
- NUL characters in the strings given to the wildcard matcher.
- HitCounters.RegisteredHitCounters.ValidateEveryN: for a site whose calls ask for different n, only the stored count and the test on it are stated, not a property of the call number.
- Sorting.Qsort: the in-place sort stands for the C library's; its own algorithm is an insertion sort, and only its being a sorted permutation is used.
