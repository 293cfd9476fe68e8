# A verified model of the futex deadlock detector

The detector traces a process, records its futex calls in a handful of global tables, looks for wait
cycles after every stop and takes one listed thread out of the tables for every new report, which need
not be a thread of the cycle. This project models the tables, the event handlers, the detectors and the table clean-up in Dafny and proves what they
guarantee over every graph, every state and every run. `dafny verify dfyconfig.toml` checks it.

| file | what it models |
|---|---|
| `Graphs.dfy` | walks, cycles, doomed vertices, topological orders; no source of its own |
| `State.dfy` | the global tables and the records kept in them |
| `Identifiers.dfy` | printing `name[tid]`, reading it back, the cache of thread names |
| `Monitoring.dfy` | the event handlers as methods on the tables, and as table updates |
| `History.dfy` | each table as a function of the event history |
| `ThreadSearch.dfy` | `dfs_deadlock` and the root loop that shares its stack |
| `ConflictGroups.dfy`, `Grouping.dfy` | `analyze_conflict_groups` and what the groups mean |
| `CycleCollector.dfy` | the collecting search of `find_group_cycles` |
| `Quotients.dfy`, `GroupDeadlocks.dfy` | the wait graph between groups, lifting its cycles back to threads |
| `RootCycles.dfy` | the per-root search of `analyze_lock_dependency_graph` |
| `Scenarios.dfy` | the bounded heuristic for cycles of two and three threads |
| `Resolution.dfy`, `NamedLocks.dfy` | victims, clean-up, ownership, the locks a report names |
| `Latency.dfy` | when a cycle can appear, over runs with clean-ups |
| `Verdicts.dfy` | when a group cycle can be trusted |
| `Reports.dfy`, `Scans.dfy` | what one report does; the root loop that resolves as it goes |
| `Silence.dfy` | exactly when a scan of a cyclic graph can say nothing |
| `Detection.dfy`, `Convergence.dfy` | `detect_and_resolve_deadlocks`, `handle_event`; why repeated calls come to rest |
| `Traces.dfy` | the tracer's runs, from the first state on, and what holds in all of them |
| `Scripts.dfy` | stepping through given runs, for the four files that follow |
| `Rings.dfy`, `Recurrence.dfy`, `FalseAlarms.dfy`, `Upstream.dfy` | runs on which the detector loses an owner, misses a deadlock, reports one that is none, resolves one in vain |
| `ProcessMemory.dfy` | copying to and from the traced process word by word |

## How to read the main results

* **The scan that never clears its stack is exact.** `dfs_deadlock` does not pop its stack when it
  succeeds and the root loop hands the same stack to every root, so a report after the first need not
  contain a cycle. Still, on a fixed graph the final stack is exactly the set of threads that can
  reach a wait cycle, each of them stands in the head (all entries but the last) of exactly one
  report, and nothing is reported iff the graph is acyclic. The rest of the visited threads come with
  a topological order (`finished`).
* **The tables are functions of the past.** Owners, lock sets, wait edges, queues and statistics are
  each characterised by the events that happened, with no reference to the tables themselves.
* **Zero latency.** Over every run, clean-ups included, the graph turns cyclic only at a wait on an
  address whose owner already reaches the waiter, and every cycle then uses the new edge
  (`ZeroLatency`). In that very stop `handle_event` either takes the group path or scans. Over every
  run of the tracer, a scan reports exactly the threads that can reach a cycle, although it erases
  entries as it goes (`EveryStopCoversAll`), and a stop that leaves a cycle counts a deadlock, unless a
  complete list of reports of this very graph is on record (`EveryDeadlockIsAnswered`).
* **The tracer's runs.** Whatever stops come in, in whatever orders the containers are iterated and
  whatever the outside world answers, every state that `handle_event` leaves is the outcome of the
  events so far with clean-ups in between (`Trace`, `RunsAreTraced`), so all results over runs hold in
  it. The four examples below are stated for every such run of the given stops.
* **Groups lose no cycle they should see.** A wait cycle either stays inside one conflict group or
  makes the group graph cyclic, and `find_group_cycles` answers iff that graph is cyclic. The
  collected cycles correspond one-to-one to the back edges.
* **Convergence.** On a quiet system with a live thread in every new report, each call changes
  nothing, or switches monitoring off for good, or takes an entry out of the wait graph. So at most
  one more call than there are wait entries reports, whatever is on record at the start, and within
  that many calls nothing is sure to be reported any more (`RunQuietly`). If all records are defused
  at the start, monitoring is then off or the graph is acyclic, and that stays so. It is enough that
  every thread that waits at the start stays alive.

Where the code does not meet an expectation, the input and the exact condition are given:

* **A deadlock on record can come back unseen.** Some iteration order of `waits_for` and its sets lets
  a scan pass over the cycles of a graph, with everything left as it was, iff the records hold a
  complete list: reports of one pass whose heads are exactly the threads that can reach a cycle. In
  every other case every order counts a deadlock (`SilentCallIff`, `SilenceIff`). While each record
  lists a thread that waits for nobody, no such list of a cyclic graph is on record
  (`DefusedIsIncomplete`), and a quiet system keeps that. New events need not: two threads deadlock,
  are reported and separated and deadlock again, and the stop that closes the second ring does nothing
  if the scan starts at the same thread (`FormsTwice`).
* **A resolution need not break the cycle.** The victim is the first live thread of the report, which
  can lie upstream of the cycle. The reported cycle outlives the resolution iff some thread listed
  before it is alive or nobody listed is (`CycleOutlivesIff`, and `CycleSurvivesIff` for any names). A
  run of eight stops ends with the record saying that a deadlock is resolved which is still there
  (`VictimUpstream`).
* **A group cycle need not be a deadlock.** Four threads of two groups, with two wait edges and no
  wait cycle, switch monitoring off in every iteration order (`FalseAlarm`, `AlarmIsRaised`). With given
  lock sets the verdict can be trusted for every wait graph and order iff no two threads have a lock
  in common (`VerdictSoundIff`); over runs without clean-ups, also if all lock holders share a lock
  with each other, and in no other case (`RunVerdictSoundIff`). With shared locks it can be trusted in
  any state in which wait chains pass through every group (`PassingGroupsAreSound`).
* **A report names a lock only if the next listed thread queues behind the previous one**, which is
  against the direction of the report (`NamedLockMeansWaitBack`). The clean-up after a new report
  keeps ownership consistent iff every lock the victim owns is named (`ReportKeepsOwnersIff`). The run
  in which three threads that share a lock deadlock in a ring names none, whichever rotation is found,
  and leaves the victim recorded as an owner (`RingRunLosesOwner`).
* **An identifier reads back as its tid** iff the thread name has no `[` or the text after its first
  `[` happens to read as that tid (`RoundTripExactly`). Otherwise the reader answers another number or
  throws, and a throw inside `resolve_deadlock_strategy1` leaves monitoring off. The results on calls
  need the names in the tables to read back (`Named`, `NamedIff`), and nothing else of them.

## Conventions

* A hash container iterates in an arbitrary order. Where only one pass matters, the methods pick
  elements with `:|`, so the proofs hold for every order. `analyze_conflict_groups` runs several times
  on one state, and whether a scan repeats itself depends on the order, so the order of the two maps
  and of the wait sets is a parameter (`Order`).
* One event is one stop. The tracer stops at the entry and at the exit of a system call alike, so a
  futex call that completes reaches `handle_syscall` twice and is two events; one that blocks is one.
* `unordered_map` lookups that create entries (`futex_waiters[addr]`) create them here too.
* Names: `get_thread_name` fixes the name of a tid at its first use (`ThreadNames`), so the event
  tables take names from a fixed function of the tid.
* `World` stands for the answers of the outside world in one detection call: which tids exist and,
  for each deadlock by its number, whether its shadow process could be forked and awaited. `Threw`
  stands for an exception of `std::stoi`.
* `ScanAndResolve` walks the keys of `waits_for` in the order `Order.waiters` and skips the entries
  erased on the way; the reports found are a ghost result.
* A `Scene` is all that a detection call reads and writes: the tables, the monitoring flag, the
  records and the counter. A `Trail` is a run of the tracer: its stops, orders, worlds and scenes.
* "Run" in the rows on `History`, on `Grouping.WaitEdgesConflict` and on `NamedLocks` is a run of
  events without clean-ups (`Run`), as in `RunVerdictSoundIff`; in all other rows it may contain
  clean-ups and breaks (`After`).
* In `Scan` the report handling of the root loop is replaced by collecting the reports.

## Model

| member | source | states |
|---|---|---|
| ThreadSearch.Search.DfsDeadlock | src/detection.cpp:25-52 | Failure restores the stack and finishes every thread it visited, in topological order; success appends the reverse of a walk along wait edges whose threads before the last were unvisited, are pairwise different and are exactly what the stack gained, and whose last thread is on the stack; a report that follows first targets all the way is the one found. |
| ThreadSearch.Search.TryRoot | src/detection.cpp:616-621 | One root with the shared `visited` and `stack`: the reversed report starts at the root and has the shape above. |
| ThreadSearch.Scan | src/detection.cpp:612-623 | On a fixed graph the never-cleared stack is exactly the set of threads that can reach a cycle; the report heads cover it; nothing is reported iff the graph is acyclic; all other visited threads are topologically ordered. |
| ThreadSearch.FirstReportHoldsCycle | src/detection.cpp:616-623 | The last entry of the first report repeats an earlier one and the slice between them is a simple wait cycle. |
| ThreadSearch.ListedExactlyOnce | src/detection.cpp:612-623 | Every listed thread, last entries included, is in the head of exactly one report. |
| ThreadSearch.ReportedAreDoomed | src/detection.cpp:612-623 | No report lists a thread that could still run. |
| Graphs.CertificateDecides | src/detection.cpp:612-621 | A set in which everyone waits for a member, together with a topological order of the other keys, is exactly the split into threads that can reach a cycle and threads that cannot. |
| Monitoring.UpdateLockStats | src/monitoring.cpp:13-36 | First acquisition creates the record, later ones count up; waiters are copied from the queue, which is created if absent. |
| Monitoring.OnLock | src/monitoring.cpp:38-59 | New owner, lock added to the thread's set, the thread erased as a target of every wait set and from every queue, statistics of this address refreshed; nothing else changes, and nothing at all below 0x10000 or above 0x7fffffffffff. |
| Monitoring.OnWait | src/monitoring.cpp:61-83 | The thread is queued, gets a wait edge to a different recorded owner, and a tracked address has exactly its queue recorded; nothing happens below 0x10000 or above 0x7fffffffffff. |
| Monitoring.OnWake | src/monitoring.cpp:85-102 | The queue of the address is dropped and its recorded waiters are cleared; owners, lock sets and wait sets stay. |
| Monitoring.HandleSyscall | src/monitoring.cpp:104-128 | FUTEX_WAIT and the two bitset commands append the caller to the queue of the address, keep all owners and lock sets and add at most the edge to a different owner; FUTEX_WAKE makes the caller the owner, lists the lock, empties the queue, takes the caller out of the others and removes exactly the edges to it; other commands and calls change nothing. |
| Monitoring.EventOfIff | src/monitoring.cpp:113-125 | Which commands are taken for an acquisition, which for a wait, and which for nothing. |
| History.OwnerHistory | src/monitoring.cpp:46 | In every run without clean-ups the owner of an address is the thread of the last wake on it. |
| History.LocksHistory | src/monitoring.cpp:47 | In every run without clean-ups a lock is in a thread's set iff the thread ever woke it: the sets only grow. |
| History.EdgeHistory | src/monitoring.cpp:46-51 | In every run without clean-ups t waits for u iff some wait by t on an address last woken by u, u other than t, happened and u has acquired nothing since. |
| History.HoldersAreListed | src/monitoring.cpp:46-47 | In every run without clean-ups owners hold the lock in `thread_locks`, and whoever is waited for has an entry there. |
| History.QueueHistory | src/monitoring.cpp:53-66 | In every run without clean-ups `futex_waiters[a]` lists, oldest first, the waits on a after which neither a was woken nor the waiting thread acquired anything. |
| History.StatsHistory | src/monitoring.cpp:13-36 | In every run without clean-ups a lock is tracked from its first wake on, `total_acquisitions` counts the wakes, the owner agrees, and the real queue is a subsequence of the recorded waiters, so `waiters_count` is never too small. |
| History.RecordedWaiters | src/monitoring.cpp:79-82 | In every run without clean-ups the recorded waiters of a tracked lock are exactly the live waits just after the last event on it, oldest first, and `waiters_count` is their number. |
| ConflictGroups.AnalyzeConflictGroups | src/detection.cpp:95-189 | The groups are a fixed function of the tables and the iteration order: members by first matching founder, held and wanted locks, conflicts. |
| ConflictGroups.GroupByLocks | src/detection.cpp:115-142 | The greedy loop yields one group per founder, holding exactly the lock holders whose first matching founder it is. |
| ConflictGroups.AddWaitingThreads | src/detection.cpp:144-150 | Threads that wait but hold nothing get one group each. |
| ConflictGroups.MarkConflicts | src/detection.cpp:178-186 | Each pair of groups is marked on both sides iff the two conflict. |
| Grouping.FoundersGreedy | src/detection.cpp:115-142 | In iteration order, a lock holder founds a group iff it has no lock in common with a founder before it. |
| Grouping.FoundersInOrder | src/detection.cpp:100-112 | Groups are numbered in the order of their founders. |
| Grouping.MembersJoinFirst | src/detection.cpp:125-141 | A lock holder is in the group of the first founder that it is or has a lock in common with. |
| Grouping.GroupLocksAre | src/detection.cpp:152-176 | A group holds what is in the lock sets of its threads and wants what is owned by whom they wait for. |
| Grouping.FoundersIndependent | src/detection.cpp:115-142 | No founder joins an earlier founder: founders pairwise share no lock. |
| Grouping.FoundersMaximal | src/detection.cpp:115-142 | Every lock holder is a founder or shares a lock with one. |
| Grouping.GroupShape | src/detection.cpp:115-150 | Every member of a founder's group shares a lock with the founder; all further groups are single waiting threads without locks. |
| Grouping.GroupsDisjoint | src/detection.cpp:115-150 | No thread is in two groups. |
| Grouping.GroupsCover | src/detection.cpp:115-150 | Exactly the keys of `thread_locks` and `waits_for` are grouped. |
| Grouping.ConflictsAreMutual | src/detection.cpp:178-186 | `group_id` is the index; `conflicting_groups` is symmetric, irreflexive and exactly the conflict relation. |
| Grouping.ConflictsExplained | include/deadlock_resolver.h:21-30 | Two groups are in conflict iff a thread of one waits for the current owner of an address that is in the lock set of a thread of the other. |
| Grouping.WaitEdgesConflict | src/detection.cpp:162-186 | In every run without clean-ups the target of a wait edge is grouped, and a wait edge between two groups whose target owns a lock puts them in conflict. |
| CycleCollector.Collector.RecordCycle | src/detection.cpp:713-730 | On a back edge the slice of the path from its target on is recorded; the `path.end()` test and the duplicate test never fail. |
| CycleCollector.Collector.Dfs | src/detection.cpp:703-737 | The search leaves path and stack as they were and keeps every edge of a finished vertex either descending or closing a collected cycle. |
| CycleCollector.CollectCycles | src/detection.cpp:697-743 | Every edge either descends in the finishing order or is the closing edge of exactly one collected simple cycle. |
| CycleCollector.CollectedIffCyclic | src/detection.cpp:739-754 | Nothing is collected iff the graph is acyclic. |
| GroupDeadlocks.BuildGroupWaitGraph | src/detection.cpp:664-695 | The group graph has an edge exactly where a thread of one group waits for a thread of another. |
| GroupDeadlocks.FindGroupCycles | src/detection.cpp:664-755 | Empty iff the group graph is acyclic; otherwise a simple cycle of at least two groups, longest among those collected. |
| Quotients.CycleInsideOneGroup | src/detection.cpp:664-695 | All threads of a wait cycle are in one group, or the group graph is cyclic: the thread-level fallback only faces cycles inside groups. |
| Quotients.GroupVerdictIsThreadVerdict | src/detection.cpp:571-605 | After every run, clean-ups included, if no two threads have a lock in common the group graph is cyclic iff the thread graph is. |
| Verdicts.VerdictSoundIff | src/detection.cpp:571-605 | Group cycles over given lock sets are backed by wait cycles in every wait graph and order iff no two threads have a lock in common. |
| Verdicts.ListedVerdictSoundIff | src/detection.cpp:571-605 | The same among all states in which every thread that is waited for is listed: iff no two threads, or every two, have a lock in common. |
| Verdicts.RunVerdictSoundIff | src/detection.cpp:571-605 | Over the runs of events that leave given lock sets, group cycles are backed by wait cycles in every order iff no two threads, or every two, have a lock in common, or no run leaves these sets. |
| Verdicts.OneGroupIsAcyclic | src/detection.cpp:571-608 | If all lock holders share a lock with each other and only lock holders are waited for, the thread-level scan runs. |
| Verdicts.PassingGroupsAreSound | src/detection.cpp:571-605 | If in every group whoever is waited for from outside reaches whoever waits outside, a group cycle is backed by a wait cycle, shared locks or not. |
| FalseAlarms.PairsFoolGroups | src/detection.cpp:115-142 | Two pairs of sharers that wait for each other crosswise make the group graph cyclic in every iteration order. |
| FalseAlarms.FalseAlarm | src/detection.cpp:571-605 | Every run of eight given stops ends in tables whose group graph is cyclic in every order and whose wait graph is not. |
| FalseAlarms.AlarmIsRaised | src/main.cpp:38-49 | The last of these stops switches monitoring off and counts a deadlock, although the wait graph is acyclic. |
| GroupDeadlocks.ExpandGroupCycleToThreads | src/detection.cpp:757-804 | On a cycle of the group graph the fallback is never used and the i-th thread is of the i-th group and waits for a thread of the next group. |
| GroupDeadlocks.FollowersDistinct | src/detection.cpp:769-801 | The lifted threads are pairwise different and each is in its own group only. |
| GroupDeadlocks.SingletonsLiftToCycle | src/detection.cpp:769-801 | If the groups are single threads, the lifted list is a simple wait cycle. |
| GroupDeadlocks.SelectVictims | src/detection.cpp:837-866 | The victims are exactly the lifted threads in order, each with its own group and tid; a tid that does not read back throws. |
| GroupDeadlocks.DetectGroupDeadlock | src/detection.cpp:806-869 | A group deadlock is reported iff the group graph is cyclic, with a simple cycle, its lift, distinct victims and the locks of its groups. |
| GroupDeadlocks.InvolvedLocksAre | src/detection.cpp:816-833 | The involved locks are those in the lock set of a thread of a reported group or owned by whom such a thread waits for. |
| RootCycles.RootSearch.Dfs | src/detection.cpp:497-522 | Success records one slice of an unpopped path that closes on itself; failure leaves everything visited topologically ordered. |
| RootCycles.RootSearch.SearchFrom | src/detection.cpp:492-526 | A root's search succeeds iff the root can reach a cycle, and then adds one simple cycle reachable from it. |
| RootCycles.FindCyclePerRoot | src/detection.cpp:490-527 | One cycle for each group that can reach a cycle and none for any other, each simple and reachable from its root. |
| Scenarios.FindPotentialDeadlockScenarios | src/detection.cpp:325-360 | Each closed chain of two or three wait edges is listed exactly once, and nothing else. |
| Scenarios.ListedAreShortCycles | src/detection.cpp:334-357 | After every run, clean-ups included, these chains are exactly the simple wait cycles of two or three threads, in every rotation. |
| Scenarios.HeuristicAgainstScan | src/detection.cpp:325-360 | Both run on the graph of any state after a run: the heuristic answers iff there is a cycle of two or three threads, the full scan iff there is any cycle. |
| Resolution.FindVictim | src/strategy1.cpp:791-807 | The victim is the first listed thread that exists, unless an earlier tid does not read back. |
| Resolution.ResolveDeadlockStrategy1 | src/strategy1.cpp:784-996 | Table clean-up and monitoring flag in each outcome: resolved, failed, thrown. |
| Resolution.EmergencyDeadlockBreak | src/strategy1.cpp:998-1025 | The victim's wait entry, lock set and every owned lock are removed, under the identifier printed anew. |
| Resolution.BreakTakesOnly | src/strategy1.cpp:1008-1018 | Every address keeps its owner unless that is the victim; lock sets and wait sets of all other threads, queues and statistics stay. |
| Resolution.CleanUpTakesOnly | src/strategy1.cpp:961-973 | Every address keeps its owner unless that is the victim and the address is involved; the other threads keep their lock sets, wait sets and places in the queues. |
| Resolution.CleanUpKeepsOwnersIff | src/strategy1.cpp:961-970 | The shadow clean-up does so iff its locks cover everything the victim owns. |
| Resolution.FindLocksInDeadlock | src/detection.cpp:54-78 | Exactly the locks owned by an entry and awaited by the next entry, each once. |
| NamedLocks.NamedIffAdjacent | src/detection.cpp:58-73 | Named are the locks owned by an entry and awaited by the next, or owned by the last and awaited by the first. |
| NamedLocks.OnlyTheWrapNames | src/detection.cpp:58-73 | A report for which the last-to-first pair alone names a lock. |
| NamedLocks.NamedLockMeansWaitBack | src/detection.cpp:58-73 | In every run without clean-ups such a lock means that the next entry waits for this one, against the report, or that this one acquired something since. |
| Reports.ReportKeepsOwnersIff | src/detection.cpp:633-656 | Handling a new report with a live victim keeps ownership consistent iff every lock the victim owns is named for the report or the emergency break is taken. |
| Rings.RingRunLosesOwner | src/detection.cpp:564-660 | In every run of nine given stops three threads that share a lock deadlock in a ring, one report is counted, and ownership, consistent before, is lost, whichever rotation was found. |
| Latency.NeverSelfEdge | src/monitoring.cpp:72-77 | No run, clean-ups included, ever makes a thread wait for itself. |
| Latency.VictimFreed | src/strategy1.cpp:961-962 | Either resolver leaves the victim on no wait cycle and creates no new cycle. |
| Upstream.CycleSurvivesIff | src/detection.cpp:633-656 | The simple cycle in a new report is there after its handling iff the thread whose entry was erased is not on it. |
| Upstream.CycleOutlivesIff | src/strategy1.cpp:791-807 | With readable names: iff some thread listed before the cycle is alive, or nobody listed is. |
| Upstream.VictimUpstream | src/detection.cpp:611-659 | In every run of eight given stops whose last scan starts at a thread upstream of the cycle, that thread is taken out, the record says resolved, and the graph is cyclic still. |
| Latency.NewEdgeCycles | src/monitoring.cpp:72-77 | A new edge makes an acyclic graph cyclic iff its target already reached its source, and then every cycle uses it. |
| Latency.TurnsCyclicIff | src/monitoring.cpp:49-77 | One event or clean-up turns an acyclic graph cyclic iff it is a wait that closes a cycle. |
| Latency.ZeroLatency | src/monitoring.cpp:72-77 | Over every run with clean-ups, a cyclic graph has been cyclic since one wait whose owner already reached the waiter, and every cycle then used that edge. |
| Traces.RunsAreTraced | src/main.cpp:38-49 | Over every run of the tracer, the tables after each stop, and those its detection faces, are the outcome of exactly the events so far with clean-ups and breaks in between. |
| Traces.TracedStates | src/main.cpp:128-154 | In all such tables: no self edges; the short chains are the simple cycles of two or three threads; without shared locks the two verdicts agree; a cycle arose in one wait. |
| Traces.Trace | src/main.cpp:128-154 | Any list of stops, handled one after the other from the constructor on under any orders, is such a run, and all of this holds at its end. |
| Traces.EveryStopCoversAll | src/main.cpp:38-49 | Over every run with readable names and monitoring on, each stop switches monitoring off at a group cycle, or finds reports whose heads are exactly the threads that can reach a cycle, and handles all of them in turn. |
| Traces.EveryDeadlockIsAnswered | src/main.cpp:38-49 | Over every run with readable names, a stop that leaves a wait cycle while monitoring is on counts a deadlock, unless a complete list of reports of this graph is on record, and then it changes nothing else. |
| Traces.RunKeepsOwners | src/strategy1.cpp:998-1025 | Over every run in which no shadow process can be forked, whoever owns a lock has it listed. |
| Latency.OwnersListedOverRuns | src/strategy1.cpp:961-1018 | Owners have their locks listed after every run of events, emergency breaks and clean-ups whose locks cover what the victim owns. |
| Reports.HandleReport | src/detection.cpp:623-656 | The whole new state after one report: a known one changes nothing; a new one is counted, resolved by clean-up, break or neither, and recorded with its named locks; a throw leaves only the count and monitoring off. |
| Reports.NewRecordIs | src/detection.cpp:633-656 | A new report is counted once and recorded with that number and its named locks, as resolved iff somebody listed is alive; with nobody alive the tables stay. |
| Reports.NewReportTakesOnly | src/detection.cpp:643-653 | With a live victim, exactly its named locks lose their owner if the shadow process runs, and all its locks otherwise; everybody else keeps everything. |
| Reports.ReplayGrowsIff | src/detection.cpp:624-656 | Handling any list of reports in turn raises the counter iff one of them was not on record before; otherwise nothing changes. |
| Reports.NamedIff | src/helpers.cpp:64-67 | An identifier is named iff its name has no '[' or what follows its first '[' reads as the tid. |
| Reports.StepKeepsNames | src/monitoring.cpp:61-77 | Events by threads with readable names leave only readable names in the tables. |
| Scans.ScanAndResolve | src/detection.cpp:611-659 | The reports found are those of one pass over the initial graph, the first starts at the first root that can reach a cycle, there are none iff the graph is acyclic; the final state is what handling them in turn makes of the initial one; unless an exception cuts it short, the heads are exactly the threads that could reach a cycle, whatever was counted, provided no unlisted thread lost its entry, and whoever still can reach one is covered in any case; known reports laid out by the order are the ones found. |
| Detection.NamedScanCoversAll | src/detection.cpp:611-659 | With readable names the heads of the reports of a scan that erases as it goes are exactly the threads that could reach a cycle at its start. |
| Silence.DefusedIsNotKnown | src/detection.cpp:624-630 | While every recorded report has a thread that waits for nobody, no report of a present cycle is on record. |
| Silence.SilenceIff | src/detection.cpp:611-659 | Some order of the wait entries and their targets leaves the scan silent iff a complete list of reports is on record; otherwise every order counts a deadlock. |
| Silence.DefusedIsIncomplete | src/detection.cpp:624-630 | While every record has a thread that waits for nobody, no complete list of a cyclic graph is on record. |
| Detection.SilentCallIff | src/detection.cpp:564-660 | The same for a whole call whose group graph is acyclic: the condition is on the state before the call, and the group verdict does not depend on the order varied. |
| Quotients.GroupVerdictIgnoresWaiters | src/detection.cpp:144-150 | Whether the group graph is cyclic depends on the order of the lock holders at most. |
| Detection.DetectAndResolveDeadlocks | src/detection.cpp:564-660 | Inactive: nothing. Group cycle: one count and monitoring off. Otherwise the scan above. Only unreadable names make it throw; with a live thread in each new report it changes nothing, or switches off, or counts and takes an entry out of the graph, and it keeps defused records defused. |
| Detection.HandleEvent | src/main.cpp:38-49 | The recorded event is scanned at once. With readable names: a group cycle switches monitoring off; otherwise the reports found cover exactly the doomed threads, a deadlock is counted and recorded if no complete list is on record, and iff some found report was not; if not, nothing changes. |
| Recurrence.RingHandled | src/detection.cpp:611-659 | A scan of a ring of two finds one report, from the first root on, and handles it. |
| Recurrence.SecondTime | src/detection.cpp:624-632 | With that report on record the call changes nothing if the scan starts at the same thread, and counts a deadlock if it starts at the other. |
| Recurrence.FormsTwice | src/main.cpp:38-49 | In every run of ten given stops whose sixth finds the ring from one thread, it is cleaned up and recorded once; when it forms again the last stop leaves the two threads deadlocked and unreported, or reports, by the first root. |
| Convergence.ReportsAreBounded | src/detection.cpp:564-660 | Over every quiet run, silent calls on recorded cycles included, the number of reporting calls is at most the number of wait entries plus one. |
| Convergence.ComesToRest | src/detection.cpp:564-660 | After at most one more quiet call than there are wait entries, monitoring is off or a complete list of reports is on record. |
| Convergence.RestIsOver | src/detection.cpp:564-660 | With defused records that means that monitoring is off or the graph is acyclic. |
| Convergence.StaysOver | src/detection.cpp:564-660 | A quiet run in which monitoring is off or the graph is acyclic stays so. |
| Convergence.RunQuietly | src/main.cpp:128-154 | Any number of detection calls without new events, under any orders and whatever is on record: at most one more call than there were wait entries reports, and within that many the detector is at rest, if every new report lists a live thread, in particular if every thread that waits at the start stays alive; with defused records the graph is acyclic or monitoring off at the end. |
| ProcessMemory.Process.ReadProcessMemory | src/helpers.cpp:76-102 | Succeeds iff every touched word is mapped in full; then the buffer holds exactly the bytes asked for and nothing beyond changes. |
| ProcessMemory.Process.WriteProcessMemory | src/helpers.cpp:131-158 | Succeeds iff every touched word can be poked; then exactly the bytes of the range change; a failed write has changed a prefix of whole words up to the first refusing word. |
| ProcessMemory.Process.WriteThenRead | src/helpers.cpp:76-158 | A read that follows a successful write succeeds, fills the buffer with exactly what was written and leaves its rest alone. |
| Identifiers.ExtractOfIdentifier | src/helpers.cpp:228-236 | What reading an identifier back yields, for every name and tid, wrapped substring lengths included. |
| Identifiers.StoiReads | src/helpers.cpp:228-236 | The reader of numbers takes white space, one sign, digits and ignores the rest; it throws without a digit and outside the range of an int. |
| Identifiers.ValueStep | src/helpers.cpp:228-236 | Digits count in tens. |
| Identifiers.PrintedDigits | src/helpers.cpp:64-67 | Numbers are printed in digits without leading zeros, negative ones behind a minus sign. |
| Identifiers.RoundTripExactly | src/helpers.cpp:64-67 | The tid comes back iff the name has no '[' or the text after its first '[' reads as that tid. |
| Identifiers.BracketedNamesMisread | src/helpers.cpp:228-236 | A whole family of names reads back as another tid, another makes the reader throw. |
| Identifiers.IdentifierInjective | src/helpers.cpp:64-67 | Identifiers of distinct tids are distinct, whatever the names contain. |
| Identifiers.ThreadNames.GetThreadName | src/helpers.cpp:18-62 | A cached name is returned unchanged; otherwise the thread's own file, then the task file if a target is set, then `thread-` and the tid, the first that is not empty, and it is cached. |
| Identifiers.StrippedKeepsOrder | src/helpers.cpp:34-38 | Of a name read from a file exactly the line ends are dropped; all other characters stay in order. |
| Identifiers.ThreadNames.Identify | src/helpers.cpp:64-67 | The identifier differs from that of every other known tid and no cached name changes. |

## Left out

- Process control: ptrace, fork, waitpid, signals, sleeps, `/proc` reads and the futex unlocker; only their answers (`World`) and their writes to the tables and flags are modelled.
- Detection.ResolveGroupDeadlock: only the switch-off of monitoring and the return value of `resolve_group_deadlock`; its work on the process has no effect on the tables.
- Scans.ScanAndResolve: erasing from `waits_for` while iterating over it invalidates the C++ iterator; the model iterates over a snapshot of the keys instead.
- Convergence.RunQuietly: its bounds speak of calls with every name readable and a live thread in each new report; without a live thread nothing is erased and the same graph is scanned again.
- Detection.HandleEvent: the liveness test before the handler is taken as passed.
- RootCycles.FindCyclePerRoot: holds for every graph; building the group graph for the printout, intra-group edges included, is not repeated.
- ProcessMemory.Process.WriteProcessMemory: addresses are unbounded; a range that would wrap around at 2^64 leaves the mapped user space first.
- Identifiers.ExtractOfIdentifier: names are shorter than 2^63, as every `std::string` is.
- Thread names as the tables see them come from a fixed function of the tid; the `/proc` files behind the first answer are parameters of `ThreadNames`.
- Time: detection times, wait start times, average waits; printing, colours and logs.
- `print_conflict_groups`, `debug_wait_for_graph` and the other reports on the console.
- `analyze_lock_dependency_graph` apart from its cycle search.
- Snapshots, memory duplication and the older shadow-process path (`cleanup_parent_process`, `monitor_shadow_process`), which the live resolution path does not take.
