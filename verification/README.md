# Verified models of the Nüwa tool chain

Dafny models of the scheduling, traversal and bookkeeping code around the Nüwa simulator, with proofs of
what that code is relied on for. `dafny verify dfyconfig.toml` checks the whole project.

| file | models | main results |
|---|---|---|
| TestPool.dfy | the worker pool of `test.py` | every interleaving, worker count and interrupt point: no deadlock, bounded runs, no job lost or doubled, same report as a sequential run |
| DependencyOrder.dfy | the layered dependency sort of the Python bindings | steps are longest-chain layers in listing order; terminates iff the map is closed and acyclic |
| ConfigPaths.dfy | the configuration-path search of the documentation generator | one entry per walk without repetition, in preorder, both stacks restored |
| Orchestrator.dfy | the experiment scheduler of `exp.py` | what a pass does, safety over whole runs, progress, and exactly when it gets stuck |
| LineReassembly.dfy | the two stream splitters of `exp.py` | result independent of the chunks |
| BenchEngine.dfy | the scheduler benchmark | event population kept and run in order of time; Welford's recurrences give mean and squared deviations |
| ProcessTree.dfy | the memory sum of the sweep script | exactly the reachable processes, each once |
| SweepSummary.dfy | the sweep's summary file and the rows made back from it | what every summary row holds and their order; fixpoint, with its exact condition |
| SweepResume.dfy | resuming the sweep | what an invocation leaves in the file, under every policy and cut; safety of any sequence of them; exactly what counts as complete, whatever routings are reported |
| SweepRecovery.dfy | resuming from the summary alone | exactly which repetitions count as complete |
| StyleFixer.dfy | the line-style fixer | fixes last, for any line check that keeps guards; tabs and whitespace do |
| Ordering.dfy, Lines.dfy, Means.dfy, Options.dfy | listings and sorting, line splitting, averages, shared by the above | sorting is stable and canonical; splitting is exact |

State that the source updates in place is a class whose methods are proved equal to a step of a specification
function; the theorems are lemmas about runs of those steps. What the specification functions compute is said a second
time without them, in characters, places, counts and running sums: `ReportExact`, `FlatInLoadOrder`, `PathSpells`,
`PassExact`, `FoldTrace`, `StatisticsMeaning`, `SumMeaning`, `SummaryExact`, `InvocationExact`, `ExpandsExactly`.
Assumptions are parameters: what a job returns, when a process ends, whether memory suffices for a start, what a line
parser does, how far Python may recurse.

Results where the code does less than its text suggests:

- `exp.py` says a failed or guarded start is retried later. Cores are offered only in the pass in which their
  process ends, so when the last running process ends while memory is short the rest waits for good
  (`GuardedRestartIsNeverRetried`). `PassGetsStuck` and `DispatchGetsStuck` give the exact conditions for one
  pass, and `FinishesExactly` for a whole run.
- The sweep records the routing a program reports but looks for the routing it asked for. A case that is
  not complete yet and whose key no successful run reports is run by every invocation that gets to it
  (`MisreportedRoutingReruns`); a case that has failed is skipped for good once a case that differs from it in
  the routing only has succeeded and reported its routing (`NeverSucceededYetComplete`). `RunsAgainExactly` and
  `FailedCaseCompletes` give the exact conditions, and `InvocationCompletes` and `SequenceCompletes` say which cases
  count as complete in general.
- With the run file lost, the summary stands for repetitions 1 up to its repeat count, whichever repetitions
  succeeded (`WrongRepetition`); `RecoveryFaithful` says exactly when that is right.
- A last line ended by a boundary other than a newline reaches the metric parser without that terminator
  (`LinesOfMeaning`); `LinesOfUsual` says exactly when this happens.
- Expanding a tab can produce a formatting guard (`FixCanDisable`); `TabFixKeepsRegions` says, on the
  characters of the unfixed lines, exactly when that changes the guarded regions; `FixSettles` holds
  nevertheless.

## Model

| member | source | states |
|---|---|---|
| TestPool.TallyMeaning | Nvwa/test.py:1959-1995 | each of the five counters equals the number of collected jobs of its status, each name list is those jobs' labels in collection order, and counters plus interrupted jobs make up everything collected |
| TestPool.NamesOfEmpty | Nvwa/test.py:1959-1995 | a status list is empty exactly when no collected job has that status |
| TestPool.ExitCodeMeaning | Nvwa/test.py:2234-2237 | the exit code is 0 exactly when every collected job passed or was skipped; interrupted jobs spoil it |
| TestPool.StepKeeps | Nvwa/test.py:1087-1171 | every step of the main thread or a worker, and an interrupt at any moment, keeps the invariant: each dispatched job in exactly one place, pills behind jobs, live workers equal to pills queued plus pills to come, results those of the outcome function unless interrupted |
| TestPool.StepDecreases | Nvwa/test.py:1087-1171 | every step, an interrupt included, lowers an explicit measure |
| TestPool.Progress | Nvwa/test.py:1936-1960 | with at least one worker no reachable state short of the end is a deadlock: some step other than an interrupt can be taken |
| TestPool.RunInvariant | Nvwa/test.py:1623-1626 | the invariant holds in every state of every interleaving, for every number of workers |
| TestPool.RunsFinish | Nvwa/test.py:2124-2125 | every run has at most 5 jobs + 3 workers + 1 steps, and one that can go no further has collected every result and joined every thread |
| TestPool.InterruptStopsWork | Nvwa/test.py:1094-1105 | after the flag is up no worker begins a command: whatever runs later was running when it rose |
| TestPool.InterruptFlagsTheRest | Nvwa/test.py:1100-1171 | results are collected in the order handed back, and after an interrupt whatever comes back carries the break flag, unless its command was running when the flag went up |
| TestPool.FinishedConserves | Nvwa/test.py:1959-1960 | at the end both queues are empty, all workers have returned, and the collected jobs are the dispatched ones, each exactly once, a job flagged `is_break` never taken for a pill |
| TestPool.FinishedTally | Nvwa/test.py:1959-1995 | at the end the five counters and the interrupted jobs add up to `total_tests`; the result is 0 iff every job passed or was skipped uninterrupted |
| TestPool.ReportPerm | Nvwa/test.py:2154-2165 | two collections of the same jobs in different order give the same counters, sorted lists and exit code, and these are what the flags and return codes in either say |
| TestPool.ReportExact | Nvwa/test.py:1959-1995 | the report made from the counters and lists is the report on the collected jobs: counts of flags and return codes, each list in text order with exactly the names that belong to it, the exit code |
| TestPool.SequentialReports | Nvwa/test.py:1961-1995 | reporting on the results of the sequential run is reporting on the skip flags and return codes of the jobs dispatched |
| TestPool.ParallelRefinesSequential | Nvwa/test.py:1087-1171 | without an interrupt, every interleaving of any number of workers reports what running the jobs in dispatch order reports: each count is the number of jobs that are skipped or return that code, each list has exactly their names, in text order |
| TestPool.RunReports | Nvwa/test.py:1959-1995 | the three results above for any completed run, stated on the run itself, with the report spelled out by flags, return codes and names |
| TestPool.TakenInOrder | Nvwa/test.py:1088-1094 | workers take jobs in the order of dispatch: those taken so far are always the first of the list |
| TestPool.TestRunner.constructor | Nvwa/test.py:1623-1636 | empty queues, idle workers, nothing counted |
| TestPool.TestRunner.DispatchNext | Nvwa/test.py:1928-1930 | one job enters the queue and both job counts go up |
| TestPool.TestRunner.PutBreak | Nvwa/test.py:1936-1939 | one pill enters the queue |
| TestPool.TestRunner.WorkerGet | Nvwa/test.py:1088-1094 | takes the oldest entry; a break job ends the worker, whatever made it one |
| TestPool.TestRunner.WorkerCheck | Nvwa/test.py:1100-1114 | interrupt flag first, then the skip flag; otherwise the command starts |
| TestPool.TestRunner.WorkerFinish | Nvwa/test.py:1126-1171 | the job goes to the output with its return code set |
| TestPool.TestRunner.SigintHook | Nvwa/test.py:642-645 | raises the flag and nothing else |
| TestPool.TestRunner.CollectNext | Nvwa/test.py:1959-1962 | one result leaves the output and is tallied |
| TestPool.TestRunner.RecordResult | Nvwa/test.py:1961-1995 | the counter and list of exactly one status change, none for an interrupted job |
| TestPool.TestRunner.JoinNext | Nvwa/test.py:2124-2125 | the next thread is joined once it has returned |
| TestPool.TestRunner.Perform | Nvwa/test.py:1087-1171 | the code's steps are the protocol's steps |
| TestPool.TestRunner.ScheduleNext | Nvwa/test.py:1087-1171 | an arbitrary scheduler's next step keeps the invariant and lowers the measure |
| TestPool.TestRunner.SomeStep | Nvwa/test.py:1936-1960 | finds a step that is enabled, before the end |
| TestPool.TestRunner.RunToEnd | Nvwa/test.py:1623-1960 | every schedule is run to the end, where the invariant holds |
| TestPool.TestRunner.PrintSummary | Nvwa/test.py:2142-2237 | the four name lists are sorted in place and the counters and exit code are those of the run |
| TestPool.TestRunner.RunTests | Nvwa/test.py:1636-2237 | a whole run under any scheduler ends, has collected every dispatched job once, returns 0 iff all passed or were skipped, and reports, count by count and list by list, what the collected jobs' flags and return codes say; when not interrupted, what the jobs return |
| Ordering.SortCorrect | Nvwa/test.py:2154-2165 | sorting gives a sorted rearrangement, for any total preorder |
| Ordering.SortStable | scripts/run_topology_ring_allreduce_stats.py:434 | sorting is stable: the elements that compare equal to any one are the same list before and after |
| Ordering.SortKeepsOrder | scripts/run_topology_ring_allreduce_stats.py:434 | of two elements that compare equal, such as summary keys that differ in the topology only, the one that comes first after sorting came first before |
| Ordering.SortSorted | scripts/run_topology_ring_allreduce_stats.py:434 | a list already in order is unchanged by sorting |
| Ordering.SortCanonical | Nvwa/test.py:2154-2165 | the sorted list depends only on the multiset sorted |
| Ordering.StringOrder | Nvwa/test.py:2154-2165 | comparing strings code point by code point is a total order |
| Ordering.StringLeqMeaning | Nvwa/test.py:2154-2165 | a text comes before another iff it is the start of it or has the smaller character at the first difference |
| DependencyOrder.BoundedStep | Nvwa/bindings/python/ns__init__.py:444-455 | a module's chains have at most k + 1 modules exactly when its dependencies' chains have at most k |
| DependencyOrder.LayerIsLeastBound | Nvwa/bindings/python/ns__init__.py:457-472 | the longest chain from a module has k + 1 modules exactly when k + 1 bounds its chains and k does not |
| DependencyOrder.BoundedIffClosedAcyclic | Nvwa/bindings/python/ns__init__.py:457-472 | the chains have a common bound iff the dependency map is closed and acyclic |
| DependencyOrder.LoadableIsLayer | Nvwa/bindings/python/ns__init__.py:444-455 | after k steps the loadable modules are exactly those whose longest chain has k + 1 modules, in listing order |
| DependencyOrder.NextStep | Nvwa/bindings/python/ns__init__.py:462-469 | from the state after k steps the loadable modules lead to the state after k + 1 |
| DependencyOrder.StuckForever | Nvwa/bindings/python/ns__init__.py:457-472 | once a step loads nothing, no later step loads anything and the pending list never changes |
| DependencyOrder.StuckNeverFinishes | Nvwa/bindings/python/ns__init__.py:457-472 | modules pending at such a step are never loaded, under any number of calls |
| DependencyOrder.SomethingLoadable | Nvwa/bindings/python/ns__init__.py:444-455 | in a closed acyclic map a non-empty pending list always has a loadable module |
| DependencyOrder.FlatConserves | Nvwa/bindings/python/ns__init__.py:464-469 | after any number of steps loaded and pending modules together are the module list |
| DependencyOrder.FlatOrdered | Nvwa/bindings/python/ns__init__.py:474-479 | in the flattened order every module comes after all its dependencies |
| DependencyOrder.LayerInOrder | Nvwa/bindings/python/ns__init__.py:446-455 | the modules of a step keep the order of the listing |
| DependencyOrder.FlatInLoadOrder | Nvwa/bindings/python/ns__init__.py:474-479 | of any two modules in the flattened order the first has the shorter longest chain, or an equal one and the earlier place in the listing |
| DependencyOrder.FlatIsTopologicalOrder | Nvwa/bindings/python/ns__init__.py:474-479 | when nothing is pending the flattened order is a rearrangement of the module list with every module after its dependencies, by longest chain and, among equals, in listing order |
| DependencyOrder.StepIsLongestChain | Nvwa/bindings/python/ns__init__.py:457-479 | each module appears in exactly one step, step k where its longest chain has k edges |
| DependencyOrder.TerminatesIffClosedAcyclic | Nvwa/bindings/python/ns__init__.py:457-472 | some recursion limit suffices iff the map is closed and acyclic |
| DependencyOrder.Sorter.constructor | Nvwa/bindings/python/ns__init__.py:474-477 | all modules pending, none loaded, no steps |
| DependencyOrder.Sorter.ModulesThatCanBeLoaded | Nvwa/bindings/python/ns__init__.py:444-455 | the flag loop returns exactly the pending modules all of whose dependencies are loaded, in order |
| DependencyOrder.Sorter.RecordStep | Nvwa/bindings/python/ns__init__.py:464-469 | the modules are appended to the step and to the loaded list and removed from the pending list, the rest of which keeps its order |
| DependencyOrder.Sorter.LoadStep | Nvwa/bindings/python/ns__init__.py:462-469 | one more step, equal to the next layer |
| DependencyOrder.Sorter.Order | Nvwa/bindings/python/ns__init__.py:457-472 | with n more calls allowed it succeeds iff every chain is shorter than the steps taken plus n; success leaves nothing pending |
| DependencyOrder.Sorter.SortToDependencies | Nvwa/bindings/python/ns__init__.py:474-479 | success iff the recursion limit exceeds every chain; the result is a rearrangement with dependencies first, by longest chain and then by listing order |
| ConfigPaths.EdgesMeaning | Nvwa/utils/print-introspected-doxygen.cc:447-521 | the search moves along pointer attributes except to `Object`, container attributes, subtypes and aggregations in either direction, with these path segments, and along nothing else |
| ConfigPaths.EdgesInOrder | Nvwa/utils/print-introspected-doxygen.cc:447-521 | the edges are tried in order and each once: along the attributes in order, to the subtypes in registration order, along the aggregations in order |
| ConfigPaths.GraphIsValid | Nvwa/utils/print-introspected-doxygen.cc:447-521 | edges lead to registered types only |
| ConfigPaths.SimpleStep | Nvwa/utils/print-introspected-doxygen.cc:442-445 | a walk repeats no type and avoids the stack iff its first type is not on the stack and the rest does so with that type pushed |
| ConfigPaths.WalksExact | Nvwa/utils/print-introspected-doxygen.cc:438-522 | soundness and completeness: the walks followed are exactly those that repeat no type |
| ConfigPaths.WalksInOrder | Nvwa/utils/print-introspected-doxygen.cc:438-522 | walks are followed in strict depth-first preorder, so none twice |
| ConfigPaths.BeforeIrreflexive | Nvwa/utils/print-introspected-doxygen.cc:438-522 | the preorder is strict: no walk comes before itself |
| ConfigPaths.PathSpells | Nvwa/utils/print-introspected-doxygen.cc:351-361 | a text is the path of a list of segments iff it is as long as they and one slash each, with a slash at each offset and the segment behind it |
| ConfigPaths.RouteIsWalked | Nvwa/utils/print-introspected-doxygen.cc:438-522 | every sequence of types and segments joined by edges is that of some walk |
| ConfigPaths.EndIsLast | Nvwa/utils/print-introspected-doxygen.cc:363-368 | a walk's entry is recorded for the last type it visits; the types it visits are joined, one after the other, by edges with its segments |
| ConfigPaths.SearchExact | Nvwa/utils/print-introspected-doxygen.cc:438-522 | from the empty stack: one entry per walk from the root that repeats no type, distinct walks in preorder, each entry the walk's end and the characters that spell its segments |
| ConfigPaths.PathsOfMembers | Nvwa/utils/print-introspected-doxygen.cc:384-397 | the paths returned for a type are exactly those recorded for it |
| ConfigPaths.PathsOfInOrder | Nvwa/utils/print-introspected-doxygen.cc:384-397 | in the order of recording, each as often as it was recorded |
| ConfigPaths.PathsExact | Nvwa/utils/print-introspected-doxygen.cc:384-397 | after a search from a root, a path is returned for a type iff it spells, character by character, some route from the root to the type that passes no type twice |
| ConfigPaths.StaticInformation.constructor | Nvwa/utils/print-introspected-doxygen.cc:295-315 | empty output and empty stacks |
| ConfigPaths.StaticInformation.GetCurrentPath | Nvwa/utils/print-introspected-doxygen.cc:351-361 | the path has a slash before every segment and nothing else |
| ConfigPaths.StaticInformation.RecordOutput | Nvwa/utils/print-introspected-doxygen.cc:363-368 | one entry for the type with the current path, spelled so, is appended |
| ConfigPaths.StaticInformation.HasAlreadyBeenProcessed | Nvwa/utils/print-introspected-doxygen.cc:370-382 | true iff the type is on the stack |
| ConfigPaths.StaticInformation.Get | Nvwa/utils/print-introspected-doxygen.cc:384-397 | the recorded paths of the type, in order of recording |
| ConfigPaths.StaticInformation.Gather | Nvwa/utils/print-introspected-doxygen.cc:430-436 | the search, with the sorted copy without effect |
| ConfigPaths.StaticInformation.DoGather | Nvwa/utils/print-introspected-doxygen.cc:438-522 | terminates on any type graph, restores both stacks, appends exactly the entries of the walks without repetition |
| ConfigPaths.StaticInformation.GatherAttributes | Nvwa/utils/print-introspected-doxygen.cc:447-487 | the attribute loop follows the attribute edges, in order |
| ConfigPaths.StaticInformation.GatherAttribute | Nvwa/utils/print-introspected-doxygen.cc:449-486 | one attribute: skipped, or followed as pointer or container |
| ConfigPaths.StaticInformation.GatherChildren | Nvwa/utils/print-introspected-doxygen.cc:488-500 | the loop over registered types follows the subtypes |
| ConfigPaths.StaticInformation.GatherChild | Nvwa/utils/print-introspected-doxygen.cc:490-499 | one registered type: followed iff it is a subtype |
| ConfigPaths.StaticInformation.GatherAggregates | Nvwa/utils/print-introspected-doxygen.cc:501-521 | the loop over aggregations follows those that mention the type |
| ConfigPaths.StaticInformation.GatherAggregate | Nvwa/utils/print-introspected-doxygen.cc:503-520 | one aggregation: the other end is followed; for a self-aggregation the second test decides |
| ConfigPaths.StaticInformation.Descend | Nvwa/utils/print-introspected-doxygen.cc:467-471 | push, recurse, pop leaves both stacks as they were and adds the entries found from the target with the longer path |
| ConfigPaths.StaticInformation.Follow | Nvwa/utils/print-introspected-doxygen.cc:467-471 | at each of the four places it adds one edge's entries |
| Orchestrator.SortedSetExact | Nvwa/exp.py:321 | sorted, without repetition, and the same members |
| Orchestrator.ParseCores | Nvwa/exp.py:313-321 | strictly increasing cores, exactly those named by the parts |
| Orchestrator.TryStartKeeps | Nvwa/exp.py:695-732 | an attempt, successful, guarded or failed, on a free core keeps the invariant |
| Orchestrator.StartOnKeeps | Nvwa/exp.py:735-737 | so does a round of attempts on distinct free cores, which leaves running processes and rows alone |
| Orchestrator.ReapKeeps | Nvwa/exp.py:745-823 | recording and dropping the ended processes keeps the invariant: one row per experiment ended |
| Orchestrator.PassKeeps | Nvwa/exp.py:742-840 | a pass keeps the invariant, never has more processes running afterwards, leaves the rest running in order, and adds exactly the rows of the ended processes |
| Orchestrator.StartOnLaunches | Nvwa/exp.py:735-737 | a round of starts launches the first waiting experiments on the first cores on which a start succeeds, as many as there are of both |
| Orchestrator.PassExact | Nvwa/exp.py:742-840 | a pass, field by field: what has not ended goes on in order, each ended process gets its row with its experiment, core and code, and unless memory is short the waiting experiments start, in order, on those freed cores on which a start succeeds, as many as there are of both |
| Orchestrator.FreedCoresUsed | Nvwa/exp.py:832-840 | a freed core on which a start succeeds is busy after the pass, or nothing waits |
| Orchestrator.RunSafe | Nvwa/exp.py:734-840 | in every state of every run start order plus waiting list is the input, each experiment is waiting, running or has one row, and no core holds two processes; the number running never exceeds that of the initial dispatch |
| Orchestrator.Counted | Nvwa/exp.py:742-820 | rows, running and waiting experiments add up to the input |
| Orchestrator.Absorbing | Nvwa/exp.py:742-840 | with nothing running a pass changes nothing, whatever the machine does |
| Orchestrator.StuckForever | Nvwa/exp.py:742-744 | waiting work with nothing running stays so for every number of passes |
| Orchestrator.StartOnAdds | Nvwa/exp.py:735-737 | a round of attempts starts something iff something waits and some attempt succeeds |
| Orchestrator.PassGetsStuck | Nvwa/exp.py:825-840 | a pass gets stuck iff work is left, everything running ends in that pass, and the memory guard holds the restart back or no restart succeeds |
| Orchestrator.GetsStuck | Nvwa/exp.py:742-840 | a run is stuck after some number of passes iff it began stuck or one of those passes was such a pass |
| Orchestrator.DispatchGetsStuck | Nvwa/exp.py:734-737 | the initial dispatch is stuck iff there is work and no first start succeeds |
| Orchestrator.GuardedRestartIsNeverRetried | Nvwa/exp.py:825-830 | counterexample to the announced retry: one core, two experiments and too little memory when the first ends leave the second waiting for good |
| Orchestrator.AfterKeeps | Nvwa/exp.py:742-840 | when every start succeeds the loop never gets stuck |
| Orchestrator.NextRow | Nvwa/exp.py:755-820 | in every run, whatever starts fail: a process that has ended by some pass has its row then |
| Orchestrator.RunsOn | Nvwa/exp.py:745-757 | a process that does not end keeps running, whatever else happens |
| Orchestrator.FinishesExactly | Nvwa/exp.py:742-840 | whole runs, with no assumption on starts or the guard: the loop is left iff every process ends and no pass ends all that runs while work is left and restarts none of it |
| Orchestrator.LeftIsDone | Nvwa/exp.py:742-820 | when the loop is left, every experiment of the input has exactly one row |
| Orchestrator.Finishes | Nvwa/exp.py:742-840 | in particular, when every start succeeds and every process ends, it is left with one row for every experiment |
| Orchestrator.WorkerCoresExact | Nvwa/exp.py:652-654 | the workers are the first cores of the list: as many as a positive `max_parallel`, or all of them |
| Orchestrator.Orchestration.constructor | Nvwa/exp.py:646-654 | everything waits |
| Orchestrator.Orchestration.TryStartNextOn | Nvwa/exp.py:695-732 | guard, pop, start or put back at the front; true iff started |
| Orchestrator.Orchestration.InitialDispatch | Nvwa/exp.py:734-737 | every worker core is tried once, failures do not stop the round |
| Orchestrator.Orchestration.RecordEnded | Nvwa/exp.py:743-820 | a row for each ended process in dictionary order, and their cores |
| Orchestrator.Orchestration.RemoveCores | Nvwa/exp.py:822-823 | exactly the named cores leave the dictionary |
| Orchestrator.Orchestration.Restart | Nvwa/exp.py:832-840 | the freed cores are tried in order until nothing waits |
| Orchestrator.Orchestration.LivePass | Nvwa/exp.py:742-840 | the body of the live loop is one pass of the model |
| Orchestrator.Orchestration.LiveLoop | Nvwa/exp.py:742-840 | the loop, watched for any number of passes, is in the state of the model, keeps the invariant, and stops exactly when nothing runs or waits |
| Orchestrator.Orchestration.Orchestrate | Nvwa/exp.py:652-840 | the same from the initial dispatch on, for any cores and limit; never more running than the cores or a positive `max_parallel` |
| Lines.SplitExact | Nvwa/exp.py:633 | splitting loses nothing, cuts at boundaries only, and only the last line may lack one, for any set of boundaries |
| Lines.SplitConcat | Nvwa/exp.py:633 | text that ends at a boundary can be split on its own |
| LineReassembly.PlainLines | Nvwa/exp.py:633 | text of printable ASCII, tabs and newlines is cut after each newline and nowhere else |
| LineReassembly.CompleteAndHold | Nvwa/exp.py:634-638 | the lines passed on and the text held back make up the text read; what is held is one line not ended by a newline |
| LineReassembly.OneChunk | Nvwa/exp.py:631-638 | splitting buffer plus chunk continues the splitting of the whole text: same lines, same text held |
| LineReassembly.FoldConcat | Nvwa/exp.py:641-643 | the metric fold over two batches of lines is one fold over both |
| LineReassembly.FoldTrace | Nvwa/exp.py:641-643 | the fold hands the metrics from line to line, first to last |
| LineReassembly.ChompExact | Nvwa/exp.py:761-763 | of a leftover line only the boundary at its end is taken away |
| LineReassembly.LinesOfMeaning | Nvwa/exp.py:757-766 | the lines parsed from a whole output are its lines, the last without its terminator if that is a boundary other than a newline |
| LineReassembly.LinesOfUsual | Nvwa/exp.py:757-766 | they are exactly its lines iff it does not end in such a boundary |
| LineReassembly.Reader.PassOn | Nvwa/exp.py:641-643 | lines go to the log and the parser in order |
| LineReassembly.Reader.SplitBuffer | Nvwa/exp.py:631-638 | the lines completed by the chunk, and the rest in the buffer |
| LineReassembly.Reader.DrainStdout | Nvwa/exp.py:622-644 | log plus buffer is the text read so far and the metrics are the fold over the lines passed on, after any chunk |
| LineReassembly.LeftoverLines | Nvwa/exp.py:757-766 | parsing the lines passed on and then those left over is parsing the lines of the whole output |
| LineReassembly.Reader.FlushLeftover | Nvwa/exp.py:757-766 | afterwards the log is the whole text and the metrics are one fold over its lines |
| LineReassembly.Reader.ReadAll | Nvwa/exp.py:622-644 | the log is the whole output and the metrics go through its lines one by one, however it is cut into chunks |
| LineReassembly.Reader.SplitBufferInline | Nvwa/exp.py:551-558 | the copy of the splitter in `run_one` meets the same contract on a non-empty chunk |
| LineReassembly.Reader.RunOneChunk | Nvwa/exp.py:547-562 | one round of its loop |
| LineReassembly.Reader.RunOne | Nvwa/exp.py:544-571 | `run_one` meets the specification of the other reader |
| BenchEngine.SomeNext | Nvwa/utils/bench-scheduler.cc:142 | a non-empty event queue has an earliest event |
| BenchEngine.Bench.constructor | Nvwa/utils/bench-scheduler.cc:115-119 | a population, a total, and a count of 0 |
| BenchEngine.Bench.Schedule | Nvwa/utils/bench-scheduler.cc:134-135 | one event more, due after the drawn delay |
| BenchEngine.Bench.Cb | Nvwa/utils/bench-scheduler.cc:151-164 | below the total: one event more and the count up by one; at the total: stop and nothing else |
| BenchEngine.Bench.TakeNext | Nvwa/utils/bench-scheduler.cc:142 | time advances to the earliest due time in the queue and one event due then leaves it |
| BenchEngine.Bench.Step | Nvwa/utils/bench-scheduler.cc:142-164 | between callbacks before the stop the queue holds exactly the population and the count is at most the total; a step runs the earliest event, replaces it by one due after the next delay unless the total was reached, and stops exactly then |
| BenchEngine.Bench.Populate | Nvwa/utils/bench-scheduler.cc:126-135 | one event per member of the population, due after the delays drawn one after the other |
| BenchEngine.Bench.Run | Nvwa/utils/bench-scheduler.cc:121-149 | with a non-empty population exactly total + 1 callbacks and `events == total`, with an empty one none; the queue starts with one drawn delay per event, every callback is the earliest due, and each of the first total uses up the next delay |
| BenchEngine.DeviationsExpand | Nvwa/utils/bench-scheduler.cc:333-359 | squared deviations from any point in terms of sum and sum of squares |
| BenchEngine.DeviationsNonNegative | Nvwa/utils/bench-scheduler.cc:361-368 | the second moment under the square root is not negative |
| BenchEngine.AboutMean | Nvwa/utils/bench-scheduler.cc:333-359 | about the mean they are the sum of squares less the mean's share |
| BenchEngine.AccumulateFirst | Nvwa/utils/bench-scheduler.cc:334-349 | the first sample overwrites whatever the average started at |
| BenchEngine.AccumulateNext | Nvwa/utils/bench-scheduler.cc:345-349 | Welford's step keeps average and moment2 the mean and the squared deviations from it |
| BenchEngine.SumsPerm | Nvwa/utils/bench-scheduler.cc:338-359 | sum and sum of squares do not depend on the order of the runs |
| BenchEngine.OrderIrrelevant | Nvwa/utils/bench-scheduler.cc:338-359 | runs in another order give the same averages and second moments, the latter not negative |
| BenchEngine.StatisticsMeaning | Nvwa/utils/bench-scheduler.cc:333-359 | the average times the number of runs is their running sum, and the moment the running sum of the squared distances from it |
| BenchEngine.SamplesExact | Nvwa/utils/bench-scheduler.cc:339-356 | the six columns are the six fields of each run |
| BenchEngine.Accumulate | Nvwa/utils/bench-scheduler.cc:345-349 | one use of the macro |
| BenchEngine.AccumulateAll | Nvwa/utils/bench-scheduler.cc:339-356 | one iteration does this for all six fields, each from its own column |
| BenchEngine.Log | Nvwa/utils/bench-scheduler.cc:319-359 | fewer than two runs print nothing; otherwise every average times the number of runs is the sum of its column, and every second moment the sum of squared distances from it |
| ProcessTree.ChildrenExact | scripts/run_topology_ring_allreduce_stats.py:94-112 | a process is listed under a parent iff some entry names that parent |
| ProcessTree.BuildMaps | scripts/run_topology_ring_allreduce_stats.py:94-112 | children in table order with repeats, and the memory of a process's last entry |
| ProcessTree.Visit | scripts/run_topology_ring_allreduce_stats.py:117-123 | one round of the worklist keeps everything seen or stacked reachable, and children of the seen seen or stacked |
| ProcessTree.ExploredAll | scripts/run_topology_ring_allreduce_stats.py:117-124 | with an empty stack the processes seen are exactly those reachable |
| ProcessTree.SumIndependent | scripts/run_topology_ring_allreduce_stats.py:122 | the sum is the same for every listing of the same processes |
| ProcessTree.RssOfMeaning | scripts/run_topology_ring_allreduce_stats.py:94-112 | a process counts what its last entry says, or nothing when it has none |
| ProcessTree.SumMeaning | scripts/run_topology_ring_allreduce_stats.py:122 | a listing adds up to the sum of these, one after the other |
| ProcessTree.ProcessTreeRssKb | scripts/run_topology_ring_allreduce_stats.py:93-124 | terminates on any table, cycles and repeats included, and returns the sum over exactly the reachable processes, each counted once, of what their last entries say |
| SweepSummary.KeysExact | scripts/run_topology_ring_allreduce_stats.py:424-428 | the groups are the keys of the successful rows, each once |
| SweepSummary.KeysInOrder | scripts/run_topology_ring_allreduce_stats.py:424-428 | the groups are in order of first appearance |
| SweepSummary.AddCells | scripts/run_topology_ring_allreduce_stats.py:429-431 | the row's non-blank cells, and no others, are appended to their columns |
| SweepSummary.Group | scripts/run_topology_ring_allreduce_stats.py:423-431 | every group holds its rows' non-blank values, column by column in row order |
| SweepSummary.Average | scripts/run_topology_ring_allreduce_stats.py:436-451 | the row of a group has a value in just the columns some successful row of the key fills: a value that, times the number of such cells, is their sum; the repeat count is the number of wall times |
| SweepSummary.WriteSummary | scripts/run_topology_ring_allreduce_stats.py:422-451 | one such row per successful key, in order of scale, routing, threads and data size, ties by first appearance |
| SweepSummary.SummaryExact | scripts/run_topology_ring_allreduce_stats.py:422-451 | said of the rows themselves: one summary row per successful key, by scale, routing in text order, threads and data size, keys that differ in the topology only by first appearance; each holds the means of the cells filled and the number of wall times |
| SweepSummary.SummaryKeysExact | scripts/run_topology_ring_allreduce_stats.py:434-451 | the keys are distinct and sorted, and the wall time is blank exactly when the repeat count is 0 |
| SweepSummary.AveragesOf | scripts/run_topology_ring_allreduce_stats.py:443-450 | the row of a key holds the means of the cells its successful rows fill |
| SweepSummary.SynthesizeRunRows | scripts/run_topology_ring_allreduce_stats.py:513-555 | summary row by summary row: none for another topology or a blank routing, otherwise repetitions 1, 2, ... with its key and values, as many as its repeat count and at least one |
| SweepSummary.SynthesizedExact | scripts/run_topology_ring_allreduce_stats.py:526-554 | which rows are made from which summary row, and where they stand |
| SweepSummary.SynthesizedKeys | scripts/run_topology_ring_allreduce_stats.py:513-555 | these rows have the summary's keys, in its order |
| SweepSummary.SynthesizedValues | scripts/run_topology_ring_allreduce_stats.py:530-554 | a summary row's value comes back as that many copies, blanks as none |
| SweepSummary.SummaryOfCopies | scripts/run_topology_ring_allreduce_stats.py:434-451 | averaging the copies gives the summary row back, blanks and repeat count 0 included |
| SweepSummary.SummaryOfKept | scripts/run_topology_ring_allreduce_stats.py:498-555 | summarising rows made from a summary gives the summary back when none of its rows is dropped |
| SweepSummary.SummaryFixpoint | scripts/run_topology_ring_allreduce_stats.py:498-555 | and exactly then: iff every summary row has the topology asked for and a routing name |
| Means.MeanRepeat | scripts/run_topology_ring_allreduce_stats.py:443-449 | the mean of copies of a number is that number |
| SweepResume.CompletedCaseKeys | scripts/run_topology_ring_allreduce_stats.py:593-610 | the loop returns the keys of the rows that complete their case under the policy |
| SweepResume.Sweep.constructor | scripts/run_topology_ring_allreduce_stats.py:697 | a sweep starts from whatever the run file holds |
| SweepResume.Sweep.Invoke | scripts/run_topology_ring_allreduce_stats.py:699-781 | loading, skipping, running, rewriting after each case, stopped at any case boundary or not: the run file ends with the rows started from and then one row per case run, cell by cell |
| SweepResume.InvocationExact | scripts/run_topology_ring_allreduce_stats.py:699-781 | under every policy and cut: the rows started from are none under `rerun_all`, else the file's with blanks filled in, else the summary's; the cases run are those before the cut that no such row covers and no earlier run of which returned 0; each adds one row with its cells and the reported routing and code; a file is left unless the invocation was cut before it ran any |
| SweepResume.RerunForgets | scripts/run_topology_ring_allreduce_stats.py:699-700 | running everything again leaves the same file whatever the run file and the summary held: exactly one row per case run, in case order |
| SweepResume.CompleteExactly | scripts/run_topology_ring_allreduce_stats.py:489-495 | a case is complete, on the cells of the file, iff some row has all the cells of its key, blank data sizes and threads filled in, and succeeded or need not |
| SweepResume.RunCaseKeeps | scripts/run_topology_ring_allreduce_stats.py:743-777 | one case keeps earlier rows a prefix, the completed keys those of the rows, and no key above max(1, its first count) successes |
| SweepResume.InvocationSafe | scripts/run_topology_ring_allreduce_stats.py:699-781 | so does an invocation cut anywhere, as seen by the next one |
| SweepResume.SequenceSafe | scripts/run_topology_ring_allreduce_stats.py:699-781 | and any sequence of them |
| SweepResume.RunsNothing | scripts/run_topology_ring_allreduce_stats.py:743-748 | an invocation runs something iff one of its cases is not complete; otherwise it leaves everything as it was |
| SweepResume.CompleteRunsNothing | scripts/run_topology_ring_allreduce_stats.py:743-781 | once every case is complete a further invocation runs nothing and keeps the rows |
| SweepResume.CasesBecomeComplete | scripts/run_topology_ring_allreduce_stats.py:774-776 | cases whose runs succeed are complete in the running invocation |
| SweepResume.UncutCompletes | scripts/run_topology_ring_allreduce_stats.py:743-781 | an uncut invocation whose runs all succeed leaves every case complete for the next one |
| SweepResume.RecordedRowCompletes | scripts/run_topology_ring_allreduce_stats.py:386-392 | for every key: the row of a run completes it for later invocations iff it was complete before, or it is the key of the case with the routing reported and the policy is content with the return code |
| SweepResume.OwnKeyGiven | scripts/run_topology_ring_allreduce_stats.py:386-392 | a run completes its own case iff it succeeded and reported the routing asked for |
| SweepResume.CompletedInRun | scripts/run_topology_ring_allreduce_stats.py:743-776 | within an invocation a key is complete iff it was at the start or an earlier run of its case succeeded |
| SweepResume.RunsExactly | scripts/run_topology_ring_allreduce_stats.py:743-748 | which cases an invocation runs: those not complete at the start of which no earlier run succeeded |
| SweepResume.InvocationCompletes | scripts/run_topology_ring_allreduce_stats.py:699-781 | any number of cases, any cut, whatever the programs report: the keys complete for the next invocation are those complete before and those reported by a case that was run and whose return code suffices |
| SweepResume.NextRunsNothing | scripts/run_topology_ring_allreduce_stats.py:743-781 | the next invocation of the same cases runs nothing iff every case was complete before or its key was so reported |
| SweepResume.SequenceCompletes | scripts/run_topology_ring_allreduce_stats.py:699-781 | the same over any sequence of invocations |
| SweepResume.RunsAgainExactly | scripts/run_topology_ring_allreduce_stats.py:743-777 | an invocation that gets to a case runs it iff it was not complete to begin with and no earlier invocation ran a successful case that reported its key |
| SweepResume.MisreportedRoutingReruns | scripts/run_topology_ring_allreduce_stats.py:386-392 | a case whose key no successful run reports is run by every invocation that gets to it, in a sweep of any cases, however often resumed |
| SweepResume.FailedCaseCompletes | scripts/run_topology_ring_allreduce_stats.py:593-610 | a case all of whose runs failed is complete afterwards iff another case, run and successful, reported its key |
| SweepResume.NeverSucceededYetComplete | scripts/run_topology_ring_allreduce_stats.py:386-392 | example: a case fails, the other case succeeds and reports its routing, and the failed one is never run again |
| SweepRecovery.TextInjective | scripts/run_topology_ring_allreduce_stats.py:567-575 | different integers have different texts, so keys compare as their cells do |
| SweepRecovery.TextMeaning | scripts/run_topology_ring_allreduce_stats.py:567-575 | numbers in keys are spelled in decimal |
| SweepRecovery.RecoveredNormal | scripts/run_topology_ring_allreduce_stats.py:522-525 | loading leaves the rows made from a summary alone |
| SweepRecovery.SynthesizedMembers | scripts/run_topology_ring_allreduce_stats.py:513-555 | which rows are made: those of the kept summary rows |
| SweepRecovery.MadeFor | scripts/run_topology_ring_allreduce_stats.py:526-554 | a repetition of a key is made iff a kept summary row has the key and stands for that many repetitions |
| SweepRecovery.RecoveredExactly | scripts/run_topology_ring_allreduce_stats.py:705-718 | with the run file lost, exactly repetition 1 and repetitions up to the number of successful wall times count as complete, of every successful key of the topology that names a routing |
| SweepRecovery.RecoveryFaithful | scripts/run_topology_ring_allreduce_stats.py:526-554 | so what counts as complete is what succeeded iff the repetitions that succeeded are 1 up to that number |
| SweepRecovery.WrongRepetition | scripts/run_topology_ring_allreduce_stats.py:526-554 | example: only the second repetition succeeded; the first counts as complete and the second is run again |
| Lines.WrittenReadBack | Nvwa/utils/check-style-clang-format.py:675-678 | lines that are written are read back as they were |
| StyleFixer.EnabledMeaning | Nvwa/utils/check-style-clang-format.py:648-654 | formatting is disabled iff some guard switched it off and none has switched it on since |
| StyleFixer.GuardsExactly | Nvwa/utils/check-style-clang-format.py:47-57 | a line is a guard iff one of the six texts stands in it with nothing but white space around |
| StyleFixer.SkippedExactly | Nvwa/utils/check-style-clang-format.py:648-659 | a line is passed over iff guards are respected, it is none, and the last guard above it says off |
| StyleFixer.PassExact | Nvwa/utils/check-style-clang-format.py:646-674 | the lines reported, top to bottom, are those neither passed over nor compliant; just these are replaced by what the check makes of them |
| StyleFixer.OffendersMembers | Nvwa/utils/check-style-clang-format.py:646-674 | the lines reported are exactly the checked lines that do not comply |
| StyleFixer.SourceFile.constructor | Nvwa/utils/check-style-clang-format.py:643-644 | a file holds its text |
| StyleFixer.SourceFile.CheckManuallyFile | Nvwa/utils/check-style-clang-format.py:619-680 | same verdict in every fix/verbose mode despite the early break: whether some line that is not passed over does not comply; fixing replaces exactly these lines; all of them are reported, or the first one in quiet mode |
| StyleFixer.SourceFile.Loaded | Nvwa/utils/check-style-clang-format.py:643-644 | the list of lines that is overwritten in place |
| StyleFixer.CompliantUnchanged | Nvwa/utils/check-style-clang-format.py:675-678 | a fix leaves a compliant file as it is |
| StyleFixer.FixNeverEnables | Nvwa/utils/check-style-clang-format.py:646-668 | after a fix formatting is enabled only where it was before, although a fix may create guards |
| StyleFixer.FixedComplies | Nvwa/utils/check-style-clang-format.py:646-668 | the fixed lines comply, for any line check whose fixes comply and keep guards |
| StyleFixer.FixSettles | Nvwa/utils/check-style-clang-format.py:619-680 | fixing a file leaves one that complies and a second fix changes nothing, for any such check |
| StyleFixer.FixKeepsRegions | Nvwa/utils/check-style-clang-format.py:646-668 | a fix keeps the guarded regions iff it turns no offending line of an enabled region into a guard that switches formatting off, for any such check |
| StyleFixer.StripOfExpansion | Nvwa/utils/check-style-clang-format.py:650-658 | what a line strips to after its tabs are expanded: its words, expanded from the column they begin in |
| StyleFixer.ExpandsTo | Nvwa/utils/check-style-clang-format.py:979-983 | which words expand to a text without double blanks: that text with tabs in place of blanks just before a tab stop |
| StyleFixer.BecomesOff | Nvwa/utils/check-style-clang-format.py:979-983 | a line becomes a guard that switches formatting off iff it reads as one, character by character, but for such tabs |
| StyleFixer.TabFixKeepsRegions | Nvwa/utils/check-style-clang-format.py:646-668 | a tab fix keeps the guarded regions iff no line of an enabled region reads like that, a condition on the unfixed lines |
| StyleFixer.FixCanDisable | Nvwa/utils/check-style-clang-format.py:979-983 | example where it does: a comment with a tab becomes a guard and the line below is no longer checked |
| StyleFixer.GuardedOffUntouched | Nvwa/utils/check-style-clang-format.py:646-660 | a line below a guard that switches formatting off, with no guard in between, is left alone |
| StyleFixer.RstripExact | Nvwa/utils/check-style-clang-format.py:943 | `rstrip` leaves the longest start of a line that does not end in white space |
| StyleFixer.SpaceInAscii | Nvwa/utils/check-style-clang-format.py:943 | which ASCII characters are white space: no visible one |
| StyleFixer.ReadLinesExact | Nvwa/utils/check-style-clang-format.py:643-644 | a file's lines end after its newlines and nowhere else |
| StyleFixer.WhitespaceCheckExact | Nvwa/utils/check-style-clang-format.py:943-947 | the fix is the line up to its last visible character and a newline; a line complies iff it is that already |
| StyleFixer.ExpandExact | Nvwa/utils/check-style-clang-format.py:979-983 | expansion leaves no tab, keeps everything else in order, and changes a line iff it holds a tab |
| StyleFixer.ExpandsExactly | Nvwa/utils/check-style-clang-format.py:983 | character by character: a tab becomes the 1 to 4 blanks that bring its row to a multiple of 4, anything else stays |
| StyleFixer.TabCheckExact | Nvwa/utils/check-style-clang-format.py:979-983 | a line complies iff it has no tab, and its fix is that expansion |
| StyleFixer.ExpansionAligns | Nvwa/utils/check-style-clang-format.py:979-983 | every tab ends at a multiple of the tab size, at least one and at most four columns further on |
| StyleFixer.TabFixKeepsGuard | Nvwa/utils/check-style-clang-format.py:650-658 | expanding the tabs of a guard line leaves the same guard |
| StyleFixer.TabsSettle | Nvwa/utils/check-style-clang-format.py:959-991 | the tab check is such a check |
| StyleFixer.TabFixLasts | Nvwa/utils/check-style-clang-format.py:959-991 | a tab fix leaves a compliant file that a second fix does not change |
| StyleFixer.WhitespaceFixKeepsStrip | Nvwa/utils/check-style-clang-format.py:943-947 | a whitespace fix changes nothing between the outer blanks |
| StyleFixer.WhitespaceSettles | Nvwa/utils/check-style-clang-format.py:926-955 | the whitespace check is such a check |
| StyleFixer.WhitespaceFixLasts | Nvwa/utils/check-style-clang-format.py:926-955 | a whitespace fix leaves a compliant file that a second fix does not change |
| StyleFixer.WhitespaceCompliance | Nvwa/utils/check-style-clang-format.py:943-947 | a line complies iff what follows its last visible character is one newline |
| StyleFixer.TabFixKeepsWhitespace | Nvwa/utils/check-style-clang-format.py:926-991 | fixing a line's tabs never changes what the whitespace check says of it |
| StyleFixer.TabFixKeepsWhitespaceVerdict | Nvwa/utils/check-style-clang-format.py:380-393 | nor does fixing a file's tabs |
| StyleFixer.BothChecksLast | Nvwa/utils/check-style-clang-format.py:380-393 | whitespace then tabs: the file complies with both and running both again changes nothing |

## Left out

- Subprocesses, signals delivered by the system, `/proc`, CSV, XML and HTML: a process is its return code, a chunk sequence or a table entry, a queue is a sequence, a file is its rows or its text, written at once.
- `failed_jobs`, timing and verbose printing in `Nvwa/test.py`; a worker that raises an exception, and a pool without workers, which would wait for ever.
- How the test, module and experiment lists are put together, and `extract_linked_libraries`; module names are distinct because they are the keys of a dictionary.
- Matching in `parse_stdout_line`: the parser is an arbitrary function of a line and the metrics so far. Carriage returns have been translated by text mode before any line splitting.
- `RecordAggregationInfo`: the list of aggregations is given with both types registered; the list of unknown names is not modelled. `Uniquefy` takes its argument by value, so `Gather` leaves the output unsorted, as modelled.
- A start that fails after the process was created (`Nvwa/exp.py:708-718`): an attempt is one step that fails or succeeds, and `ns3_command` always returns.
- Memory-guard arithmetic (a guard test is a boolean), NUMA detection, sleeping, and the profile files written beside the summary; cores taken from the affinity mask instead of the option; part texts that are not numbers.
- Simulated time is a number of nanoseconds without overflow, delays are not negative, and ties are taken in any order. Wall-clock times, and the square roots of `BenchSuite::Log` after the second moments.
- Floating point and the rounding of `.6f` and `.0f`: numbers are exact reals, so `SummaryFixpoint` speaks of values, not of text.
- SweepSummary.Group: scale, threads and data size are numbers, so a cell that is not a numeral, or a topology without a scale name, which raise exceptions, cannot occur; a row succeeds when its return code is the text "0".
- SweepSummary.SynthesizeRunRows: the rows are those `write_summary` writes, so the defaults for blank topology, data size, threads and repeat count cells, and the skipping of rows with a blank scale, do not arise.
- Orchestrator.ParseCores: the option is given cut at its commas and dashes, with the parts as integers; the order and repetition of the parts are arbitrary.
- SweepResume.SequenceSafe: requires the reported routing to be the one asked for, non-blank cells, and the same configuration in every invocation; the condition `Normal` holds of rows made from the summary (`RecoveredNormal`). What happens without the first of these is `SequenceCompletes`.
- An invocation killed while it writes the run file; building, configuration files and the columns of a run row that take no part in its key.
- The other style checks (includes, Doxygen tags, licences, editor comments, encoding, clang-format), choosing the files to check, checking files in parallel, and the wording of the messages. A file is text whose newlines have been translated.
- Plotting, the ns-3 example programs, and the topology and routing libraries, whose source is not part of this model.
