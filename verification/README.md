# Greenlit in Dafny

Greenlit runs GitHub Actions workflows on a local machine. This project models the parts of it
whose correctness ranges over every input, every run or every interleaving, and proves what they
are for.

| file | what it models |
|---|---|
| `Digraph.dfy`, `Names.dfy`, `Common.dfy`, `Characters.dfy` | graphs and paths, ordered names and stable sorting, shared types, character classes |
| `Tarjan.dfy` | the explicit-stack search for strongly connected components |
| `CycleWitness.dfy`, `Radix.dfy` | the backtracking search that shows one loop per cyclic component, and its termination measure |
| `Schedule.dfy` | Kahn's algorithm with a heap, and the waves |
| `NeedsGraph.dfy` | building the `needs` graph and reporting its cycles |
| `Prune.dfy` | pruning a plan to one job, and that it commutes with planning |
| `SourceCapture.dfy` | race-checked capture of a worktree that others may be editing |
| `MetricsLog.dfy`, `MetricsRecord.dfy`, `Json.dfy` | the append-only metrics log under torn writes, its records, and the JSON they are written in |
| `MetricsLaws.dfy` | the log as text: records, lines and repair |
| `Dotenv.dfy` | the two state machines of the dotenv format |
| `DotenvLaws.dfy` | every way of writing a dotenv file, and that no other is accepted |
| `Vars.dfy`, `VarsLaws.dfy` | the two-pass resolution of `vars.NAME`, and its outcome by positions in the inputs |
| `Lexer.dfy`, `LexerLaws.dfy` | the tokenizer of the expression language, and its table of tokens |
| `EvalMemory.dfy`, `ObjectValue.dfy` | the evaluator under its live-memory limit, and the indexed objects it works on |
| `EvalLaws.dfy` | what evaluation means, by rules, and what it costs |
| `Cancellation.dfy` | the cancellation flag and its notification |
| `OciCache.dfy` | image resolution through a content-addressed cache |
| `CopyIn.dfy` | the work-stack copy of a source tree |
| `LogReplay.dfy` | incremental replay of a growing journal |
| `Base64.dfy` | the two base64 encoders and the decoder |

The models keep the form of the code: loops over arrays and buffers are methods with loops,
objects with fields are classes, protocols are state machines over their steps, and code made of
expressions is functions. A method's contract ties its result to a function or predicate that says
what the result means; the lemmas are about those. The `Laws` files say it once more without the
code's own tests, with every character, constant and position written out.

Environment that the code cannot control is a parameter, and the theorems hold for all of its
values: the history of the worktree (`SourceCapture`), the byte at which each write is cut
(`MetricsLog`), the registry's answers and storage faults (`OciCache`), the snapshots of the journal
(`LogReplay`), directory order (`CopyIn`), process environment and GitHub's answers (`Vars`), which
texts are numbers (`Lexer`), context values, comparisons, collection access and built-in functions
(`EvalMemory`), case folding (`ObjectValue`).

Two limits of the code:

- The double-collect check of `source.rs` tells the truth when, while it lasts, no value comes back
  that was replaced (`SourceCapture.DoubleCollect`). A value that comes back can deceive it: for any
  such history some two passes agree on what was not true in between
  (`SourceCapture.ReturnDeceives`), and with two files the agreed manifest may never have been true
  (`SourceCapture.ReturningValuesBreakIt`).
- A comment at `crates/greenlit-app/src/vars.rs:364-368` says that no name can remain missing after
  the remote step. For literal uses this is proved (`Vars.NamedFetchResolves`). When the workflow also
  uses the whole map, it is false (`Vars.MixedUseStaysMissing`): the complete map has no empty
  entries, so a literal name that GitHub does not have is reported as missing.
  `Vars.CompleteFetchResolves` gives the exact condition. Likewise, that local values override remote
  ones holds because of how the callers fill the dotenv list; `Vars.LocalBeatsRemote` says exactly
  when it does.

Check the project with `dafny verify dfyconfig.toml` (Dafny 4.11).

## Model

| member | source | states |
|---|---|---|
| `Tarjan.FindComponents` | crates/greenlit-engine/src/graph.rs:168-226 | For every graph the explicit-stack search ends and its lists are exactly the strongly connected components: each list is one whole component, and every node is in exactly one list |
| `Tarjan.Explore` | crates/greenlit-engine/src/graph.rs:183-225 | One start node: the nested loop ends, keeps the search invariant, leaves the call stack empty and the start node numbered |
| `Tarjan.Examine` | crates/greenlit-engine/src/graph.rs:191-206 | Looking at one edge either enters a new node, lowers the low link or passes by; the invariant holds and the (numbered nodes, unexamined edges) measure drops |
| `Tarjan.Return` | crates/greenlit-engine/src/graph.rs:207-224 | Returning from a node either closes a component or hands its low link to the caller; the invariant holds and the call stack shrinks |
| `Tarjan.PopComponent` | crates/greenlit-engine/src/graph.rs:213-222 | The pop loop removes exactly the stack from the root upwards, in reverse, and clears exactly those `on_stack` flags |
| `Tarjan.EnterInv` | crates/greenlit-engine/src/graph.rs:196-203 | Numbering a new node keeps the invariant: every open node is reached by the nodes before it, no examined edge of a node leads to an open number below its low link, and the low link is the number of an open node it reaches |
| `Tarjan.RelaxInv` | crates/greenlit-engine/src/graph.rs:204-206 | Examining an edge to a numbered node keeps the invariant, whether or not the target is still on the stack |
| `Tarjan.FoldInv` | crates/greenlit-engine/src/graph.rs:208-211 | Handing a low link to the caller keeps the invariant |
| `Tarjan.PopInv` | crates/greenlit-engine/src/graph.rs:212-223 | Closing a component keeps the invariant, so closed nodes never reach open ones |
| `Tarjan.RootComponent` | crates/greenlit-engine/src/graph.rs:212-223 | When a node's low link equals its own number, the stack above it is exactly its strongly connected component |
| `Tarjan.NextBounded` | crates/greenlit-engine/src/graph.rs:175-200 | The running number never exceeds the number of jobs, so the 32-bit counters cannot wrap |
| `CycleWitness.BuildCycleDisplay` | crates/greenlit-engine/src/graph.rs:251-304 | The backtracking search ends and never gives up on a cyclic component; its answer is a simple cycle of real edges inside the component, from the smallest id, and the first such cycle in id order |
| `CycleWitness.SmallestMember` | crates/greenlit-engine/src/graph.rs:257-259 | The start is the member with the least id |
| `CycleWitness.SortedNeighbors` | crates/greenlit-engine/src/graph.rs:258-273 | Each member's list holds exactly its dependencies inside the component, sorted by id |
| `CycleWitness.SimpleCycleThrough` | crates/greenlit-engine/src/graph.rs:228-243 | Every node of a cyclic component lies on a simple cycle, so there is always something to find |
| `CycleWitness.DescendAhead` | crates/greenlit-engine/src/graph.rs:290-301 | Stepping down an edge never passes a simple cycle that is still ahead of the search |
| `CycleWitness.SkipAhead` | crates/greenlit-engine/src/graph.rs:290-301 | Skipping a node already on the path never passes a simple cycle that is still ahead |
| `CycleWitness.RetreatAhead` | crates/greenlit-engine/src/graph.rs:283-288 | Leaving an exhausted node never passes a simple cycle that is still ahead |
| `CycleWitness.DescendMeasure` | crates/greenlit-engine/src/graph.rs:290-301 | Although nodes are explored again under other prefixes, a step down lowers the number that the unexplored edges of the path spell |
| `Radix.DescendShrinks` | crates/greenlit-engine/src/graph.rs:290-301 | Read as digits, one edge used at a level outweighs whatever a new level below it can add |
| `CycleWitness.SkipMeasure` | crates/greenlit-engine/src/graph.rs:290-301 | A skipped edge lowers that number |
| `CycleWitness.RetreatMeasure` | crates/greenlit-engine/src/graph.rs:283-288 | A step back lowers that number |
| `CycleWitness.NotAfterTarget` | crates/greenlit-engine/src/graph.rs:275-304 | With ids in order, the search path never comes after a cycle that is still ahead |
| `CycleWitness.FirstLoop` | crates/greenlit-engine/src/graph.rs:275-304 | The loop that is found precedes every other simple cycle through the start, in id order |
| `NeedsGraph.FindCycles` | crates/greenlit-engine/src/graph.rs:168-243 | One shown cycle per cyclic component and none else, in order of first member; the list is empty exactly when the graph has no cycle, self-edges included, so the dropped `None` loses nothing |
| `Names.LeqIsDictionary` | crates/greenlit-engine/src/graph.rs:228-243 | Ids are ordered like words: one begins the other, or is smaller at the first difference |
| `NeedsGraph.EmptyReport` | crates/greenlit-engine/src/graph.rs:141-144 | Any correct report is empty exactly when the graph is acyclic |
| `NeedsGraph.CollectedReports` | crates/greenlit-engine/src/graph.rs:228-243 | Sorting the collected cycles by their first member yields a correct report |
| `NeedsGraph.CycleMakesCyclic` | crates/greenlit-engine/src/graph.rs:228-234 | A node on any cycle makes its component pass the size-or-self-edge test |
| `NeedsGraph.BuildGraph` | crates/greenlit-engine/src/graph.rs:99-155 | For every job list: the first unknown need is reported, else all cycles, else the one correct schedule of the jobs |
| `NeedsGraph.JobDeps` | crates/greenlit-engine/src/graph.rs:109-132 | Names the first unknown need, or gives each needed job once in first-mention order |
| `NeedsGraph.NeedsEdges` | crates/greenlit-engine/src/graph.rs:102-132 | With distinct ids, the graph has an edge exactly where one job's `needs` names the other |
| `NeedsGraph.ScheduleUnique` | crates/greenlit-engine/src/graph.rs:146-154 | There is only one correct order with waves for a graph |
| `Schedule.BuildDependents` | crates/greenlit-engine/src/graph.rs:134-139 | The dependents lists are the transpose of the dependency lists, each edge once |
| `Schedule.KahnTopoOrder` | crates/greenlit-engine/src/graph.rs:310-335 | No in-degree underflows; every step runs the least ready job; all jobs run exactly when the graph is acyclic, and then the order is the least topological order by declaration index |
| `Schedule.GreedyLeast` | crates/greenlit-engine/src/graph.rs:310-335 | Always running the least ready job gives the lexicographically least topological order |
| `Schedule.LeastUnique` | crates/greenlit-engine/src/graph.rs:310-335 | The least topological order is unique |
| `Schedule.ReleaseOne` | crates/greenlit-engine/src/graph.rs:326-332 | Releasing one dependent finds a positive in-degree and keeps the counts equal to the unfinished dependencies |
| `Schedule.StuckIsCyclic` | crates/greenlit-engine/src/graph.rs:310-335 | If jobs remain and none is ready, the graph has a cycle |
| `Schedule.TopologicalAcyclic` | crates/greenlit-engine/src/graph.rs:310-335 | A topological order exists only without cycles |
| `Schedule.PopMin` | crates/greenlit-engine/src/graph.rs:316-324 | The heap yields its least element and keeps the rest |
| `Schedule.ComputeWaves` | crates/greenlit-engine/src/graph.rs:339-350 | Each job's wave is the number of edges of its longest dependency path |
| `Schedule.LongestChainUnique` | crates/greenlit-engine/src/graph.rs:339-350 | That length is unique |
| `Prune.Closure` | crates/greenlit-app/src/run_cmd.rs:801-812 | The queue loop ends with the least set that contains the target and the needs of its members |
| `Prune.PruneToJob` | crates/greenlit-app/src/run_cmd.rs:789-817 | Fails exactly for an unknown job; otherwise jobs and order are restricted to the closure, keeping their order |
| `Prune.FilterGreedy` | crates/greenlit-app/src/run_cmd.rs:813-817 | Filtering a greedy order to a closed set of jobs is the greedy order of that set |
| `Prune.OrderCommutes` | crates/greenlit-app/src/run_cmd.rs:813-817 | The filtered full order equals the least topological order of the kept subgraph |
| `Prune.EmbeddedChain` | crates/greenlit-engine/src/graph.rs:339-350 | A kept job's longest dependency path is as long in the kept subgraph as in the full one |
| `Prune.WaveCommutes` | crates/greenlit-engine/src/graph.rs:339-350 | Every kept job has the same wave when only the kept jobs are planned |
| `Prune.PruneIsReplan` | crates/greenlit-app/src/run_cmd.rs:801-817 | Pruning the plan gives the same plan as planning the pruned workflow, which always succeeds |
| `Prune.PruneEitherWay` | crates/greenlit-app/src/run_cmd.rs:789-817 | From the workflow on: planning then pruning, and pruning then planning, give the same plan; the first gets through exactly when all needs are known, no cycle exists and the job is defined |
| `SourceCapture.Repository.CaptureOnce` | crates/greenlit-engine/src/source.rs:180-216 | Under any concurrent edits in which, during the attempt, no value returns, an accepted attempt is the true state of `HEAD` and of all listed paths, checkout included, at one instant between the two passes; a rejection for change means something changed, and a readable repository nobody edits is always captured |
| `SourceCapture.Repository.Capture` | crates/greenlit-engine/src/source.rs:100-130 | The same for up to three attempts; the capture gives up only after three separate changes; on success only the destination is new, on failure nothing is left behind, and other directories are untouched |
| `SourceCapture.Repository.VerifyAndAdopt` | crates/greenlit-engine/src/source.rs:140-177 | An adopted snapshot was re-read in full; if it was true when taken and no value returns between then and the check, it was still current at every moment up to the check; an unchanged repository is always adopted; a refusal moves nothing |
| `SourceCapture.Repository.CopyAndHash` | crates/greenlit-engine/src/source.rs:249-296 | The first pass records what each path showed at its own moments, and the copies match the recorded digests; it fails only when a read failed |
| `SourceCapture.Repository.HashLiveEntries` | crates/greenlit-engine/src/source.rs:298-339 | The second pass records what each path showed, copying nothing; it fails only when a read failed |
| `SourceCapture.Repository.Look` | crates/greenlit-engine/src/source.rs:255-294 | One path: metadata at one moment, contents at a later one, entry and copy made from exactly these |
| `SourceCapture.GitPaths` | crates/greenlit-engine/src/source.rs:433-458 | No path is listed that is `.litci` or begins with `.litci/`, every other one is, in order and once; it fails exactly when a path has over 65,536 bytes or a million kept paths come before the last one |
| `SourceCapture.ManifestSays` | crates/greenlit-engine/src/source.rs:298-350 | A true manifest has one line for every path that exists and no others, with kind, mode 120000, 100755 or 100644, digest and size |
| `SourceCapture.ManifestSorted` | crates/greenlit-engine/src/source.rs:298-350 | Its lines are in the order of their paths, each path once |
| `SourceCapture.CheckoutSays` | crates/greenlit-engine/src/source.rs:249-296 | The checkout holds at exactly those paths the links with their targets and the files with their bytes, executable or not |
| `SourceCapture.DedupIncreases` | crates/greenlit-engine/src/source.rs:455-456 | Sorting and dropping neighbours that repeat leaves every path once |
| `SourceCapture.SightingsAgree` | crates/greenlit-engine/src/source.rs:180-216 | Two equal readings of a path around an instant tell what the path was at that instant, if no value returns between them |
| `SourceCapture.SameEverywhere` | crates/greenlit-engine/src/source.rs:197-200 | Equal manifests mean equal readings path by path, although missing paths leave no entry |
| `SourceCapture.DoubleCollect` | crates/greenlit-engine/src/source.rs:180-216 | Two passes with equal manifests pin the true manifest at every instant between them, if no value returns while they last |
| `SourceCapture.ReturnDeceives` | crates/greenlit-engine/src/source.rs:197-200 | For every history and path: if the path leaves the value it had and goes back to it, two passes around the absence agree on a manifest that is not true there |
| `SourceCapture.ChangeIsReal` | crates/greenlit-engine/src/source.rs:197-200 | If the passes or the two readings of `HEAD` differ, the repository changed |
| `SourceCapture.AdoptedIsCurrent` | crates/greenlit-engine/src/source.rs:140-177 | A single later pass with the same manifest and commit shows the snapshot current at all times in between, if no value returned since it was taken |
| `SourceCapture.ReturningValuesBreakIt` | crates/greenlit-engine/src/source.rs:197-200 | A concrete history in which values return: both passes agree on a manifest that was never true, so the condition cannot be dropped |
| `MetricsLog.CrashSafety` | crates/greenlit-metrics/src/store.rs:118-252 | After any run of appends from an empty file, each cut off after any byte, reading succeeds and yields exactly the records whose bytes all arrived, in order; an append that returned Ok is among them, and an append fails only for an oversized record |
| `MetricsLog.ReadGrows` | crates/greenlit-metrics/src/store.rs:118-252 | Whatever could be read after part of a run is read again after all of it, first and in the same order |
| `MetricsLog.AppendKeeps` | crates/greenlit-metrics/src/store.rs:118-147 | From every state a run can leave, the tail scan succeeds and the append leads to such a state again, with the new record added exactly when it landed |
| `MetricsLog.HeldIsRead` | crates/greenlit-metrics/src/store.rs:175-252 | From every such state the reader returns exactly the stored records, tolerating a torn last line |
| `MetricsLog.LogFile.Append` | crates/greenlit-metrics/src/store.rs:118-147 | The file and the outcome after an append cut off at any byte, repair and separator included |
| `MetricsLog.LogFile.RepairUnterminatedTail` | crates/greenlit-metrics/src/store.rs:261-325 | A torn tail is cut back to the last newline, a complete one is kept and wants a separator, an unbounded one is refused untouched |
| `MetricsLog.RepairTorn` | crates/greenlit-metrics/src/store.rs:261-325 | Any proper prefix of a record after whole lines is removed, nothing else |
| `MetricsLog.RepairUnterminated` | crates/greenlit-metrics/src/store.rs:261-325 | A record that lost only its newline is kept |
| `MetricsLog.FindTailStart` | crates/greenlit-metrics/src/store.rs:327-363 | The bounded backward scan in chunks finds the position after the last newline, or reports that it is out of bounds |
| `MetricsLog.ReadBoundedLine` | crates/greenlit-metrics/src/store.rs:231-252 | The line at a position up to its newline, or the limit error exactly when it is too long |
| `MetricsLog.ReadAll` | crates/greenlit-metrics/src/store.rs:175-229 | The reader loop computes the line-by-line reading of the whole file |
| `MetricsLaws.CorruptLineReported` | crates/greenlit-metrics/src/store.rs:193-227 | After k stored or blank lines, a terminated line that is no document is a corrupt record at line k + 1 |
| `MetricsLaws.OtherVersionReported` | crates/greenlit-metrics/src/store.rs:193-227 | A document of another schema version is reported with its line and version, with or without its newline |
| `MetricsLaws.TornTailIgnored` | crates/greenlit-metrics/src/store.rs:193-227 | The same text without its newline ends the reading with what was stored |
| `MetricsLaws.LongLineRefused` | crates/greenlit-metrics/src/store.rs:231-252 | A line over eight mebibytes is refused |
| `MetricsLaws.RepairTable` | crates/greenlit-metrics/src/store.rs:261-325 | After the last newline, a whole document of at most eight mebibytes is kept and anything else cut; without a newline in reach the file is left alone |
| `MetricsRecord.RoundTrip` | crates/greenlit-metrics/src/store/decode.rs:22-28 | Every record, with all its lists, reads back from its line of JSON under the current schema version |
| `MetricsRecord.PrefixCorrupt` | crates/greenlit-metrics/src/store.rs:307-316 | No proper prefix of a record's line is a complete JSON value, so a torn record is always recognized |
| `MetricsRecord.EncodeShape` | crates/greenlit-metrics/src/record.rs:90-111 | A record is one line: an object without newlines |
| `MetricsLaws.RecordIs` | crates/greenlit-metrics/src/record.rs:32-111 | The text of a record: its field names in order, schema version 2, and how strings are escaped |
| `Json.DocumentReads` | crates/greenlit-metrics/src/store.rs:119-122 | The compact text of any JSON value is a document that means that value |
| `Json.DocumentCut` | crates/greenlit-metrics/src/store.rs:315-317 | No proper prefix of the text of an object, array, string or literal is a document in the full grammar with whitespace |
| `Json.ValueCut` | crates/greenlit-metrics/src/store.rs:315-317 | Inside a document, torn text never reads as a value, except a number torn between its digits |
| `Json.StringCut` | crates/greenlit-metrics/src/store.rs:315-317 | A string torn anywhere, escapes included, does not read |
| `Dotenv.ScannerSimulatesDecoder` | crates/greenlit-app/src/dotenv_format.rs:70-113 | When the scanner ends a record, the decoder finds the joined text complete; when it does not, the decoder finds no value |
| `Dotenv.EveryRecordDecodes` | crates/greenlit-app/src/dotenv_format.rs:126-206 | No logical record of any file is ever incomplete or skipped at the decoder, so those arms are unreachable |
| `Dotenv.AssignmentSplit` | crates/greenlit-app/src/dotenv_format.rs:176-206 | Splitting the physical line and splitting the trimmed line without `export` agree on the value |
| `Dotenv.PrintedReadsBack` | crates/greenlit-app/src/dotenv_format.rs:126-260 | Any list of printable names and arbitrary values, printed double-quoted with escapes, parses back unchanged, or exceeds the assignment limit exactly when it is longer |
| `Dotenv.SingleQuotedReadsBack` | crates/greenlit-app/src/dotenv_format.rs:208-248 | Any text without a single quote reads back from single quotes unchanged |
| `Dotenv.PlainReadsBack` | crates/greenlit-app/src/dotenv_format.rs:208-248 | The decoding loop reads unquoted text without blanks, quotes and backslashes unchanged, with or without a comment after it |
| `Dotenv.AcceptedNamesArePrintable` | crates/greenlit-app/src/gh_names.rs:25-46 | Every accepted configuration name is covered by the round trip |
| `Dotenv.ValueScan.CompletesRecord` | crates/greenlit-app/src/dotenv_format.rs:70-113 | The scanner's fields and verdict after one physical line |
| `Dotenv.DecodeValue` | crates/greenlit-app/src/dotenv_format.rs:208-260 | The decoding loop computes the recursive meaning of a value |
| `Dotenv.ParseDotenv` | crates/greenlit-app/src/dotenv_format.rs:126-174 | The file loop computes the record-by-record parse, errors and limits included; `DotenvLaws` says which files that accepts, with what entries, and where it refuses the others |
| `DotenvLaws.WrittenReadsBack` | crates/greenlit-app/src/dotenv_format.rs:126-260 | Every way of writing assignments reads back as those assignments: with or without `export`, blanks, comments and empty lines, in plain, single- or double-quoted pieces, with every escape, over one line or several, with either line end |
| `DotenvLaws.AcceptedExactly` | crates/greenlit-app/src/dotenv_format.rs:126-260 | A file yields given entries exactly when it is one of the ways of writing them and they are within the limit; nothing else is accepted |
| `DotenvLaws.RefusedThere` | crates/greenlit-app/src/dotenv_format.rs:142-173 | Where no blank line, comment or assignment begins, the error is about that line, unless the limit was exceeded before |
| `DotenvLaws.NameRefused` | crates/greenlit-app/src/dotenv_format.rs:191-198 | A written assignment whose name the rule refuses gives the line, the name and the reason |
| `DotenvLaws.PiecesRead` | crates/greenlit-app/src/dotenv_format.rs:208-260 | Whatever follows them, quoted and plain pieces contribute what they stand for: the escapes of backslash, quotes, dollar and space their own character, n a line break |
| `DotenvLaws.ValueForms` | crates/greenlit-app/src/dotenv_format.rs:70-113 | Text that the scanner ends and the decoder accepts consists of such pieces, then blanks and a comment |
| `DotenvLaws.NamesAccepted` | crates/greenlit-app/src/gh_names.rs:25-46 | Names of ASCII letters, digits and underscores are accepted unless they begin with a digit or with GITHUB_ in any case; each other name gets its own reason |
| `Lexer.PrintedTokensReadBack` | crates/greenlit-expr/src/lexer.rs:102-296 | Whatever source was accepted, printing its tokens with single spaces, or with as few as possible, and tokenizing again gives the same tokens, if the print fits the length limit |
| `Lexer.TightIsShortest` | crates/greenlit-expr/src/lexer.rs:102-278 | No source of the same tokens is shorter than their tight print, which has a space exactly where tokens would run together |
| `Lexer.TightPrintReadsBack` | crates/greenlit-expr/src/lexer.rs:102-278 | So the tight print of an accepted source always fits the limit and reads back |
| `Lexer.TookText` | crates/greenlit-expr/src/lexer.rs:119-296 | A token is read from exactly its own text, and as far as that goes |
| `Lexer.TokenStreamsCharacterized` | crates/greenlit-expr/src/lexer.rs:66-108 | A token sequence comes from some acceptable source exactly when each token may follow the one before it and the tight print is within the length limit |
| `Lexer.SpansCoverSource` | crates/greenlit-expr/src/lexer.rs:102-278 | The source is the texts of the tokens at their offsets, with nothing but whitespace between and after them |
| `Lexer.AllFollow` | crates/greenlit-expr/src/lexer.rs:66-98 | Accepted sources produce only allowed neighbours |
| `Lexer.PrintLexes` | crates/greenlit-expr/src/lexer.rs:102-278 | Every allowed sequence is what its own print tokenizes to |
| `Lexer.Tokenize` | crates/greenlit-expr/src/lexer.rs:102-278 | The indexed loop computes the recursive tokenization, errors and offsets included |
| `LexerLaws.TokenizeTable` | crates/greenlit-expr/src/lexer.rs:102-278 | A source is accepted with given tokens exactly when it has at most 21,000 UTF-16 units and consists of tokens of the table and blanks, each in its place |
| `LexerLaws.TokenTable` | crates/greenlit-expr/src/lexer.rs:102-278 | A token is taken exactly when the table, with every character and keyword written out, says that it stands there |
| `LexerLaws.SignedNumberFollows` | crates/greenlit-expr/src/lexer.rs:66-87 | After each of the twelve tokens that expect a value, a sign or a point begins a number |
| `LexerLaws.NoSignFollows` | crates/greenlit-expr/src/lexer.rs:66-87 | After each of the other ten, a point is a dereference and a sign is an error |
| `LexerLaws.ErrorsAreLocated` | crates/greenlit-expr/src/lexer.rs:102-278 | At the reported position the source shows the reported error |
| `LexerLaws.MoreClasses` | crates/greenlit-expr/src/lexer.rs:284-305 | Which characters a word consists of and which end a number |
| `Lexer.TakeToken` | crates/greenlit-expr/src/lexer.rs:119-277 | The token at a position given the token before it, and its length |
| `Lexer.ScanString` | crates/greenlit-expr/src/lexer.rs:125-153 | The text of a quoted string and the position after it, or none when unterminated |
| `Cancellation.NoLostWakeup` | crates/greenlit-runtime/src/cancel.rs:28-49 | In every interleaving a waiter returns only when the flag is set, and once the notification was sent no waiter is parked on an older one |
| `Cancellation.ExactlyOneNotification` | crates/greenlit-runtime/src/cancel.rs:28-32 | When all cancellers are done, the flag is set and exactly one notification was sent |
| `Cancellation.FlagStays` | crates/greenlit-runtime/src/cancel.rs:28-38 | The flag never clears |
| `Cancellation.NeverStuck` | crates/greenlit-runtime/src/cancel.rs:41-49 | After the notification a waiter that has not returned can always take a step |
| `Cancellation.WaitersReturn` | crates/greenlit-runtime/src/cancel.rs:41-49 | After the notification each waiter returns within three of its own steps |
| `Cancellation.RunInv` | crates/greenlit-runtime/src/cancel.rs:28-49 | The invariant behind these holds in every reachable state |
| `EvalMemory.EvaluationMemory.AddResult` | crates/greenlit-expr/src/memory.rs:79-114 | The depth vector refines a list of live results: it accepts exactly when their sum with the new one fits, and the total is always that sum |
| `EvalMemory.EvaluationMemory.TrimDeeperThan` | crates/greenlit-expr/src/memory.rs:120-133 | Exactly the results deeper than the given depth are dropped |
| `EvalMemory.TrimStep` | crates/greenlit-expr/src/memory.rs:120-133 | Each trim step subtracts no more than the total, so the saturating subtraction never saturates |
| `EvalMemory.KeptSum` | crates/greenlit-expr/src/memory.rs:120-133 | The live total splits by depth |
| `EvalMemory.EvaluateInner` | crates/greenlit-expr/src/eval.rs:103-176 | For every form of expression and arbitrary built-in functions, evaluation succeeds exactly when the expression has a meaning and its peak fits the limit; the value is the unlimited meaning and the live results are the predicted ones |
| `EvalMemory.EvalBinary` | crates/greenlit-expr/src/eval.rs:182-262 | The same for binary operators; `EvalLaws.MeaningByRules` and `EvalLaws.LogicIsLogic` say what that is |
| `EvalMemory.EvalIndex` | crates/greenlit-expr/src/eval.rs:130-147 | The same for indexing: the index is evaluated only into a collection, and what is found is accounted for as the access says |
| `EvalMemory.EvalWildcard` | crates/greenlit-expr/src/eval.rs:148-164 | The same for filters, with the wildcard's own result recorded for collections |
| `EvalMemory.EvalCall` | crates/greenlit-expr/src/eval/calls.rs:12-149 | The same for calls: arguments are evaluated when and if the function asks for them, and its own counter is held to the same limit |
| `EvalMemory.ExceedsSafeDepth` | crates/greenlit-expr/src/parser/depth.rs:52-77 | The walk with an explicit stack ends and says whether some node is deeper than the limit |
| `EvalMemory.EvaluationMemory.TotalBytesIsTheSum` | crates/greenlit-expr/src/memory.rs:62-133 | The running total is always the sum of the per-depth counters |
| `EvalMemory.Evaluate` | crates/greenlit-expr/src/eval.rs:91-101 | Success depends on the nesting limit and, through one peak number, on the memory limit, so it persists at every larger limit with the same value; too deep an expression is rejected first. `EvalLaws` says what the value, the peak and the depth are |
| `EvalLaws.MeaningByRules` | crates/greenlit-expr/src/eval.rs:103-262 | Rules, one for each form and each way it can go, derive exactly one result for each expression, and it is what evaluation means: both short circuits, comparisons, indexing, filters, calls and errors |
| `EvalLaws.LogicIsLogic` | crates/greenlit-expr/src/eval.rs:182-215 | On Boolean literals, the three logical operators are negation, conjunction and disjunction |
| `EvalLaws.Kinds` | crates/greenlit-expr/src/value/coercion.rs:17-30 | The falsy values are null, false, the numbers zero and NaN, and the empty string; only arrays and objects are not primitive |
| `EvalLaws.PeakIsCost` | crates/greenlit-expr/src/eval.rs:103-176 | For literals, roots, `!` and binary operators, the smallest sufficient limit is the cost of the expression, with 26 bytes and two per UTF-16 unit for a string and 24 for anything else |
| `EvalLaws.WildcardPeak` | crates/greenlit-expr/src/eval.rs:148-164 | A filter holds the collection, the wildcard and the filtered array at once |
| `EvalLaws.IndexPeak` | crates/greenlit-expr/src/eval.rs:130-147 | An element is held together with the collection and the index |
| `EvalLaws.CallPeak` | crates/greenlit-expr/src/eval/calls.rs:12-149 | A function of one argument counts what it builds and holds the argument meanwhile |
| `EvalLaws.FromJsonNames` | crates/greenlit-expr/src/eval.rs:164-170 | `fromJSON` is recognized in any mixture of capitals and small letters |
| `EvalLaws.DefaultLimit` | crates/greenlit-expr/src/eval.rs:62-70 | A limit of zero means 1,048,576 bytes |
| `EvalLaws.TooDeepMeans` | crates/greenlit-expr/src/parser/depth.rs:52-77 | An expression is too deep exactly when some way down has more than fifty nodes |
| `OciCache.RegistryResolver.ResolveLinuxAmd64` | crates/greenlit-store/src/oci.rs:151-252 | Whatever the registry answers and whatever happened to stored objects: the platform is linux with amd64 or x86_64, the digest is that of the first such entry of the index (of the top object when it lists none), the pull reference names it; a hit occurs exactly when the cache is ready, and a registry that serves all objects is enough to succeed |
| `OciCache.RegistryResolver.ResolveOffline` | crates/greenlit-store/src/oci.rs:256-268 | Succeeds exactly when the cache is ready for the recorded digest, with the image a full fetch would give |
| `OciCache.RegistryResolver.OnlineThenOffline` | crates/greenlit-store/src/oci.rs:151-268 | After a successful resolve, the offline resolve gives the same image |
| `OciCache.RegistryResolver.CachedResolution` | crates/greenlit-store/src/oci.rs:270-313 | A hit exactly when aliases and both objects are intact, with the true image; damage is a miss, never an error |
| `OciCache.RegistryResolver.FetchChain` | crates/greenlit-store/src/oci.rs:159-239 | Top object, platform manifest and configuration, each checked against its digest and kept; succeeds with exactly these when the registry serves them |
| `OciCache.RegistryResolver.SelectPlatform` | crates/greenlit-store/src/oci.rs:163-200 | The platform manifest named by the first Linux amd64 descriptor, or the top object itself |
| `OciCache.RegistryResolver.FetchConfig` | crates/greenlit-store/src/oci.rs:202-239 | The configuration named by the manifest, of the right size, digest and platform |
| `OciCache.RegistryResolver.ReadCacheObject` | crates/greenlit-store/src/oci.rs:711-717 | Damaged objects read as absent |
| `OciCache.ResolutionUnique` | crates/greenlit-store/src/oci.rs:151-252 | The top digest determines the image |
| `OciCache.HitIsTrue` | crates/greenlit-store/src/oci.rs:270-313 | Objects found under recorded digests are the ones that were verified |
| `OciCache.HitAgreesWithFetch` | crates/greenlit-store/src/oci.rs:270-313 | A hit agrees with any full fetch of the same top digest |
| `OciCache.ResolvedIsDescribed` | crates/greenlit-store/src/oci.rs:151-252 | An image is what a reference resolves to exactly when the objects under the top digest describe it: first linux/amd64 entry, sizes, digests, platform, and lazy exactly when every layer names a table of contents |
| `OciCache.SelectIsFirst` | crates/greenlit-store/src/oci.rs:174-181 | The selected descriptor is the first for linux with amd64 or x86_64, and there is none exactly when no entry is |
| `LogReplay.Run` | crates/greenlit-app/src/logs_cmd.rs:31-88 | For append-only snapshots of the journal: the outcome is determined by complete lines alone, and the output is the end of one batch pass over them, wherever the snapshots cut: all of it, or with `--tail n` all but what the first pass matched before its last n |
| `LogReplay.PassIsBatch` | crates/greenlit-app/src/logs_cmd.rs:42-77 | One pass over the newly completed lines continues the batch pass exactly |
| `LogReplay.ReplayAppend` | crates/greenlit-app/src/logs_cmd.rs:52-76 | Replaying two pieces of whole lines one after the other is replaying them together |
| `LogReplay.Written` | crates/greenlit-app/src/logs_cmd.rs:62-83 | What a pass adds keeps the output the end of the batch output, as long as `--tail` says |
| `LogReplay.FindComplete` | crates/greenlit-app/src/logs_cmd.rs:43-46 | The backward search finds the length of the complete lines |
| `LogReplay.ReplayLines` | crates/greenlit-app/src/logs_cmd.rs:52-76 | The line loop computes the replay, stopping at the first invalid event; the queue behind `--tail` holds the last matches |
| `LogReplay.BatchShowsSelected` | crates/greenlit-app/src/logs_cmd.rs:52-83 | The batch output is the renderings of exactly the matching lines, in order, each judged by the steps started up to it: job by id or instance, step by event, id, or position from one |
| `LogReplay.BatchStops` | crates/greenlit-app/src/logs_cmd.rs:56-60 | From the first line that does not decode on, nothing more is shown |
| `CopyIn.Populate` | crates/greenlit-init/src/copy_in.rs:52-138 | For every tree and directory order the copy ends, succeeds exactly within the limits, and then the workspace has at every path what the source has there, kind by kind, without special nodes; the totals count its files and bytes, and progress never falls and is reported once per 512 entries |
| `CopyIn.CopyEntry` | crates/greenlit-init/src/copy_in.rs:87-117 | One entry: what is written, waiting and still listed stays the whole copy, and the counts with it |
| `CopyIn.CopyUnique` | crates/greenlit-init/src/copy_in.rs:52-138 | No path is copied twice with different contents |
| `CopyIn.CopyAt` | crates/greenlit-init/src/copy_in.rs:79-117 | The copy holds something at a path exactly when following its names in the source leads to a directory, link or file, and it is that kind with that content |
| `CopyIn.TotalsOf` | crates/greenlit-init/src/copy_in.rs:87-117 | The running totals are the number of files and links and the sum of the file sizes of the copy |
| `Vars.ResolveVarsWithRemote` | crates/greenlit-app/src/vars.rs:324-371 | The exact outcome of the two passes: local success, hard local error, missing authentication, and after a fetch the exact condition of success with every value being the first of command line, process, dotenv file, repository, organization, empty |
| `Vars.ResolveVars` | crates/greenlit-app/src/vars.rs:167-277 | One pass looks up every candidate name once, in ascending order, although the process values are taken out of their index |
| `VarsLaws.OutcomeSays` | crates/greenlit-app/src/vars.rs:167-277 | The resolution succeeds exactly when no used name is unacceptable, every mentioned name has one value of at most 49,152 bytes or is not needed, and the whole map is not used without a command line or a complete fetch; it yields exactly the mentioned names that have a value |
| `VarsLaws.LookupSays` | crates/greenlit-app/src/vars.rs:89-165 | Last assignment on the command line, else the only variable of that name in the environment, else the last dotenv assignment; two variables are ambiguous, with their sorted spellings |
| `VarsLaws.LiteralSays` | crates/greenlit-app/src/vars.rs:167-200 | A name is reported as its first acceptable use spells it |
| `VarsLaws.InvalidSays` | crates/greenlit-app/src/vars.rs:167-200 | Each unacceptable use is reported once, in order, with its place and the reason |
| `VarsLaws.CanonicalSays` | crates/greenlit-app/src/vars.rs:82-87 | A canonical name has the capitals of the letters |
| `Vars.NamedFetchResolves` | crates/greenlit-app/src/vars.rs:360-370 | After fetching the missing names nothing is missing; only a value too large to store can still stop the resolution |
| `Vars.NamedFetchValues` | crates/greenlit-app/src/vars.rs:360-370 | Appending the fetched entries overrides no local value |
| `Vars.CompleteFetchResolves` | crates/greenlit-app/src/vars.rs:360-390 | Whatever was fetched and whatever the dotenv list holds, the second pass succeeds exactly when every literal name that is missing locally was fetched and all values can be stored |
| `Vars.CompleteFetchValues` | crates/greenlit-app/src/vars.rs:360-390 | Then command line and process values beat fetched ones, and fetched ones are used before the dotenv list |
| `Vars.LocalBeatsRemote` | crates/greenlit-app/src/vars.rs:360-362 | Appending overrides no local value exactly when nothing fetched contradicts a dotenv entry that is in force |
| `Vars.EnumeratedLast` | crates/greenlit-app/src/vars.rs:377-390 | The entries of a fetched map say the value under one of a name's spellings |
| `Vars.CanonicalLast` | crates/greenlit-app/src/vars.rs:377-390 | With names in capitals, as GitHub stores them, it is the value under the name, repository before organization |
| `Vars.MixedUseStaysMissing` | crates/greenlit-app/src/vars.rs:362-390 | A concrete workflow with a literal and a whole-map use in which a name GitHub lacks stays missing instead of becoming empty |
| `Vars.SecondLookup` | crates/greenlit-app/src/vars.rs:360-362 | Every name's lookup in the second pass, and that the candidates stay the same |
| `Vars.FetchedNames` | crates/greenlit-app/src/vars.rs:395-416 | What was fetched speaks of exactly the missing names, whatever their spelling |
| `Vars.IndexLast` | crates/greenlit-app/src/vars.rs:89-95 | The index holds the last assignment to each name, in any spelling |
| `Vars.IndexProcessValues` | crates/greenlit-app/src/vars.rs:108-137 | The one scan of the environment finds each candidate's value, or that it is ambiguous or not Unicode |
| `Vars.ResolveOne` | crates/greenlit-app/src/vars.rs:139-154 | The first source that knows the name, other names' process values untouched |
| `Vars.ExtractLiterals` | crates/greenlit-app/src/vars.rs:177-196 | The first spelling and use of every valid literal name, and the invalid ones |
| `Vars.Visit` | crates/greenlit-app/src/vars.rs:211-259 | One name: looked up, filed, and its process value taken out of the index without harm to the names to come |
| `Vars.FetchNamed` | crates/greenlit-app/src/vars.rs:395-416 | One answer per missing name: repository, organization or empty |
| `Vars.FetchCompleteMap` | crates/greenlit-app/src/vars.rs:377-390 | Organization entries overlaid by repository entries, each key once |
| `Base64.Base64Url` | crates/greenlit-app/src/runtime_token.rs:79-99 | The output spells the input in groups of six bits, without padding, and has the length RFC 4648 prescribes |
| `Base64.Base64Encode` | crates/greenlit-app/src/github_confirmation.rs:815-836 | The same in the standard alphabet, padded to groups of four characters |
| `Base64.Decode` | crates/greenlit-app/src/runtime_token.rs:175-193 | The decoder yields the bytes the groups pour into, although its 32-bit buffer is never cleared |
| `Base64.RoundTrip` | crates/greenlit-app/src/runtime_token.rs:79-193 | Every byte string comes back from either encoding |
| `Base64.PourBack` | crates/greenlit-app/src/runtime_token.rs:175-193 | Cutting bytes into groups of six bits and collecting bits again gives the bytes back |
| `Base64.EncodersAgree` | crates/greenlit-app/src/github_confirmation.rs:815-836 | The encodings differ in two characters of the alphabet and in the padding only |
| `Base64.SameNumber` | crates/greenlit-app/src/runtime_token.rs:79-101 | The six-bit groups write the same number as the bytes, with four or two zero bits to fill the last group |
| `Base64.Alphabets` | crates/greenlit-app/src/runtime_token.rs:80-82 | Both alphabets, written out |
| `Base64.EncodingsDiffer` | crates/greenlit-app/src/runtime_token.rs:79-99 | Different byte strings have different encodings |
| `ObjectValue.New` | crates/greenlit-expr/src/value.rs:189-228 | For every entry list and key policy the object has the first spellings in order with the last values, the index knows each key's only position, and the repair branch is never taken |
| `ObjectValue.GetIsLinearScan` | crates/greenlit-expr/src/value.rs:232-242 | A lookup gives the value of the last entry with an equivalent key |
| `ObjectValue.IterationIsDetermined` | crates/greenlit-expr/src/value.rs:245-247 | Iteration shows each key once and is determined by the entry list |
| `ObjectValue.LastValueSays` | crates/greenlit-expr/src/value.rs:189-230 | The scan yields the value of the last entry with an equivalent key |
| `ObjectValue.FirstSpellingsSay` | crates/greenlit-expr/src/value.rs:189-230 | The keys are those of the entries that are the first with theirs, in order |

## Left out

- Docker, registry authentication, HTTP, mounting, processes, sockets, the daemon, command-line rendering and error texts: foreign calls and presentation.
- The expression parser, partial evaluation, matrix expansion, what the built-in functions compute, artifact and cache stores, `read_recent`: not part of this model.
- Reading and writing failures of the host's file system are modelled where the code decides something on them (`SourceCapture` reads, `MetricsLog` torn writes, `OciCache` damaged objects); other I/O errors, file locks and permissions are not.
- SHA-256 is an arbitrary function; the theorems that need it assume that it is injective.
- Job indices, counters and sizes are unbounded; `Tarjan.NextBounded` shows that the planner's 32-bit counters stay below the number of jobs. Job ids are assumed distinct where a theorem says so, as the keys of a YAML mapping are.
- The binary heap is a set with extraction of the least element, hash maps and sets are maps and sets, a `BTreeSet` is its ascending list.
- `Prune`: the matrix selection and `write_back` part of `prune_to_job` after line 817 is not modelled.
- `SourceCapture`: the bytes of one file are read at one moment (its metadata at an earlier one); the clone of the Git metadata, failing writes into the checkout, paths that are not UTF-8, and the digest of the serialized manifest are not modelled. The manifest itself is compared.
- `MetricsRecord`: numbers keep their text, so the ranges of the integer types and the printing of floating-point values are not modelled; a record given as a JSON array instead of an object, and the check that strings are valid UTF-8, are not modelled either.
- `Json`: stands for the JSON library that the log relies on; that the library accepts no text outside its grammar is not stated.
- `MetricsLog`: a character stands for one byte; concurrent writers are excluded by the lock and not modelled.
- `Lexer`: which texts are numbers is an arbitrary predicate, and a number token keeps its text; floating-point values are not modelled.
- `EvalMemory`: a built-in function is an arbitrary rule that asks for arguments, at most once each, counts bytes and ends; which of its errors it reports is not modelled. Arrays and objects are opaque, a filtered array's identity depends only on what was filtered, and the overflow of `usize` (always above the limit) is not modelled.
- `Cancellation`: the notifier is a counter of notifications, as its documentation describes `notify_waiters`; accesses to the flag are sequentially consistent, as the code requests.
- `OciCache`: an interrupted or interleaved pair of alias updates is excluded, as is a store that keeps a damaged object when the same object is stored again; size caps of downloads are not modelled.
- `CopyIn`: ownership, permissions, reflinks and overflow of the 64-bit byte count are not modelled.
- `LogReplay`: event decoding and rendering are arbitrary functions of the line and its event, and reading a step's number is an arbitrary function of the text.
- Vars.CanonicalLast: for maps whose names are in capitals, as GitHub stores them; `Vars.EnumeratedLast` says what holds otherwise.
- Dotenv.ParseDotenv: error texts are not modelled, only the kind of error and its line.
