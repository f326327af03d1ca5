# Verified model of CodeScope's indexing core

CodeScope indexes source code. Around SQLite and tree-sitter it runs a handful of
self-contained algorithms and two concurrent protocols, and this project models those (`Basics`
holds what several modules share):

- **Node-type matcher** (`TriePaths`, `BreadthFirst`, `LongestMatch`, `AhoCorasick`). The
  automaton is a heap of nodes linked in place. The scan is proved to answer what a naive search
  over all patterns and positions answers, within the amortised bound.
- **Streaming parse pipeline** (`QueueProtocol`, `BoundedQueue`, `Pipeline`, `PipelineSafety`,
  `PipelineBatches`, `PipelineProgress`, `PipelineFacts`, `Fleet`). Static workers, temporary
  workers on cores borrowed from a pool shared by several processes, the monitor, the batching
  writer and the shutdown sequence are interleaved steps. Safety holds over every run, and every
  run can be continued to its end, whatever parses, thread starts and inserts come to. With any
  number of engine processes on one pool, each of them is in a state that a run of its own can
  reach, and no core is lost between them.
- **CST metrics** (`Ownership`, `MetricLaws`, `CstMetrics`, `RecordCounts`). The explicit-stack
  walk computes the recursive definition, which counts the nodes of each kind by owner, and
  conserves counts; the record search is shown to end exactly when there is no parent cycle
  through the function.
- **Rule JSON** (`JsonGrammar`, `JsonTheorems`, `JsonSoundness`, `JsonPrinter`, `JsonFacts`,
  `JsonParser`). The parser object follows a function on the unread text. That function accepts
  exactly the documents of a concrete grammar with every choice of spacing and escapes, and
  inverts a printer; the characters it knows are told by their codes.
- **Ignore rules and discovery** (`Glob`, `GlobShapes`, `PathComponents`, `Gitignore`,
  `IgnoreFacts`, `ClosedRules`, `SkipPolicy`, `SkipFacts`, `DiscoveryTree`, `DiscoveryOrder`,
  `DiscoveryWalk`, `IgnoredTrees`). The glob matcher decides the language of its pattern, the rule
  verdict is characterized, it is determined from the pattern which rules match everything below
  what they match, and the trees for which the order of enumeration shows in what the pruned walk
  collects are determined exactly. What the rules ignore is never collected, and it is shown when
  asking about a path alone answers as the walk does.
- **Graph builder** (`RecordGraph`, `RecordFacts`, `GraphBuilder`, `CallGraphLaws`). The cached
  parent walk agrees with the uncached one, cycles included; call edges are those of a layered
  specification and do not depend on record order or numbering, unless declarations share ids.
- **Evidence combine modes** (`Picking`, `EvidenceCombine`). Collecting, and the flat and grouped
  missing-match modes and their agreement.
- **Background knowledge builder** (`BuilderProtocol`, `BuilderFacts`, `BuilderSafety`,
  `BuilderDeadlock`). The thread handle, the recursive store mutex and the two completion flags,
  for any number of entry-point threads.

The modules named after facts say the same things again from outside: in characters, positions and
records instead of the definitions that code and specification share, with concrete examples.

Each atomic operation and each stretch of code under one lock is one step; timeouts, spurious wakeups
and which sleeper is notified are free choices.

## Where the code and its own words differ

The model follows the code; these results say where the comments promise something else.

- `filter_policy_ignore.cpp:139-140` says that a branch which meets the recursion cap only gives up
  itself and others may still match. Recursion depth is a function of the pattern position, so a
  pattern with nine or more `**` matches nothing (`Glob.CapLosesMatches`, `Glob.NineDeepsLoseEverything`).
- A negated ignore rule never un-ignores anything: the verdict is that some other rule matches
  (`Gitignore.DiffersExactlyWhenReinstated`, with `Gitignore.BuildStaysIgnored` as an example).
- `filter_policy_ignore.cpp:71-72` says that ignoring a directory ignores everything under it. The
  code has it so for rules that are for directories only; for other rules it depends on the pattern
  (`ClosedRules.LiteralClosedExactly`, `ClosedRules.BasenameClosedExactly`,
  `ClosedRules.WholePathClosedExactly`). The walk prunes all the same, but a single question about
  a path can then get another answer (`IgnoredTrees.OneQuestionExactly`, `IgnoredTrees.ListClosedExactly`,
  with `IgnoredTrees.AnchoredRuleNeedsTheWalk` as an example).
- `graph_builder.cpp:468` calls the qualified name precise, with no falling back to the bare name. It
  does fall back when the only bearer of the qualified name is the caller itself
  (`RecordGraph.QualifiedIsPreciseUnlessSelf`, `RecordGraph.SelfCallReachesAStranger`).
- `engine_index_project.cpp:390` says that the writer gathers more items without blocking. The inner
  `pop` blocks, and the model has it so.
- `engine_index_metrics.cpp:340-342` promises the innermost function. Among functions that start
  at the same byte the sort leaves the order open, and then it can be the outer one
  (`Ownership.TwinsCanHideTheInner`); `Ownership.AlwaysInnermostExactly` says for which lists.
- `async_knowledge.cpp:523-525` relies on the join inside a launch. With two entry points at once
  it can wait for ever for a builder that waits for the launch itself; with one it never waits
  (`BuilderDeadlock.NeverWaitsExactlyWhenOneAtATime`).
- `evidence_builder.cpp:396-399` speaks of `needs[1]`; the code excludes by every optional need after the
  first and not by a second need that is not. `EvidenceCombine.SecondDecidesForAllFacts` says for which
  rules that is the same.
- A Java file spelled `X.JAVA` flips the language context in the middle of the walk, which can make
  the order of enumeration visible (`DiscoveryOrder.UnspelledJavaMakesOrderVisible`). It does exactly when
  the tree also holds a file that is kept in the Java context only
  (`DiscoveryOrder.OrderIsVisibleExactlyWhenTorn`).
- `rule.cpp:360-364` speaks of UTF-8 for the basic plane. A surrogate gets bytes that are not well-formed,
  and the lenient `std::stoul` can yield a larger code, of which bits are lost (`JsonPrinter.Utf8IsExact`).

## Model

| member | source | states |
|---|---|---|
| TriePaths.SuffixMeaning | engine/src/ahocorasick.h:77-118 | The suffix order used for the links, defined by recursion on trie paths, is the ordinary suffix order on byte strings |
| TriePaths.LinksAreLongest | engine/src/ahocorasick.h:98-116 | Among all proper suffixes of a word, the failure target is at least as long as every one that is stored, and the dictionary link at least as long as every one that is a pattern |
| TriePaths.FailStep | engine/src/ahocorasick.h:98-102 | A failure-chain search may skip from a node without a child to its failure target and still reach the longest stored suffix |
| TriePaths.OutViaFail | engine/src/ahocorasick.h:109-115 | The dictionary link follows from the failure target alone: that node if it is a pattern and not the root, else its own dictionary link |
| BreadthFirst.Advance | engine/src/ahocorasick.h:91-117 | Expanding the head of the queue keeps it distinct, ordered by depth and closed |
| BreadthFirst.ShallowIsQueued | engine/src/ahocorasick.h:91-117 | Every node no deeper than the one being expanded has been queued, so every link the pass reads is final |
| AhoCorasick.Automaton.AddPattern | engine/src/ahocorasick.h:58-71 | The pattern maps to the id given last, the trie gains exactly its prefixes, the empty pattern changes nothing, and the trie invariant is kept |
| AhoCorasick.Automaton.Insert | engine/src/ahocorasick.h:63-69 | The insertion loop reaches the node of the pattern and adds just the missing prefixes |
| AhoCorasick.Automaton.ChainSearch | engine/src/ahocorasick.h:97-101 | The failure-chain loop ends at the node whose child is the failure target of the new node, reading only links of nodes no deeper than its parent |
| AhoCorasick.Automaton.LinkChild | engine/src/ahocorasick.h:97-115 | A child gets both final links; no link that was final changes |
| AhoCorasick.Automaton.Build | engine/src/ahocorasick.h:77-118 | For every node: failure link to the longest proper suffix in the trie, dictionary link to the longest proper suffix that is a pattern, null if there is none |
| AhoCorasick.Automaton.NextState | engine/src/ahocorasick.h:143-146 | One character leads to the longest stored suffix of the text read; failure steps are paid for by lost depth |
| AhoCorasick.Automaton.Collect | engine/src/ahocorasick.h:151-156 | The dictionary chain weighs exactly the patterns ending here, in as many link steps as there are shorter patterns ending here |
| AhoCorasick.Automaton.MatchCString | engine/src/ahocorasick.h:128-158 | The id of the longest pattern occurring in the text up to its first NUL, earliest-ending among equals, 0 exactly when none occurs, 0 for a null pointer; failure steps at most the characters read |
| AhoCorasick.Automaton.Match | engine/src/ahocorasick.h:160-163 | The same for a string, cut at its first NUL |
| LongestMatch.AnswerIsUnique | engine/src/ahocorasick.h:120-127 | The naive specification determines the answer |
| LongestMatch.FinishedScan | engine/src/ahocorasick.h:128-158 | The best hit of a finished scan over trie paths is the answer of the naive search over substrings |
| LongestMatch.ShorterPatternsStep | engine/src/ahocorasick.h:151-156 | One dictionary link passes exactly one of the shorter patterns that end here |
| QueueProtocol.StepKeepsInv | engine/src/engine_internal.h:165-239 | Size within capacity, FIFO order and the absence of lost wakeups are kept by every step of every thread, whoever `notify_one` wakes and with spurious wakeups |
| QueueProtocol.QueueRunKeepsInv | engine/src/engine_internal.h:153-255 | The same over every run of any number of threads whose batch calls ask for at least one element |
| QueueProtocol.AllAsleepMeansOneSided | engine/src/engine_internal.h:165-220 | When all threads inside the queue sleep, it is open and they all wait on the same side: producers on a full queue or consumers on an empty one |
| QueueProtocol.EmptyBatchLosesWakeup | engine/src/engine_internal.h:205-220 | With a batch limit of zero a wakeup is lost: for every capacity above 0 a run after which a consumer sleeps beside an element |
| QueueProtocol.WakeupsAreSafeExactlyWithoutLimitZero | engine/src/engine_internal.h:153-255 | For every capacity above 0 and every set of allowed batch limits, no run loses a wakeup exactly when 0 is not allowed |
| BoundedQueue.Buffer.Push | engine/src/engine_internal.h:165-175 | Appends unless closed, sleeps exactly when full and open, and is a step of the protocol |
| BoundedQueue.Buffer.Pop | engine/src/engine_internal.h:185-196 | Takes the head, answers nothing exactly when closed and empty, sleeps exactly when open and empty |
| BoundedQueue.Buffer.PopBatch | engine/src/engine_internal.h:205-219 | Takes the first elements up to the limit, in order |
| BoundedQueue.Buffer.Close | engine/src/engine_internal.h:233-239 | Closes the queue, keeps its elements and wakes everybody |
| PipelineSafety.NextKeepsSafe | engine/src/engine_index_project.cpp:348-885 | The whole invariant of the pipeline is kept by every step of worker, writer, monitor and main thread, by spurious wakeups and by other processes on the pool |
| PipelineSafety.RunIsSafe | engine/src/engine_index_project.cpp:348-885 | It holds at the end of every run |
| PipelineSafety.NextKeepsJobs | engine/src/engine_index_project.cpp:475-479 | Every claimed job is in one place: in one worker's hands, delivered once, skipped, or lost to an exception; indices are claimed in order, each once |
| PipelineSafety.NoPushAfterClose | engine/src/engine_index_project.cpp:872-881 | Once the queue is closed no worker runs, no result is ever dropped, and flushed batches, current batch and queue together are the pushed results in order |
| PipelineSafety.WriterKeepsWritten | engine/src/engine_index_project.cpp:363-419 | Batches hold 1 to 50 results, the batch is empty at each outer loop head, the tail flush never runs, and the transaction is committed exactly when every insert succeeded |
| PipelineBatches.BatchesAreFull | engine/src/engine_index_project.cpp:363-419 | In every run all batches written but the last hold fifty results, and the last between one and fifty |
| PipelineSafety.CoresInEveryRun | engine/src/engine_index_sched.cpp:75-99 | Available, borrowed and others' cores add up to the initial pool in every reachable state; the temporary workers counted never exceed twice the initial allocation |
| PipelineSafety.WorkerKeepsCores | engine/src/engine_index_project.cpp:466-473 | Each worker step, on whichever exit, keeps the sum of cores and the count of temporary workers exact |
| PipelineSafety.EachCoreReturnedOnce | engine/src/engine_index_project.cpp:466-473 | In every run a temporary worker that is retiring or gone has returned exactly one core, however it left, and any other worker none |
| PipelineSafety.MonitorKeepsCores | engine/src/engine_index_project.cpp:784-854 | The monitor takes one core by compare-and-swap, below the cap, and gives it back when no thread can be started |
| PipelineSafety.FinishedIsComplete | engine/src/engine_index_project.cpp:856-885 | After the last join nothing runs and no core is borrowed; every job was claimed once and what was pushed is what was flushed, counted and in order, exactly when every index was claimed, as it was if a static worker was started |
| PipelineSafety.StaticRunIsComplete | engine/src/engine_index_project.cpp:760-885 | Without the shared pool a finished run is complete exactly when some static worker could be started or there were no jobs |
| Fleet.StepSeenByOthers | engine/src/engine_index_sched.cpp:75-99 | With several engines on one pool, a step of one of them looks to each of the others like nothing, cores taken or cores given back |
| Fleet.FleetRunConserves | engine/src/engine_index_sched.cpp:75-99 | Over every run of any number of engines the pool and all borrowed cores add up to the initial pool, and each engine is in a state it can reach in a run of its own, so every invariant above holds of it |
| Fleet.AllCoresComeBack | engine/src/engine_index_sched.cpp:75-99 | Once all engines have passed their last join the pool holds what it held at the start, and none of them has anything left |
| PipelineProgress.Progress | engine/src/engine_index_project.cpp:348-885 | Whatever is prescribed for the outcome of each parse, thread start and insert, in every safe state before the end some thread of the pipeline itself can take a step that conforms and lowers a well-founded measure |
| PipelineProgress.EveryRunCanFinish | engine/src/engine_index_project.cpp:348-885 | No run ends in a deadlock: for any prescribed outcomes of parses, thread starts and inserts, each run can be continued by the pipeline's own threads, conforming to them, to the last join |
| PipelineFacts.Yields | engine/src/engine_index_project.cpp:463-474 | A temporary worker goes when parsing is done or the pool has run dry at its check, and claims otherwise |
| PipelineFacts.Writes | engine/src/engine_index_project.cpp:363-419 | The writer inserts when it has fifty results or the queue is closed, and remembers a failed insert |
| PipelineFacts.Monitors | engine/src/engine_index_project.cpp:784-854 | The monitor goes when parsing is done, grabs a core only below twice the initial allocation and from a pool that has some, and takes exactly one |
| PipelineFacts.ShutsDown | engine/src/engine_index_project.cpp:856-885 | The main thread joins the static workers, sets done, joins the monitor, awaits the temporary workers, closes the queue and joins the writer, in that order |
| CstMetrics.UpperBound | engine/src/engine_index_metrics.cpp:345-349 | Splits the sorted functions into those starting up to the offset and those after it |
| CstMetrics.FindContainingFunc | engine/src/engine_index_metrics.cpp:343-357 | The last listed function that contains the offset, or none |
| CstMetrics.Walk | engine/src/engine_index_metrics.cpp:440-484 | Every function ends with its tally by the recursive definition: as many branches and loops as it owns nodes of either kind, and the most control-flow nodes on any stretch of a path from the root that it owns without a break |
| CstMetrics.Compute | engine/src/engine_index_metrics.cpp:440-521 | The same rows; cyclomatic is one more than branches and loops, nesting never exceeds them, cognitive is cyclomatic and nesting together, at most twice cyclomatic less one, and the counts of all functions add up to the control-flow nodes that have an owner |
| MetricLaws.TallyIsRow | engine/src/engine_index_metrics.cpp:440-484 | The recursive tally counts the nodes of kind branch, and those of kind loop, whose owner is the function, and its nesting is reached on some path and exceeded on none |
| MetricLaws.SumsByKind | engine/src/engine_index_metrics.cpp:464-484 | Over all functions the branches are the branch nodes that have an owner, and the loops the loop nodes |
| MetricLaws.OwnerIsNearest | engine/src/engine_index_metrics.cpp:454-462 | The owner of a node is the last listed function around the byte where it starts, or where the nearest node above starts that lies in any function |
| MetricLaws.OneTree | engine/src/engine_index_metrics.cpp:440-484 | A loop in a branch and in it a function with a branch: one branch, one loop and depth two for the outer, one branch for the inner |
| Ownership.NestingIsCovered | engine/src/engine_index_metrics.cpp:468-478 | The nesting depth of a function is covered by its own branches and loops |
| Ownership.TalliesCoverOwned | engine/src/engine_index_metrics.cpp:446-484 | Nothing is counted for two functions and nothing owned is missed |
| Ownership.InnermostIffNoShorterTwin | engine/src/engine_index_metrics.cpp:340-357 | For nested ranges the function found is the innermost exactly when no function with the same start and an earlier end is listed before it |
| Ownership.AlwaysInnermostExactly | engine/src/engine_index_metrics.cpp:336-357 | For a sorted list of nested ranges the innermost is found at every offset exactly when, wherever a function is listed before a longer one with the same start, each of its offsets lies in a function listed after that one |
| Ownership.DistinctStartsGiveInnermost | engine/src/engine_index_metrics.cpp:340-357 | With distinct starts it is the innermost |
| Ownership.TwinsCanHideTheInner | engine/src/engine_index_metrics.cpp:336-357 | A concrete pair of functions with one start for which it is not |
| RecordCounts.CountBelow | engine/src/engine_index_metrics.cpp:408-428 | Below a function that is not its own descendant the record search ends and counts each parameter and each call once |
| RecordCounts.SmallCounts | engine/src/engine_index_metrics.cpp:408-428 | A function with a parameter and a call within a call: one parameter and two calls |
| RecordCounts.EndsExactlyWithoutCycle | engine/src/engine_index_metrics.cpp:408-428 | The search ends exactly for functions that are not their own descendants |
| RecordCounts.OwnDescendantNeverEnds | engine/src/engine_index_metrics.cpp:412-428 | On a parent cycle through the function the stack is never empty |
| RecordCounts.OwnParentNeverEnds | engine/src/engine_index_metrics.cpp:412-428 | A record that is its own parent is such a case |
| JsonTheorems.ReadGlyphs | engine/src/evidence/rule.cpp:317-413 | Every spelling of a string, raw, escaped or `\u`, is read back as its bytes |
| JsonTheorems.ParserReadsGrammar | engine/src/evidence/rule.cpp:149-469 | Every document of the grammar, with any spacing and escapes, is read back as its meaning if its values nest at most 64 deep and refused as too deep otherwise |
| JsonFacts.EmptyArray | engine/src/evidence/rule.cpp:204-213 | Tabs, line feeds, carriage returns and spaces, told by their codes, may stand before, in and after an empty array |
| JsonFacts.NoValueBegins | engine/src/evidence/rule.cpp:215-242 | A text that begins with any character other than those, a quote, a minus, a digit, a bracket, a brace or one of f, n, t is refused there |
| JsonFacts.Words | engine/src/evidence/rule.cpp:443-469 | The three words, with white space around them, are their values |
| JsonFacts.OtherWords | engine/src/evidence/rule.cpp:443-469 | Any other text that begins like one of them is refused where it begins |
| JsonFacts.Numbers | engine/src/evidence/rule.cpp:415-442 | A number is read up to the first character that is no digit, sign, point or exponent letter, told by their codes |
| JsonFacts.Escapes | engine/src/evidence/rule.cpp:327-404 | The eight letters after a backslash give the bytes 34, 92, 47, 8, 12, 10, 13 and 9; any other but u is refused |
| JsonFacts.OtherGlyphs | engine/src/evidence/rule.cpp:317-326 | A quote ends a string, any other character but a backslash stands for itself |
| JsonFacts.UnicodeGlyphs | engine/src/evidence/rule.cpp:359-401 | Four characters after the letter u go to the host; fewer are an unterminated escape |
| JsonFacts.TwoElements | engine/src/evidence/rule.cpp:288-315 | Two elements with any white space, separated by a comma |
| JsonFacts.TwoMembers | engine/src/evidence/rule.cpp:244-286 | Two members under one key with any white space: both are kept, in order |
| JsonFacts.WrongSeparators | engine/src/evidence/rule.cpp:149-315 | Any other character where a comma, a bracket, a key or the end must be is refused with its own message and offset |
| JsonFacts.WrongAfterMember | engine/src/evidence/rule.cpp:262-285 | So it is after a member; the same holds after a key and after a comma |
| JsonFacts.SixtyFourDeep | engine/src/evidence/rule.cpp:175-190 | Arrays inside one another are read exactly up to sixty-four |
| JsonSoundness.AcceptsExactlyTheDocuments | engine/src/evidence/rule.cpp:149-469 | The parser answers a value exactly for the documents that mean it and nest at most 64 deep |
| JsonSoundness.TreeOf | engine/src/evidence/rule.cpp:215-242 | From every accepted value the spacing and syntax tree that were read can be recovered |
| JsonPrinter.RoundTrip | engine/src/evidence/rule.cpp:149-166 | Parsing a printed value gives it back, member order and duplicate keys kept, exactly when nothing is nested more than 64 deep; deeper ones are refused as too deep |
| JsonPrinter.PrintIsInjective | engine/src/evidence/rule.cpp:149-166 | Values that print alike are equal, even if they are nested too deep to be read back |
| JsonPrinter.Utf8IsExact | engine/src/evidence/rule.cpp:384-398 | The bytes written for a code are the encoding that sections 3 and 4 of RFC 3629 give it exactly when it is a code point of the basic plane and no surrogate, and decoding undoes it |
| JsonPrinter.Utf8IsInjective | engine/src/evidence/rule.cpp:384-398 | Surrogates included, no two codes of four hexadecimal digits are written alike |
| JsonParser.Parser.Parse | engine/src/evidence/rule.cpp:149-166 | The object answers what the function on the unread text answers, with the cursor never moving back, the depth back at zero and the first error kept with its offset |
| JsonParser.Parser.ParseValue | engine/src/evidence/rule.cpp:215-242 | The same for a value at any depth; the depth counter is restored on success and on error |
| JsonParser.Parser.ParseObject | engine/src/evidence/rule.cpp:244-286 | Members up to the closing brace, in order; on failure the first error and its offset |
| JsonParser.Parser.ParseArray | engine/src/evidence/rule.cpp:288-315 | Elements up to the closing bracket, in order; on failure the first error and its offset |
| JsonParser.Parser.ParseString | engine/src/evidence/rule.cpp:317-413 | The decoded bytes, or which escape or end was wrong and where |
| JsonParser.Parser.ParseUnicode | engine/src/evidence/rule.cpp:359-401 | Four characters through the host conversion, with any unsigned 32-bit result, to the bytes written for it; the two failures told apart |
| JsonParser.Parser.ParseNumber | engine/src/evidence/rule.cpp:415-442 | The longest run of number characters, taken whole or refused by the host conversion |
| JsonParser.Parser.SkipWhitespace | engine/src/evidence/rule.cpp:204-213 | Skips exactly the leading white space |
| JsonParser.Parser.Fail | engine/src/evidence/rule.cpp:197-202 | Only the first error is kept |
| Glob.LanguageIsReadings | engine/src/filter_policy_ignore.cpp:129-171 | The recursive language of a pattern is the set of strings that can be cut into one fitting part for each token |
| Glob.GlobImpl | engine/src/filter_policy_ignore.cpp:129-171 | From any pattern position, path position and depth, true exactly when the rest of the path is in the language of the rest of the pattern and its `**` tokens fit under the cap |
| Glob.GlobMatch | engine/src/filter_policy_ignore.cpp:115-119 | A pattern matches exactly the strings of its language, if it has at most eight `**` tokens |
| Glob.CapLosesMatches | engine/src/filter_policy_ignore.cpp:127-142 | A pattern matches no string at all exactly when it has more than eight `**` tokens, and only then are strings of its language lost |
| Glob.NineDeepsLoseEverything | engine/src/filter_policy_ignore.cpp:127-142 | A pattern of nine `**` between slashes: every string is in its language and none is matched |
| PathComponents.StandsIffRun | engine/src/filter_policy_ignore.cpp:44-69 | A string occurs in a path between ends or slashes exactly when its components are a run of the path's components |
| PathComponents.PlainIsComponents | engine/src/filter_policy_ignore.cpp:44-69 | No slash first, last or beside another: the paths with no empty component |
| Gitignore.FindStanding | engine/src/filter_policy_ignore.cpp:44-69 | The search over all occurrences finds such a run exactly when there is one |
| Gitignore.MatchesOne | engine/src/filter_policy_ignore.cpp:25-70 | One rule against one path: glob on the whole path or the last component, equality when anchored, a run of whole components otherwise |
| Gitignore.AncestorMatches | engine/src/filter_policy_ignore.cpp:84-91 | True exactly when the rule matches some directory above the path |
| Gitignore.GitignoreMatches | engine/src/filter_policy_ignore.cpp:19-113 | An entry is ignored exactly when some rule that is not negated matches it, or for a directory rule matches a directory above it |
| IgnoreFacts.VerdictMeans | engine/src/filter_policy_ignore.cpp:19-113 | The same told in characters: a rule asks for a name after the last slash, the whole path, or a stretch between ends or slashes; a directory rule asks for directories, or for the path up to some slash |
| IgnoreFacts.FilesOnlyThroughDirectories | engine/src/filter_policy_ignore.cpp:69-90 | A directory rule ignores a file exactly when it ignores some directory above it |
| IgnoreFacts.DirectoryLine | engine/src/filter_policy_ignore.cpp:69-103 | The line `name/` ignores directories of that name at any depth and what is in them, but no file of that name at the root and no other name |
| IgnoreFacts.AnchoredOrNot | engine/src/filter_policy_ignore.cpp:42-68 | `/a` ignores `a` and not `b/a`; `a` ignores both and `b/a/c`, and not `ba` |
| Gitignore.VerdictIgnoresOrder | engine/src/filter_policy_ignore.cpp:104-112 | Rule order, repetitions and negated rules cannot change the verdict |
| Gitignore.MoreRulesIgnoreMore | engine/src/filter_policy_ignore.cpp:180-214 | Appending rules ignores what either list ignores |
| Gitignore.DirectoryRuleIsClosedBelow | engine/src/filter_policy_ignore.cpp:73-103 | A directory rule that matches a directory matches everything below it |
| Gitignore.LiteralRuleIsClosedBelow | engine/src/filter_policy_ignore.cpp:44-69 | So does an unanchored rule without wildcards |
| ClosedRules.LiteralClosedExactly | engine/src/filter_policy_ignore.cpp:25-103 | On the paths of a walk, whose components are not empty: a rule without wildcards matches everything below each directory it matches exactly when it is for directories, not anchored, or names no such path |
| ClosedRules.BasenameClosedExactly | engine/src/filter_policy_ignore.cpp:29-38 | A wildcard rule matched against the last component does so exactly when it matches every name or none: its pattern is `*` and `**` with at most one `?`, or empty, or has more than eight `**` |
| ClosedRules.WholePathClosedExactly | engine/src/filter_policy_ignore.cpp:39-40 | A wildcard rule matched against the whole path does so exactly when after its last `**` there are only `*`, `?` and slashes, with a `*` after each slash before the next and no blunt end, or when it matches no path of a walk |
| ClosedRules.WholePathNotClosed | engine/src/filter_policy_ignore.cpp:39-40 | One half of that for all patterns: a literal after the last `**`, a component there without `*`, a blunt end or no `**` at all leaves something below unmatched |
| GlobShapes.GrowsBelow | engine/src/filter_policy_ignore.cpp:129-171 | With a `**` and such tokens after the last one, every path below a word of the language is a word |
| GlobShapes.PlainWordExists | engine/src/filter_policy_ignore.cpp:129-171 | The language of a pattern has a path with no empty component exactly when no slash of its tokens comes first, last or beside another |
| ClosedRules.NamesOfBothKinds | engine/src/filter_policy_ignore.cpp:29-38 | `*` and `?*` do, `*.o` does not |
| ClosedRules.PathsOfBothKinds | engine/src/filter_policy_ignore.cpp:39-40 | `/**` and `**/*/*` do, `/*` and `**/*.o` do not |
| ClosedRules.BluntEndIsNotClosed | engine/src/filter_policy_ignore.cpp:39-40 | `**/*/??*` does not |
| Gitignore.DiffersExactlyWhenReinstated | engine/src/filter_policy_ignore.cpp:104-112 | The verdict differs from that of the last matching rule exactly when the last match is negated and an earlier one is not |
| Gitignore.NegationDoesNotReinstate | engine/src/filter_policy_ignore.cpp:104-112 | For every rule and every entry it matches, the rule followed by its negation leaves the entry ignored, against the last match |
| Gitignore.BuildStaysIgnored | engine/src/filter_policy_ignore.cpp:104-112 | The lines `build` and `!build` leave `build` ignored |
| SkipPolicy.ShouldSkipDir | engine/src/filter_policy.cpp:752-779 | A name in the active set is skipped unless Java guards it, any other name if a prefix starts it; every spelling that differs in case only gets the same answer |
| SkipPolicy.CaseDoesNotMatter | engine/src/filter_policy_detect.cpp:141-208 | Paths that differ in case only are skipped alike by name |
| SkipPolicy.ShouldSkipDirPrefix | engine/src/filter_policy.cpp:781-790 | True exactly when some prefix of the set starts the name |
| SkipPolicy.ShouldSkipPath | engine/src/filter_policy_detect.cpp:141-267 | Skipped by a name anywhere, by a name among the first three components, or by the rules that do not depend on the language |
| SkipFacts.SkipsMeans | engine/src/filter_policy_detect.cpp:141-267 | The whole rule in one piece: names anywhere, names among the first three components, and the other rules |
| SkipFacts.LowerByCode | engine/src/filter_policy.cpp:755-758 | Lower case adds 32 to the codes 65 to 90 and changes no other |
| SkipFacts.DeepSamples | engine/src/filter_policy_detect.cpp:154-168 | A package component `samples` below the first three is kept in a Java project and skipped in others; near the top it is skipped in both |
| SkipPolicy.JavaOnlyRemovesSkips | engine/src/filter_policy.cpp:757-770 | The Java context skips nothing that other projects keep, given that guarded names are active or top-only ones |
| SkipPolicy.JavaRemovesExactly | engine/src/filter_policy_detect.cpp:154-208 | It keeps, of what they skip, exactly the paths with a guarded name below the first three components and no other reason |
| DiscoveryTree.SteadyVisitAll | engine/src/engine_index_discover.cpp:204-340 | While the language context stays, the walk collects, in enumeration order, exactly the accepted files for which neither they nor a directory above is skipped |
| SkipFacts.VisitFileMeans | engine/src/engine_index_discover.cpp:229-330 | A file becomes a job exactly when it is no root readme, not skipped, not up to date and of an accepted language; a Java file that gets as far as its language flips the context |
| DiscoveryTree.FlipsExactly | engine/src/engine_index_discover.cpp:305-317 | A walk started outside the Java context ends in it exactly when some Java file can be reached without it |
| DiscoveryOrder.CollectedIsKept | engine/src/engine_index_discover.cpp:204-340 | Whatever the walk collects, from either context and with the flip wherever it falls, is kept in the Java context |
| DiscoveryOrder.KeptIsCollected | engine/src/engine_index_discover.cpp:204-340 | Whatever is kept outside the Java context is collected |
| DiscoveryOrder.SameUnlessTorn | engine/src/engine_index_discover.cpp:184-340 | Two enumerations that list the same files collect the same ones unless the tree holds, outside the Java context and without a `.java` file, both a reachable Java file and a file kept in the Java context only |
| DiscoveryOrder.OrderIsVisibleExactlyWhenTorn | engine/src/engine_index_discover.cpp:184-340 | Two enumerations of a directory tree collect different files exactly in that case |
| DiscoveryOrder.UnspelledJavaMakesOrderVisible | engine/src/engine_index_discover.cpp:305-317 | A tree with `X.JAVA` and `a/b/c/test/x.py` is such a case |
| IgnoredTrees.IgnoredIsNeverCollected | engine/src/filter_policy_detect.cpp:212-226 | No collected file is ignored by the rules and none lies in a directory they ignore, whatever the language context does during the walk |
| IgnoredTrees.OneQuestionExactly | engine/src/engine_filter_ffi.cpp:68-80 | Asking about one path alone answers as asking about every directory above it too, for all names and prefixes, exactly when the list ignores everything below what it ignores |
| IgnoredTrees.ListClosedExactly | engine/src/filter_policy_ignore.cpp:25-112 | A list whose rules are for directories or without wildcards does so exactly when whatever an anchored rule names is also matched by a directory rule or one that is not anchored |
| IgnoredTrees.ClosedRulesMakeClosedList | engine/src/filter_policy_ignore.cpp:73-112 | Any list does so if each of its rules does |
| IgnoredTrees.DirectoryRulesNeedOneQuestion | engine/src/filter_policy_ignore.cpp:73-103 | In particular if all rules are for directories or literal and not anchored: a file in an ignored directory is skipped when asked about alone |
| IgnoredTrees.AnchoredRuleNeedsTheWalk | engine/src/engine_filter_ffi.cpp:68-80 | With the line `/a` it is not so: `a/b` asked about alone is not skipped, though the walk prunes `a` |
| DiscoveryWalk.FilterPolicy.ApplyProjectLanguageContext | engine/src/filter_policy.cpp:800-822 | The context becomes Java exactly when the tree holds a `.java` file, skipped or not |
| DiscoveryWalk.FilterPolicy.Walk | engine/src/engine_index_discover.cpp:204-340 | The stack-driven pruned walk collects and flips as the recursive definition does |
| DiscoveryWalk.FilterPolicy.VisitRegular | engine/src/engine_index_discover.cpp:229-340 | One file: no job or this one; a job only if the file is neither skipped nor up to date and its language is accepted; a Java file flips the context for good, accepted or not |
| DiscoveryWalk.FilterPolicy.CollectFileJobs | engine/src/engine_index_discover.cpp:169-340 | The context ends as Java exactly when it was, or some file is spelled `.java`, or a Java file can be reached outside it; without such a flip the jobs are exactly the kept files, and always they lie between those kept in the two contexts |
| RecordGraph.NearestIsUnique | engine/src/graph/graph_builder.cpp:627-672 | The nearest ancestor with a node is determined by parent links and nodes |
| RecordGraph.CycleHasNone | engine/src/graph/graph_builder.cpp:643-650 | A walk that comes back to itself has met every id it ever will, so the answer is none |
| RecordGraph.NoArityClash | engine/src/graph/graph_builder.cpp:473-508 | A call resolved by its bare name never reaches a candidate known to take another number of arguments |
| RecordGraph.QualifiedIsPreciseUnlessSelf | engine/src/graph/graph_builder.cpp:455-470 | A qualified call keeps to its qualified name exactly when another node bears it or the bare name leads nowhere |
| RecordGraph.SelfCallReachesAStranger | engine/src/graph/graph_builder.cpp:455-508 | A recursive qualified call with an edge to another function of the same bare name |
| RecordGraph.MultimapOrderIsInvisible | engine/src/graph/graph_builder.cpp:457-507 | The order in which the multimaps yield their entries cannot change what a call resolves to |
| RecordFacts.ResolutionByRecords | engine/src/graph/graph_builder.cpp:440-509 | Through an index of the records, a call leads to its resolved reference, else to the other named declarations of its qualified name, else to those of its bare name with its number of arguments, else to those whose number is not known |
| RecordFacts.CallEdgesByRecords | engine/src/graph/graph_builder.cpp:409-438 | There is an edge from the node around each call record to each node that the call leads to, and no other |
| RecordFacts.ContainsEdgesByRecords | engine/src/graph/graph_builder.cpp:330-365 | There is an edge to each record with a node from the nearest other node around it, and no other |
| RecordFacts.WhatDeclares | engine/src/graph/graph_builder.cpp:324-340 | Declarations and variables declare, except a variable with neither name nor parent |
| RecordFacts.OneCall | engine/src/graph/graph_builder.cpp:395-509 | A unit with two functions of one name: the call graph is the one edge to the function whose number of arguments fits |
| GraphBuilder.Builder.AddGraphEdge | engine/src/graph/graph_builder.cpp:290-307 | Adds the edge unless it is there; edges stay distinct and consecutively numbered |
| GraphBuilder.Builder.AddGraphNode | engine/src/graph/graph_builder.cpp:602-625 | An id that has a node changes nothing; else one node is added, the id and its alias lead to it, all other ids lead where they did, and no two nodes are made from one id |
| GraphBuilder.Builder.FindContainingFunction | engine/src/graph/graph_builder.cpp:627-672 | The cached lookup answers what the uncached walk answers, for any parent links, and keeps every cached answer right |
| GraphBuilder.Builder.Walk | engine/src/graph/graph_builder.cpp:643-667 | The walk ends on cycles and dangling ids too and answers the nearest ancestor with a node, else 0 |
| GraphBuilder.Builder.BuildSymbolGraph | engine/src/graph/graph_builder.cpp:311-365 | For any unit: one node, numbered in order, for each declaration whose id no earlier one claims; every id or alias leads to the last node that claims it; an edge from the nearest enclosing node to each record with a node, unless they are the same, and no other |
| GraphBuilder.MadeLaws | engine/src/graph/graph_builder.cpp:602-625 | Every declaration's id has a node, nodes come from declarations only, and no node is made for an id that was claimed before |
| GraphBuilder.FirstOfTwins | engine/src/graph/graph_builder.cpp:602-625 | Of two declarations with one id the first gets the node, so there the order of records shows |
| GraphBuilder.Builder.BuildCalleeIndex | engine/src/graph/graph_builder.cpp:679-703 | Holds the records with a node and a name, by qualified name and by name with arity, and nothing else |
| GraphBuilder.Builder.ResolveCallEdges | engine/src/graph/graph_builder.cpp:440-509 | Adds exactly the edges of the layered resolution of one call |
| GraphBuilder.Builder.BuildCallGraphImpl | engine/src/graph/graph_builder.cpp:409-438 | For every call record and the node around it, the edges to the nodes it resolves to are there, and no others, with no duplicates |
| GraphBuilder.Builder.BuildCallGraph | engine/src/graph/graph_builder.cpp:395-400 | The same over an index of the unit's own declarations, told of the records alone |
| CallGraphLaws.ResolutionRenumbers | engine/src/graph/graph_builder.cpp:440-509 | Resolution does not see how nodes are numbered |
| CallGraphLaws.SameCallGraph | engine/src/graph/graph_builder.cpp:409-438 | For any two units with the same records and parent links whose nodes are shared by the same ids, the call graphs are the same but for numbering |
| CallGraphLaws.OrderIsInvisibleUnlessShared | engine/src/graph/graph_builder.cpp:311-438 | Read as pairs of ids, the call graph is the same for every order of the records if no id is claimed by two different declarations, aliases included |
| CallGraphLaws.OrderIsInvisible | engine/src/graph/graph_builder.cpp:409-438 | In particular for units as the visitors build them, whose records fix the parent links as well |
| CallGraphLaws.EdgesJoinDeclarations | engine/src/graph/graph_builder.cpp:395-438 | Every call edge of a unit joins two different nodes, and each of them was made from a declaration of the unit |
| EvidenceCombine.MinConfidence | engine/src/evidence/evidence_builder.cpp:329-337 | The least confidence, 1 for no facts |
| EvidenceCombine.CombineCollect | engine/src/evidence/evidence_builder.cpp:368-394 | Nothing if no need that is not optional has a fact; else one finding with the facts of such needs, each id with its first bearer by need and position, in that order, and the least of their confidences |
| EvidenceCombine.CollectedIds | engine/src/evidence/evidence_builder.cpp:376-382 | The ids collected are exactly those of the facts of needs that are not optional |
| EvidenceCombine.FirstsAreFirst | engine/src/evidence/evidence_builder.cpp:376-382 | Collected facts have distinct ids and each id comes with the first fact that bears it |
| EvidenceCombine.FirstsKeepIds | engine/src/evidence/evidence_builder.cpp:376-382 | No id is lost |
| EvidenceCombine.CombineMissingMatch | engine/src/evidence/evidence_builder.cpp:400-435 | One finding with just those facts of the first need, in order, for whose function no later optional need has a fact, with the least of their confidences; nothing if there are none |
| EvidenceCombine.CombineMissingMatchPerFunction | engine/src/evidence/evidence_builder.cpp:444-487 | Of the same facts, one finding for each function in first-seen order, with all facts of that function in order and the least of their confidences |
| EvidenceCombine.SecondDecidesExactly | engine/src/evidence/evidence_builder.cpp:396-425 | Excluding by the second need alone leaves the same facts exactly when both ways agree on the functions of the first need |
| EvidenceCombine.SecondDecidesForAllFacts | engine/src/evidence/evidence_builder.cpp:396-425 | For a rule they agree whatever the store holds exactly when there is one need, or the second is optional and no later one is |
| EvidenceCombine.FindingsPartition | engine/src/evidence/evidence_builder.cpp:463-486 | The grouped findings hold the surviving facts, each as often as before |
| EvidenceCombine.FindingIsOfOneFunction | engine/src/evidence/evidence_builder.cpp:474-486 | A grouped finding holds all surviving facts of one function that is not excluded, in order, with no lower confidence than the flat finding |
| EvidenceCombine.EmptyTogether | engine/src/evidence/evidence_builder.cpp:400-487 | One mode answers nothing exactly when the other does |
| EvidenceCombine.LeastConfidenceAgrees | engine/src/evidence/evidence_builder.cpp:400-487 | The least confidence of the grouped findings is that of the flat one: none is lower and one is equal |
| BuilderSafety.StepKeepsInv | engine/src/async_knowledge.cpp:518-651 | Owners of both mutexes, the meaning of both flags and of the thread handle are kept by every step of any number of entry points and builders, timeouts included |
| BuilderSafety.BuilderIsAloneAndKeptOut | engine/src/async_knowledge.cpp:536-593 | While a builder lies between claim and clearing of the running flag there is no other such builder and no claim; while one works or is between its two completion stores no entry point holds the store |
| BuilderSafety.EntryPointsExclude | engine/src/async_knowledge.cpp:633-651 | At most one entry point uses the store at a time |
| BuilderSafety.FlagsTellTheTruth | engine/src/async_knowledge.cpp:545-593 | Done means that every builder has passed both completion stores; with no handle and no timed-out join behind, every builder has returned |
| BuilderSafety.LaunchAfterItsJoinNeverWaits | engine/src/async_knowledge.cpp:523-527 | The join inside a launch finds no thread if no other entry point has launched since this one joined |
| BuilderFacts.Launches | engine/src/async_knowledge.cpp:518-541 | A launch, step by step: it takes the thread mutex, drains the handle and claims the running flag |
| BuilderFacts.Builds | engine/src/async_knowledge.cpp:550-593 | A builder, step by step: it takes the free store, clears running before it sets done, and lets go |
| BuilderFacts.Reaps | engine/src/async_knowledge.cpp:596-626 | A join, step by step: it waits for done and then for the thread under the thread mutex, and leaves no handle |
| BuilderFacts.GivesUp | engine/src/async_knowledge.cpp:610-623 | A join that times out lets the builder go |
| BuilderDeadlock.NeverWaitsExactlyWhenOneAtATime | engine/src/async_knowledge.cpp:518-626 | In the reachable states of n entry-point threads no launch waits for a thread that has not returned, exactly when n is at most one |
| BuilderDeadlock.TwoCanGetStuck | engine/src/async_knowledge.cpp:518-593 | Two entry points: a reachable state in which a launch holds the store and waits for a builder that waits for the store |
| BuilderDeadlock.StuckForever | engine/src/async_knowledge.cpp:518-593 | No continuation of any length ends that state |
| BuilderDeadlock.OnlyDeadlock | engine/src/async_knowledge.cpp:518-651 | It is the only deadlock: in any other reachable state that is not at rest, something can move |
| BuilderDeadlock.OneClientAlwaysMoves | engine/src/engine_index.cpp:46-55 | A single dispatch thread, nested as in scan then index, never deadlocks |

## Left out

- SQLite, tree-sitter, file reads, environment variables, logging and the FFI wrappers: parse results, syntax nodes, records and fact rows are values, and a store insert is a step that may fail.
- Memory order: every atomic operation is one indivisible step.
- Wall-clock timeouts: whether one expires is a free choice. The interrupt of a wedged builder is left out, since the connection it would interrupt is never recorded.
- Node types of the grammar tables: a syntax node is a branch, a loop or neither; the tables themselves are not part of this model.
- The automaton's destructor and its deleted copy operations.
- Integer widths outside the shared core counters: `int` counters such as the next job index are unbounded here.
- An exception that escapes a static worker ends the process in the original; only temporary workers may fail in this model.
- The variant of the pipeline with static workers only (`engine_index_files.cpp`): it is the same protocol without monitor and temporary workers.
- Number values: a number is its lexeme, and which lexemes `std::stod` takes whole is a parameter. The `\u` conversion by `std::stoul` and the cast to unsigned are a parameter too, with any 32-bit result; round trips ask only that it reads four hexadecimal digits as their number.
- Reading `.gitignore`, `.codescopeignore` and the exclude list into rules: the rules are given.
- Language detection, suffix and file-name tables, and the remaining entry checks: they enter the walk as one predicate on path and kind that does not depend on the language context.
- Splitting path strings for the directory-name checks: `SkipPolicy` and the walk see a path as the sequence of its component names. `Gitignore` does split strings.
- Type, import and route edges, the old tree-visitor path of the graph builder, and node fields that are only copied.
- Findings' titles and item fields: a finding keeps its facts and confidence. The count mode is left out as an easy case.
- Parameter counts taken from the syntax tree, which replace those of the record search at the end.
- A failure to start the builder thread, and destruction of the engine while a builder was let go by a timed-out join.
- CallGraphLaws.OrderIsInvisibleUnlessShared: stated for units in which no id is claimed by two different declarations, since those overwrite one another and order then shows (`GraphBuilder.FirstOfTwins`); the parent links are taken to be the same, as they are for units that the visitors build.
- ClosedRules.WholePathClosedExactly: leaves open the patterns with only `*`, `?` and slashes after the last `**`, a `*` in each of those components, and among them one that starts with `?` and has another, unless the last component ends the matter bluntly, its `*` standing together (`??*`, `?*?`). Whether such a rule, say `**/*/?*?*`, matches everything below depends on how its `?` can stand for slashes.
- IgnoredTrees.ListClosedExactly: for lists with wildcard rules that are not for directories the condition is left at `ListClosedBelow`, since one such rule can make up for another; `.codescopeignore` patterns and excludes are part of the predicate `others` and not looked into.
- RecordCounts.CountBelow: requires that the function is not its own descendant, which is exactly when the search ends.
