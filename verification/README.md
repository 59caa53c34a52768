# WordEye verification model

WordEye is an intrusion-detection agent for WordPress hosts and the console that
manages a fleet of them. This project models its text engines, its run-level state
machines and its file formats in Dafny and proves what they promise for every input,
every run or every reachable state.

`dafny verify dfyconfig.toml` checks the whole project.

| module | models | main results |
|---|---|---|
| `AhoCorasick` | the literal prefilter: a trie turned in place into an automaton | a literal is marked exactly when it occurs, ignoring ASCII case |
| `PhpLexer`, `PhpTokens`, `PhpLexerLaws` | the PHP lexer and the comment-free view | every turn recognises what the bytes say, strings to the first quote that no backslash hides; spans disjoint, code view exact byte by byte, lexing the code view again changes nothing exactly when every heredoc runs to the end |
| `PhpConstReading` | how the constant folder reads an expression | the parenthesis that closes a call, and arguments cut at exactly the top-level commas |
| `PhpConst`, `PhpConstCalls`, `PhpConstLaws`, `PhpConstExact`, `PhpConstModest`, `PhpConstSound`, `PhpConstChain`, `PhpConstLong`, `PhpConstSharp` | the memoising, budgeted constant folder, beside an unbounded evaluator | what each item and each call gives, byte by byte for `substr`; an answer is exact unless a limit was met; over a resolver's whole life, all answers are for programs within sizes read off before the call, and the sizes cannot be raised; what answers can be in any case; a file that is answered wrongly |
| `Containment`, `ContainmentFiles`, `ContainmentRuns`, `ContainmentEngine`, `ContainmentLaws`, `ContainmentWorks` | neutralise, freeze, capture, kill, verify, quarantine, roll back, against any answers of the host | no kill without freeze and capture, stages in order, only recorded launcher lines rewritten, nothing else touched, bounded targets, harmless dry run, file contents conserved, health gate kept; every finding is seen to unless the run is cut short, and a run that nothing hinders leaves no launcher line, no process and no file in date |
| `Governor` | the IO token bucket, in exact arithmetic | what any interleaving is charged in any interval; one sleep plus a nanosecond, or two sleeps, suffice, and exactly when one sleep does |
| `SmallestWindow` | the sweep that finds one match of each pattern close together | exact, with the earliest start |
| `Limiter` | the console's fixed-window rate limiter | the exact bound for every interval, no refusal without a window's calls let through in the period before it, sweeping is invisible |
| `Taint` | request input followed through assignments to a sink | exactly the variables with a chain of assignments of at most three rising runs; exactly when that is all that are reached |
| `NearestDistance` | the two-pointer nearest distance | the true minimum of all pairs collected |
| `PendingQueue` | detections the console has not acknowledged | nothing is lost or doubled with any number of flushes in flight; the newest are kept with one, and exactly when with more |
| `OperatorAuth`, `OperatorAuthLaws`, `OperatorAuthWorks` | password, second factor and sessions | the invariant over every run; who is through, exactly, over every run; one TOTP per time step, one use of a recovery code, eight guesses a quarter of an hour |
| `Debounce` | the rate limit of the monitor's persistence checks | no event is lost, runs are spaced, the delay is bounded, for every check and any sequence of events and drains |
| `Trailer` | the configuration stamped onto the executable | round trip, a second stamp is refused, the tail is enough |
| `Baseline` | the file baseline and the drift comparison | round trip, what reading any file gives, exactly which files stop the reader, the three parts of the difference |
| `Common` | shared helpers | |

## Findings

Where the code and what is said about it differ, the model follows the code, and the
difference is a lemma:

- A `substr` length that cannot be resolved for want of budget or depth is left off
  (`internal/agent/phpconst.go:401`), so an answer can be a longer string than the expression
  has: `PhpConstChain.LengthOutOfReach` gives a file. Every wrong answer met a limit
  (`PhpConstExact.WrongMetALimit`), and a program whose sizes keep to the limits meets none
  (`PhpConstModest.ModestProgramsAreExact`); twelve ranks and four thousand steps are the most for which that
  holds (`PhpConstSharp.RanksAreSharp`, `PhpConstSharp.StepsAreSharp`). `PhpConstLaws.SubstrIsExact` says for one call exactly when
  the answer is right; `PhpConstSound.AnswersArePossible` holds whatever limits are met.
- Lexing the code view again is not a fixed point when a heredoc is closed before the end of the
  file: body and label are blanked together, so the second run reads on past them
  (`PhpLexerLaws.RelexIsFixedPoint`).
- Quarantine can replace evidence it stored before. Everything up to a colon in a name is cut
  (`internal/agent/contain.go:562`), so `a:x.php` and `b:x.php` go to the same place
  (`ContainmentLaws.ColonNamesMeet`) and the second rename replaces the first file, whoever the agent runs as. And
  the chain-of-custody file of `x` is called like a file `x.wordeye.json` quarantined before
  (`internal/agent/contain.go:452`); since evidence is made read-only first (`internal/agent/contain.go:437`), that
  write replaces it only where it can be opened, that is for root or where the change of mode failed. No target is
  lost exactly when no target replaces another one before it in either way (`ContainmentLaws.EvidenceClashIsExact`),
  and for every two that do there is a run of the engine that loses a file (`ContainmentLaws.ClashLosesAFile`).
- The copy of a launcher that is kept before a line is commented out is overwritten by the next finding for the
  same file (`internal/agent/contain.go:237`), so it is the original exactly if no finding before the last one for it
  recorded a line it has (`ContainmentWorks.CopyIsTheOriginal`). The line itself stays behind its comment marks
  (`ContainmentWorks.LinesAreCommentedOut`).
- A path of evidence keeps a part `..` that stands behind a colon, so evidence can be put outside of its directory: it
  is exactly if the parts that are kept go up more often than down at some point, and never for a path without such
  a part (`ContainmentWorks.EvidenceStaysInside`).
- A sleep is cut to whole nanoseconds, so one sleep can fall short by a fraction of one
  (`Governor.OneSleepCanFallShort`); it does exactly when the deficit takes more than a millisecond and not
  a whole number of nanoseconds (`Governor.OneSleepIsExact`).
- Requests larger than the bucket are charged a bucket only, so the bound on bytes holds exactly up to
  that size (`Governor.ByteBoundIsExact`).
- The limiter lets the opening call of a window through whatever the quota is: twice the quota is a
  bound exactly when the quota is positive (`Limiter.TwiceTheQuota`).
- An upgrade flushes the queue from its own goroutine beside the heartbeat's
  (`internal/agent/upgrade_exec.go:48`). With two flushes in flight a newer detection can be dropped
  and an older one kept (`PendingQueue.TwoFlushesCanDropNewer`); `PendingQueue.OrderIsKeptExactly` says which steps
  keep the newest, and `PendingQueue.OrderOverRuns` which runs do. And a full queue refuses new detections
  until the next flush takes it (`PendingQueue.Client.QueueFinding`).
- Beginning an enrolment is safe only behind the handler's guard (`OperatorAuthLaws.GuardIsNeeded`).
- Three rounds of taint propagation miss a chain of four assignments written in reverse
  (`Taint.LongChainIsMissed`).
- A comment line with nothing but white space after its first `taken=` stops the baseline's reader with an index
  out of range. `Baseline.CrashIsExact` says which files do: those where such a line is reached before one that is
  too long. And a path that ends in a carriage return does not read back
  (`Baseline.LineRoundTrip`).

## Model

| member | source | states |
|---|---|---|
| `AhoCorasick.LongestSuffixIsLongest` | internal/rules/ahocorasick.go:92-94 | the automaton state is the longest suffix of the text that is a trie path: no trie path that ends the text is longer |
| `AhoCorasick.LongestSuffixExtends` | internal/rules/ahocorasick.go:92-94 | for a trie closed under prefixes, one more byte takes the longest suffix to the longest suffix of itself and the byte, so failure links never need to be followed |
| `AhoCorasick.AC.AddPattern` | internal/rules/ahocorasick.go:71-84 | adding a pattern keeps a trie whose outputs are exactly the patterns that spell each node, and gives the next id |
| `AhoCorasick.AC.StartPass` | internal/rules/ahocorasick.go:95-104 | after the root is completed, the queue holds the root's children and the breadth-first invariant holds |
| `AhoCorasick.ShallowerIsDone` | internal/rules/ahocorasick.go:105-110 | breadth-first order: every node shallower than the head of the queue is complete before it is copied |
| `AhoCorasick.TransitionStep` | internal/rules/ahocorasick.go:113-121 | copying the failure node's transition over a missing edge gives the longest-suffix transition |
| `AhoCorasick.OutputStep` | internal/rules/ahocorasick.go:109-112 | a node's own outputs and its failure node's are all the patterns that end its word |
| `AhoCorasick.AC.FinishNode` | internal/rules/ahocorasick.go:105-122 | one turn of the pass keeps the invariant: one more node complete, its children queued with their failure nodes |
| `AhoCorasick.AC.Link` | internal/rules/ahocorasick.go:92-123 | the pass ends and leaves a complete automaton for the same patterns |
| `AhoCorasick.BuildAC` | internal/rules/ahocorasick.go:45-124 | the automaton is valid; every non-empty literal has an id, equal ids mean equal literals up to ASCII case, and every pattern comes from a literal |
| `AhoCorasick.WalkStep` | internal/rules/ahocorasick.go:137-143 | one byte takes the longest suffix of the text read to that of the longer text, and the node's outputs are exactly the patterns that end there |
| `AhoCorasick.AC.MatchSet` | internal/rules/ahocorasick.go:131-145 | a mark is set afterwards exactly if it was set before or its pattern occurs in the case-folded data; the rest of the slice is untouched |
| `AhoCorasick.Prefilter` | internal/rules/ahocorasick.go:45-145 | for every literal list and input, a literal's id is marked exactly when the literal occurs ignoring ASCII case, and two literals share an id exactly when they differ in case only |
| `AhoCorasick.CaseIsIgnored` | internal/rules/ahocorasick.go:35-40 | to occur after folding is to stand somewhere in the data but for the case of ASCII letters |
| `AhoCorasick.GateIds` | internal/rules/rules.go:298-302 | a rule keeps exactly the ids of those gates that the automaton knows |
| `AhoCorasick.RuleGate` | internal/rules/rules.go:380-387 | a rule whose gates are all literals passes the gate stage exactly when every gate occurs in the file |
| `PhpLexer.Step` | internal/agent/phplex.go:67-206 | each turn consumes a non-empty stretch and blanks within it: the cursor strictly advances |
| `PhpLexer.FindHeredocEnd` | internal/agent/phplex.go:216-240 | the heredoc ends behind the first line that starts, after blanks, with the whole label, or at the end of the source |
| `PhpLexer.NextToken` | internal/agent/phplex.go:90-206 | the branches of the loop, in the source's order, consume and blank what the specified turn does, and that is the one turn the bytes allow (`PhpTokens.StepIsATurn`, `PhpTokens.TurnIsUnique`) |
| `PhpLexer.Blank` | internal/agent/phplex.go:49-62 | exactly the bytes of the range become spaces, newlines stay, the rest of the buffer is unchanged |
| `PhpLexer.LexPHP` | internal/agent/phplex.go:40-209 | the loop ends; code view, string spans, comment spans, counts and flags are those of the token run, whether or not the buffer is reused; each turn of the run is right by `PhpTokens.StepIsATurn` |
| `PhpTokens.QuoteEndIsFirst` | internal/agent/phplex.go:126-160 | a string ends at the first quote of its kind behind an even run of backslashes, counted from its start, or at the end of the source |
| `PhpTokens.LineEndIsFirst` | internal/agent/phplex.go:97-109 | a line comment ends at the first newline or closing tag |
| `PhpTokens.BlockEndIsFirst` | internal/agent/phplex.go:111-124 | a block comment ends behind the first star with a slash, or at the end |
| `PhpTokens.HeredocIsRead` | internal/agent/phplex.go:174-240 | a heredoc has blanks, perhaps a quote, and a label before the end of its line, and ends behind the first line that begins with that label as a whole word |
| `PhpTokens.StepIsATurn` | internal/agent/phplex.go:67-206 | every turn recognises what stands at its place, by bytes and first positions alone: markup to the first open tag, a closing tag, a line or block comment, a string, a backtick string, a heredoc, or one byte of code |
| `PhpTokens.TurnIsUnique` | internal/agent/phplex.go:67-206 | and no other turn would: kind, span, next place and mode are determined by the bytes |
| `PhpLexerLaws.SpansAreDisjoint` | internal/agent/phplex.go:97-202 | for every source string spans are in bounds, ordered and disjoint, so are comment spans, and no string overlaps a comment |
| `PhpLexerLaws.CodeViewIsExact` | internal/agent/phplex.go:47-62 | the code view has the source's length, and each byte is the source's unless it lies outside PHP tags or in a span, where it is a space or the newline |
| `PhpLexerLaws.SameRun` | internal/agent/phplex.go:67-207 | lexing a copy that differs only where the first run erases, with no heredoc closed early, finds the same strings and as many backtick strings, no comment, and blanks nothing more |
| `PhpLexerLaws.HeredocGrows` | internal/agent/phplex.go:175-202 | a heredoc closed before the end of the source reaches further when the blanked copy is lexed |
| `PhpLexerLaws.DifferentRun` | internal/agent/phplex.go:175-202 | with a heredoc closed before the end of the source, lexing the blanked copy finds other strings |
| `PhpLexerLaws.RelexIsFixedPoint` | internal/agent/phplex.go:64-207 | lexing the code view again gives the same code view, string spans and backtick flag exactly when every heredoc runs to the end of the source |
| `PhpLexerLaws.RunOutWithoutHeredoc` | internal/agent/phplex.go:175-177 | in particular whenever the lexer meets no heredoc |
| `PhpLexerLaws.WithoutComments` | internal/agent/phplex.go:276-301 | the result is the source with exactly the bytes of comment spans blanked, newline and carriage return kept, for any reused buffer |
| `PhpLexerLaws.StrippingKeepsStrings` | internal/agent/phplex.go:265-301 | lexing the comment-free view finds the same strings, the same backticks and no comment |
| `PhpConstReading.ParenMatches` | internal/agent/phpconst.go:486-520 | the parenthesis found closes the one given: it stands outside strings where exactly one is open, and one has been open all the way; with none found, none closes it before the limit |
| `PhpConstReading.FindParen` | internal/agent/phpconst.go:486-520 | the scan with its depth, quote and escape state returns just that parenthesis |
| `PhpConstReading.ArgsAreCut` | internal/agent/phpconst.go:216-247 | the arguments partition the list at exactly the commas that are read, outside literals, with no bracket open; an empty last one is left out |
| `PhpConstReading.CutArgs` | internal/agent/phpconst.go:216-247 | the cursor loop returns just those arguments, whatever literals jump over |
| `PhpConstReading.FindLiteral` | internal/agent/phpconst.go:78-94 | the first string span at or just after the position gives the literal and where to go on |
| `PhpConstReading.ReadItem` | internal/agent/phpconst.go:140-206 | the item at the cursor and where it ends |
| `PhpConst.ConstResolver.ResolveVar` | internal/agent/phpconst.go:97-121 | answer, cache, failed set, budget and depth afterwards are those of the state-passing resolver; recursion ends on cyclic assignments by remaining depth and range length |
| `PhpConst.ConstResolver.Evaluate` | internal/agent/phpconst.go:127-212 | likewise for a range, budget and size checks included, and the missing size check after a call |
| `PhpConst.ConstResolver.Arg` | internal/agent/phpconst.go:249-254 | likewise for one argument of a call |
| `PhpConst.ConstResolver.ApplyFunc` | internal/agent/phpconst.go:259-428 | likewise for the pure functions, each argument folded in the order the code folds it; what each answers is in the next rows |
| `PhpConstCalls.SubstrAnswers` | internal/agent/phpconst.go:385-409 | the answer of substr has the bytes of its text from the offset on, a negative one counted from the end: as many as a length that fits says, a negative one dropping that many from the end, else all of them; there is none where the offset lies outside |
| `PhpConstCalls.SubstrMeans` | internal/agent/phpconst.go:385-409 | the same of its meaning, where no more fuel is asked for |
| `PhpConstCalls.UnaryAnswers` | internal/agent/phpconst.go:262-427 | a call of each of the sixteen functions of one argument has the library's value of what the argument folds to |
| `PhpConstCalls.DigestAnswers` | internal/agent/phpconst.go:355-376 | md5 and sha1 are raw exactly where the second argument reads true |
| `PhpConstCalls.PackAnswers` | internal/agent/phpconst.go:285-303 | pack decodes its second argument exactly for the format h* in either case |
| `PhpConstCalls.ReplaceAnswers` | internal/agent/phpconst.go:411-418 | str_replace replaces its first argument by its second in its third |
| `PhpConstCalls.OthersAnswerNothing` | internal/agent/phpconst.go:426-428 | no other function is folded, and its arguments are not looked at |
| `PhpConstCalls.ItemsConcatenate` | internal/agent/phpconst.go:140-206 | a range folds to its first item's value and then the rest's, one unit of budget a turn, and a literal or variable that makes it too long ends it |
| `PhpConstCalls.RangesConcatenate` | internal/agent/phpconst.go:140-206 | in the unbounded evaluator a range means its first item's value followed by the rest's |
| `PhpConstCalls.ItemsAreRead` | internal/agent/phpconst.go:140-206 | what stands at a place of an expression, byte class by byte class: separators, a literal, a variable by its whole name, a call up to its parenthesis, a number, or nothing that is known |
| `PhpConstLaws.MeaningIsUnique` | internal/agent/phpconst.go:123-212 | in the unbounded evaluator a variable has at most one value |
| `PhpConstSound.AnswersArePossible` | internal/agent/phpconst.go:97-212 | what holds where limits are met too: for every program, from any cache of possible values and with whatever budget, depth and failures, an answer is a value of the unbounded evaluator with some substr lengths perhaps left off, and so is every cache entry left behind |
| `PhpConstSound.CallFromArgs` | internal/agent/phpconst.go:385-409 | a call's value follows from its arguments', the length being the only one that may be missing |
| `PhpConstSound.VarIsPossible` | internal/agent/phpconst.go:123-212 | a variable's meaning is one of its possible values |
| `PhpConstSound.VarIsForced` | internal/agent/phpconst.go:385-409 | without substr lengths it is the only one |
| `PhpConstExact.ResolverIsExact` | internal/agent/phpconst.go:97-212 | from any sound state, a query that meets no limit (no empty budget, no depth of twelve, no value above the cap in what the fold does) is answered by the variable's meaning, by nothing exactly if it has none, and leaves a sound state |
| `PhpConstExact.WrongMetALimit` | internal/agent/phpconst.go:97-212 | every wrong answer, a value that is not the meaning or none where there is one, met a limit |
| `PhpConstExact.EveryAnswerIsExact` | internal/agent/phpconst.go:97-121 | so over any sequence of queries, cache and failed names shared |
| `PhpConstExact.CallByArgs` | internal/agent/phpconst.go:259-428 | a call has the value the evaluator gives it whenever the arguments it folds have theirs |
| `PhpConstModest.VarAfforded` | internal/agent/phpconst.go:97-121 | cache and failed names amortise the budget: what is left always covers each unsettled right-hand side once, so a variable of low enough rank is resolved without meeting a limit |
| `PhpConstModest.ModestProgramsAreExact` | internal/agent/phpconst.go:46-56 | with at most twelve ranks, right-hand sides that take no more steps than the budget when read once, and no value above the cap: over the whole life of a fresh resolver, in whatever order it is asked, each answer is the meaning, or nothing exactly if there is none |
| `PhpConstModest.Ask` | internal/agent/phpconst.go:97-121 | the resolver itself, asked one variable after the other, gives those answers |
| `PhpConstSharp.RanksAreSharp` | internal/agent/phpconst.go:36-44 | with the steps in the budget, every file of at most so many ranks is answered exactly if and only if the ranks are at most twelve |
| `PhpConstSharp.StepsAreSharp` | internal/agent/phpconst.go:36-44 | with twelve ranks, every file of at most so many steps is answered exactly if and only if the steps are at most four thousand |
| `PhpConstSound.PlainProgramsAreSound` | internal/agent/phpconst.go:401-408 | in every program whose substr calls carry no length, an answer is the meaning and the cache stays sound whatever limits are met |
| `PhpConstSound.PlainIsIdle` | internal/agent/phpconst.go:401-408 | in such a program every possible value is the meaning |
| `PhpConstSound.EveryAnswerIsPossible` | internal/agent/phpconst.go:46-56 | likewise over the whole life of a resolver, in whatever order variables are asked for |
| `PhpConstSound.ResolveAll` | internal/agent/phpconst.go:97-121 | asking the resolver one variable after the other gives the answers of the state-passing one |
| `PhpConstLaws.SubstrIsExact` | internal/agent/phpconst.go:385-409 | with text and offset right, a substr call is right exactly when its length was resolved too, has no value, or cuts nothing |
| `PhpConstChain.ChainIsFromSource` | internal/agent/phpconst.go:57-74 | a file of thirteen assignments whose string spans are those the lexer finds and whose assignments are exactly those of its code view |
| `PhpConstChain.LengthOutOfReach` | internal/agent/phpconst.go:401-408 | for that file a fresh resolver answers "abc" where the meaning is "a" |
| `PhpConstLong.LongIsFromSource` | internal/agent/phpconst.go:57-74 | a file of eleven assignments, each within four hundred bytes, whose assignments are exactly those of its code view |
| `PhpConstLong.LongFails` | internal/agent/phpconst.go:135-138 | resolving its first variable takes one step more than the budget has, so there is no answer |
| `PhpConstLong.LongMeans` | internal/agent/phpconst.go:123-212 | though the variable means "1" |
| `Containment.SelectTargets` | internal/agent/contain.go:178-192 | process and file targets are exactly the confirmed findings with a process, and the confirmed, actionable ones with a path, in order |
| `Containment.PersistenceTargets` | internal/agent/contain.go:196-207 | launcher targets are exactly the confirmed or likely findings of the four launcher rules |
| `ContainmentEngine.Engine.ProcessIsProtected` | internal/agent/contain.go:347-361 | a process may be signalled exactly when its pid is above 1, not the agent's or its parent's, and its name starts with no protected name |
| `Containment.AppendIsSafe` | internal/agent/contain.go:59-162 | one more step that meets its guard keeps the whole safety property of the log |
| `ContainmentEngine.Engine.Budget` | internal/agent/contain.go:101-112 | an action is granted exactly while the limit is not reached, and stands for one target |
| `ContainmentEngine.Engine.FreezeCaptureKill` | internal/agent/contain.go:299-342 | the process is stopped first; where that succeeds it is captured and then killed, whatever the capture returns, and where it fails nothing more is done; the invariant is kept |
| `ContainmentEngine.Engine.ContainProcess` | internal/agent/contain.go:264-344 | a confirmed process is refused if it may not be signalled, else planned in a dry run, or stopped, captured and killed unless the host says it is another one by now; it is killed where no call fails |
| `ContainmentEngine.Engine.RewriteLauncher` | internal/agent/contain.go:247-260 | on success exactly the recorded line is commented out and the other lines are unchanged |
| `ContainmentEngine.Engine.NeutralizePersistence` | internal/agent/contain.go:212-261 | only the launcher and its backup change, at every moment, and one step on that line is logged; a dry run plans it and changes nothing; where no call fails, copy and line are those of `ContainmentFiles.NeutralizedOne` |
| `ContainmentEngine.Engine.MoveFile` | internal/agent/contain.go:470-482 | at every moment of a move, copy fallback included, the content is at the old or the new place; on failure the old place is unchanged |
| `ContainmentEngine.Engine.QuarantineFile` | internal/agent/contain.go:387-458 | one entry is logged, it says whether the file was moved, and only a confirmed finding's file in date is; then it is gone from its path and in evidence |
| `ContainmentEngine.Engine.QuarantineKept` | internal/agent/contain.go:387-458 | where no target replaces another one before it, quarantining one, for the first time or again, keeps the content of every target at its own path or in evidence, at every moment |
| `ContainmentEngine.Engine.RestoreQuarantine` | internal/agent/contain.go:460-466 | a restore that succeeds puts the evidence back, and at every moment the content is in one of the two places |
| `ContainmentEngine.Engine.CheckGate` | internal/agent/contain.go:141-161 | after a move with the gate active, a serving probe follows at once, or a restore attempt is logged with its error and the run ends |
| `ContainmentEngine.Engine.FlushOPcache` | internal/agent/contain.go:494-549 | the one-shot stub is the only place that changes; where writing and removing it succeed it is gone afterwards; no target is touched at any moment |
| `ContainmentEngine.Engine.RunContainment` | internal/agent/contain.go:59-174 | every run is safe (kills only after a successful stop and a capture attempt; only confirmed, unprotected targets; only recorded lines of launcher findings commented out; persistence before signals before files; at most the limit of targets), a dry run changes no file, the gate is kept, nothing outside the launchers and files found, their backups, evidence and custody files, and the stub changes at any moment, and, for any targets of which none replaces another one before it, every target's content is at all times at its own path or in evidence; the run takes its targets in order, all of them unless it is cut short or never begins, and ends with flush and probe; where no call fails and there is a process or a file to contain, every process that may be signalled is killed, and the files are those that commenting out every launcher and moving every file in date make of them |
| `ContainmentWorks.EveryFindingIsSeenTo` | internal/agent/contain.go:116-140 | in any environment: unless set-up fails, the limit is reached, a file is put back or there is nothing to contain, every recorded launcher line has its step, every confirmed process is refused, fails to stop, or is stopped, captured and killed, and every confirmed file has its step; in a dry run, its plan |
| `ContainmentWorks.EndingHasACause` | internal/agent/contain.go:59-174 | a run that does not go through ends where no evidence directory can be made, no process and no file is confirmed, as many targets were taken as the limit says, or a probe failed straight after a file was moved and an attempt to put it back was logged |
| `ContainmentWorks.NothingIsLeft` | internal/agent/contain.go:59-174 | after a run in which no call fails, with a process or a file to contain: every recorded line that the launcher has is commented out, every confirmed process that may be signalled was killed, and every confirmed file in date is gone from its path, to evidence where no target replaces another one before it |
| `ContainmentWorks.LinesAreCommentedOut` | internal/agent/contain.go:242-260 | each line of a launcher is commented out once for every finding that records it, and no other line changes |
| `ContainmentWorks.CopyIsTheOriginal` | internal/agent/contain.go:234-240 | the copy kept of a launcher is the original exactly if no finding before the last one for it records a line that it has |
| `ContainmentWorks.NeverTouched` | internal/agent/contain.go:347-361 | a process may be signalled exactly if its pid is above 1, not the agent's or its parent's, and its name does not start, in either case of each letter, with a protected name |
| `ContainmentWorks.TouchedWasFound` | internal/agent/contain.go:178-207 | in a safe log signals and moves go back to confirmed findings, and launchers rewritten to confirmed or likely ones of the four rules |
| `ContainmentWorks.EvidenceStaysInside` | internal/agent/contain.go:552-573 | evidence is put outside of its directory exactly if the parts kept of the path go up more often than down at some point, and never for a path no part of which ends in a colon and two dots |
| `ContainmentLaws.TargetsAreBounded` | internal/agent/contain.go:60-64 | a safe log touches at most as many distinct targets as the limit says, 25 where there is none |
| `ContainmentLaws.EvidenceClashIsExact` | internal/agent/contain.go:387-458 | for any list of targets, paths given twice included: moving those that are not out of date keeps every content, for all files and whichever are out of date, exactly when no target replaces another one before it |
| `ContainmentLaws.DistinctClashIsExact` | internal/agent/contain.go:387-458 | with no path twice and nothing out of date, all the same |
| `ContainmentLaws.ColonNamesMeet` | internal/agent/contain.go:552-573 | names that differ only before a colon are stored at the same place, in any directory |
| `ContainmentLaws.PlainPathsMeet` | internal/agent/contain.go:452-452 | different paths without a colon meet exactly when one is the other's custody file |
| `ContainmentLaws.ClashLosesAFile` | internal/agent/contain.go:452-452 | for every two targets of which the later replaces the earlier there is a safe run of the engine, with no call failing, after which the earlier file's content is lost |
| `Governor.Governor.constructor` | internal/govern/govern.go:147-158 | the bucket starts full, with twice the rate as capacity |
| `Governor.Governor.Take` | internal/govern/govern.go:258-285 | tokens stay between nothing and the capacity; the call passes exactly when the refilled bucket covers what it wants, and is charged that |
| `Governor.TakeMeans` | internal/govern/govern.go:261-282 | a request no larger than the bucket passes exactly if the tokens there were and those earned since cover it, and is then all that is spent; a larger one passes exactly from a full bucket and empties it; a refusal spends nothing |
| `Governor.RunStaysFull` | internal/govern/govern.go:259-275 | over any interleaving of calls the tokens stay within the bucket |
| `Governor.ChargedIsBounded` | internal/govern/govern.go:258-275 | the tokens charged in any interval are at most the capacity and the rate times its length |
| `Governor.ByteBoundIsExact` | internal/govern/govern.go:266-271 | for bytes that bound holds over all runs of requests up to a size exactly when the size is at most the capacity |
| `Governor.CeilingIsIdle` | internal/govern/govern.go:284-286 | the two-second ceiling never shortens a sleep |
| `Governor.NextTry` | internal/govern/govern.go:276-278 | uncontended, the next try passes exactly when the time since has earned the deficit |
| `Governor.AtMostTwoSleeps` | internal/govern/govern.go:257-297 | an uncontended caller passes after one sleep that overruns by a nanosecond, and after two in any case |
| `Governor.OneSleepIsExact` | internal/govern/govern.go:277-283 | a sleep of exactly the time asked for is enough exactly when the deficit takes at most a millisecond or a whole number of nanoseconds |
| `Governor.OneSleepCanFallShort` | internal/govern/govern.go:277-277 | one sleep of exactly the time asked for can fall short |
| `SmallestWindow.Spread` | internal/rules/rules.go:509-522 | least and greatest offset under the pointers with their lists, or that a list is exhausted |
| `SmallestWindow.Advance` | internal/rules/rules.go:530-530 | advancing the list with the least offset passes no choice that fits, and leaves less to read |
| `SmallestWindow.Sweep` | internal/rules/rules.go:505-532 | it succeeds exactly when one offset of every list fits within the window, and returns the earliest start of any choice that does |
| `Limiter.Limiter.Allow` | internal/console/server.go:468-482 | what the key is told and what is counted for it; a refusal changes nothing, and other keys are untouched |
| `Limiter.Limiter.Sweep` | internal/console/server.go:484-492 | exactly the windows more than two periods old, each by the clock read for it, are forgotten |
| `Limiter.SweepingIsInvisible` | internal/console/server.go:484-492 | inserting sweeps anywhere in a run changes no answer |
| `Limiter.BoundedInEveryInterval` | internal/console/server.go:468-482 | an interval no longer than the period lets through at most one call short of two windows, for each key |
| `Limiter.RefusalHasACause` | internal/console/server.go:468-482 | over any run of a new limiter, sweeps included, a call is refused only if at least a window's calls for its key were let through within the period before it |
| `Limiter.QuotaIsGranted` | internal/console/server.go:468-482 | so whoever was let through less often in the last period is let through |
| `Limiter.BoundIsExact` | internal/console/server.go:468-482 | for a period that is not zero no smaller bound holds over all runs |
| `Limiter.TwiceTheQuota` | internal/console/server.go:474-479 | twice the quota is a bound exactly when the quota is positive |
| `Taint.ContainsVar` | internal/agent/heuristic.go:692-706 | found exactly when $name stands somewhere as a whole token |
| `Taint.ArgRegion` | internal/agent/heuristic.go:666-689 | the bytes up to the parenthesis that closes the call, or the first 600 of them while it is open |
| `Taint.ArgsAreUnique` | internal/agent/heuristic.go:666-689 | there is one such region for each call |
| `Taint.Propagate` | internal/agent/heuristic.go:610-638 | the early stop changes nothing: the set is that of three rounds |
| `Taint.TaintReachesSink` | internal/agent/heuristic.go:604-663 | true exactly when a tainted variable stands in a sink's arguments or is called, and the reason given is true of one |
| `Taint.TaintIsSandwiched` | internal/agent/heuristic.go:619-638 | every variable within three assignments of the request is tainted, and every tainted one is reached by a chain of assignments |
| `Taint.VerdictIsSandwiched` | internal/agent/heuristic.go:604-663 | so is the verdict |
| `Taint.RoundsFollowRuns` | internal/agent/heuristic.go:619-638 | a search of any number of rounds taints exactly the variables with a chain of assignments from the request that falls into at most that many runs of rising position |
| `Taint.ThreeRunsAreEnough` | internal/agent/heuristic.go:621-638 | so the tainted set is the full closure exactly when every variable that is reached has a chain of at most three runs |
| `Taint.ThreeRoundsAreEnough` | internal/agent/heuristic.go:621-638 | the tainted set is the full closure exactly when a fourth round would change nothing |
| `Taint.EarlyStopIsComplete` | internal/agent/heuristic.go:635-637 | a search that stops early has found the closure |
| `Taint.InOrderIsComplete` | internal/agent/heuristic.go:621-638 | so has every search over code that assigns before it uses, whatever the length of its chains |
| `Taint.LongChainIsMissed` | internal/agent/heuristic.go:621-621 | a chain of four steps in reverse order is missed |
| `NearestDistance.OccurrencesIn` | internal/agent/heuristic.go:855-869 | the positions collected, from left to right for each literal, until the limit |
| `NearestDistance.OccurrencesAreExact` | internal/agent/heuristic.go:855-869 | only real occurrences, at most the limit of them; and all of them where the limit is not reached and no literal overlaps itself |
| `NearestDistance.TwoAreEnough` | internal/agent/heuristic.go:833-838 | of all positions on the other side one of the two looked at is nearest |
| `NearestDistance.NearestDistanceIn` | internal/agent/heuristic.go:822-851 | the distance is the least over all pairs collected, and the flag is true exactly when it is at most the maximum |
| `PendingQueue.Client.QueueFinding` | internal/agent/client.go:703-709 | a detection is queued exactly while there is room |
| `PendingQueue.Client.BeginFlush` | internal/agent/client.go:561-568 | the whole queue is taken as one batch |
| `PendingQueue.Client.EndFlush` | internal/agent/client.go:574-599 | the batch is acknowledged only by a reply without failures, else put back; the telemetry tells which |
| `PendingQueue.Client.Requeue` | internal/agent/client.go:608-621 | exactly the newest 5000 of the batch and what arrived since are kept, in order, the older ones dropped |
| `PendingQueue.EveryRunConserves` | internal/agent/client.go:526-621 | over any interleaving, with any number of flushes in flight, every detection ever queued is pending, in one batch, acknowledged or dropped; the queue never exceeds 5000 |
| `PendingQueue.NewestAreKept` | internal/agent/client.go:601-621 | with one flush at a time what is pending or in flight is the newest of all, in order of arrival |
| `PendingQueue.OlderAreSettled` | internal/agent/client.go:601-621 | and exactly the older ones are acknowledged or dropped |
| `PendingQueue.FromTheStart` | internal/agent/client.go:526-621 | all of this from an empty client |
| `PendingQueue.OrderIsKeptExactly` | internal/agent/client.go:574-621 | with any number of flushes in flight, a step leaves what is live the newest exactly when it settles the oldest batch, puts the last one back whole, or puts the oldest back in part with no other in flight or the queue full |
| `PendingQueue.OrderOverRuns` | internal/agent/client.go:526-621 | over a whole run what is live is the newest at every moment exactly when every step does so |
| `PendingQueue.TwoFlushesCanDropNewer` | internal/agent/upgrade_exec.go:48-48 | with two flushes in flight a newer detection can be dropped and an older one kept |
| `OperatorAuth.Console.VerifyPassword` | internal/store/auth.go:118-158 | which user, if any, and the new count of failures or lock; a disabled or locked account is not looked at |
| `OperatorAuth.Console.LookupSession` | internal/store/auth.go:379-407 | a session is given exactly when it is unexpired and its user is there and not disabled; an expired one is deleted |
| `OperatorAuth.Console.BeginTOTPEnrollment` | internal/store/auth.go:174-197 | an enrolment under way is resumed with its secret |
| `OperatorAuth.Console.CompleteTOTPEnrollment` | internal/store/auth.go:201-241 | on success the user is enrolled, pinned to the time step, and has exactly the new codes |
| `OperatorAuth.Console.UseCode` | internal/store/auth.go:270-279 | every matching unused row is marked, and the count of them returned |
| `OperatorAuth.Console.VerifySecondFactor` | internal/store/auth.go:248-282 | a TOTP passes only for a later time step, a recovery code only if exactly one unused row has its hash |
| `OperatorAuth.Console.ClearMFA` | internal/store/auth.go:293-311 | secret, enrolment, codes and sessions of the user are gone, those of others untouched |
| `OperatorAuth.Console.SetUserDisabled` | internal/store/auth.go:313-328 | disabling ends the user's sessions |
| `OperatorAuth.Console.AddUser` | internal/store/auth.go:45-69 | a user is added exactly for a known role, a new name and an acceptable password |
| `OperatorAuth.Console.PruneSessions` | internal/store/auth.go:414-417 | exactly the expired sessions are removed |
| `OperatorAuth.Console.HandleLogin` | internal/console/api.go:225-268 | a session, not yet through, is opened exactly for a request let through with the right password of an account that is neither disabled nor locked; a request turned away changes nothing, and nothing else in the tables changes but the account's failures and lock |
| `OperatorAuth.Console.HandleLogout` | internal/console/api.go:270-279 | the session is gone, and nothing else changes |
| `OperatorAuth.Console.HandleSetup` | internal/console/api.go:301-325 | a secret is given exactly to a request let through of a live session whose user is not enrolled, and is the one stored |
| `OperatorAuth.Console.HandleConfirm` | internal/console/api.go:331-349 | it succeeds exactly for a request let through of a live session with an enrolment under way and a valid code; then the user is enrolled, and this session is through and no other one changed |
| `OperatorAuth.Console.HandleVerify` | internal/console/api.go:351-373 | it succeeds exactly for a request let through of a live session and a second factor that is not refused; then this session is through and no other one changed; a request turned away has its session looked up and no more |
| `OperatorAuth.Console.RequireAdmin` | internal/console/api.go:136-175 | an administrator's session is one that is live, through, and of an admin |
| `OperatorAuth.Console.BootstrapAdmin` | cmd/wordeye/serve.go:179-200 | an administrator is added exactly where there is no user yet |
| `OperatorAuth.Console.HandleCreateUser` | internal/console/api.go:819-832 | a user is added exactly by an administrator and where the user may be added |
| `OperatorAuth.Console.HandleResetMFA` | internal/console/api.go:834-847 | an administrator clears a user's second factor, codes and sessions; anyone else changes nothing but an expired session |
| `OperatorAuth.Console.HandleDisableUser` | internal/console/api.go:853-874 | likewise for disabling; nobody disables their own account |
| `OperatorAuthWorks.LoginOpensASession` | internal/console/api.go:225-268 | the right password of an account that is neither disabled nor locked begins a session of twelve hours |
| `OperatorAuthWorks.TOTPLetsThrough` | internal/store/auth.go:248-267 | a TOTP of a later time step lets an enrolled user's live session through, and pins the step |
| `OperatorAuthWorks.RecoveryLetsThrough` | internal/store/auth.go:270-281 | so does a recovery code of which exactly one row is unused, and it is spent |
| `OperatorAuthWorks.NothingElseLetsThrough` | internal/store/auth.go:248-282 | a user who is not enrolled, a TOTP of a step that is past or spent, and a code that is neither leave every session as it was |
| `OperatorAuthWorks.EnrolmentLetsThrough` | internal/console/api.go:331-349 | a valid code for the secret enrols the user, lets the session through, and replaces the user's codes |
| `OperatorAuthWorks.SessionsAreExact` | internal/console/api.go:225-373 | what every request does to every session: which there are, and which are through |
| `OperatorAuthWorks.ThroughIsExact` | internal/console/api.go:331-373 | over every run a session is through exactly if a second factor or an enrolment of it succeeded and it has not been ended since |
| `OperatorAuthWorks.OnlyGuessesLock` | internal/store/auth.go:118-158 | the right password of an enabled account is accepted after any run unless it holds eight wrong guesses, one of them in the last quarter of an hour |
| `OperatorAuthWorks.ResettingClearsTheUser` | internal/store/auth.go:293-311 | an administrator's reset takes away one user's second factor and codes, and no one else's |
| `OperatorAuthWorks.OnlyLoginOpens` | internal/console/api.go:225-268 | a session that is new after a request was opened by a login with the right password |
| `OperatorAuthWorks.SetupStoresTheSecret` | internal/console/api.go:301-325 | a first enrolment stores its secret, and nothing else |
| `OperatorAuthWorks.CreatingAddsTheUser` | internal/console/api.go:819-832 | a new user has the name, role and password given, and is not enrolled |
| `OperatorAuthWorks.DisablingSetsTheFlag` | internal/store/auth.go:313-328 | disabling and enabling set one user's flag, and leave other users and all codes alone |
| `OperatorAuthLaws.NextKeeps` | internal/console/api.go:225-373 | every request keeps the invariant |
| `OperatorAuthLaws.EveryRunKeeps` | internal/store/auth.go:118-407 | over every run: enrolled users have a secret, sessions that are through are of enrolled users, disabled users have no session, only enrolled users have codes, stored failures stay below eight |
| `OperatorAuthLaws.AdminsAreEnrolled` | internal/console/api.go:136-175 | whoever administers is enrolled, not disabled and has an unexpired session |
| `OperatorAuthLaws.GuardIsNeeded` | internal/console/api.go:304-308 | beginning an enrolment keeps the invariant exactly when the user is not enrolled or has neither a session that is through nor codes |
| `OperatorAuthLaws.OneTOTPPerStep` | internal/store/auth.go:261-267 | between resets the TOTPs accepted for a user are of strictly rising time steps (section 5.2 of RFC 6238) |
| `OperatorAuthLaws.RecoveryIsOnce` | internal/store/auth.go:270-281 | until new codes are issued a recovery code lets its user in at most once, and only if one unused row has its hash |
| `OperatorAuthLaws.LockoutLimitsGuesses` | internal/store/auth.go:141-155 | in any quarter of an hour at most eight wrong passwords for a user are looked at, as long as the right one is not presented |
| `Debounce.OsCheck.Due` | internal/agent/monitor_os_linux.go:76-86 | an event runs the check if the window is open, else a run is owed |
| `Debounce.OsCheck.TakePending` | internal/agent/monitor_os_linux.go:89-98 | a drain claims a run exactly when one is owed and the window is open |
| `Debounce.OsGuard.constructor` | internal/agent/monitor_os_linux.go:222-228 | each directory is bound to the check of its last target |
| `Debounce.OsGuard.Handle` | internal/agent/monitor_os_linux.go:269-279 | an event serves the check bound to its directory and leaves the others alone |
| `Debounce.OsGuard.DrainAll` | internal/agent/monitor_os_linux.go:252-266 | every check, however many directories share it, is drained once |
| `Debounce.OsGuard.Drive` | internal/agent/monitor_os_linux.go:249-279 | over any sequence of events and drains each check goes through its own operations, and runs exactly when they say: what follows of every run of one check holds of all |
| `Debounce.EventIsServed` | internal/agent/monitor_os_linux.go:66-98 | the check runs at the first operation at or after the event that finds the window open, and not before |
| `Debounce.EventIsOwed` | internal/agent/monitor_os_linux.go:66-86 | an event not served by the end of a run is still owed |
| `Debounce.DelayIsBounded` | internal/agent/monitor_os_linux.go:249-266 | where the loop comes by at least every gap, an event is served within debounce and gap |
| `Debounce.RunsAreSpaced` | internal/agent/monitor_os_linux.go:52-61 | two runs of a check are at least the debounce apart |
| `Debounce.OwedHasACause` | internal/agent/monitor_os_linux.go:89-98 | a drain runs a check only for an earlier event that has not been served |
| `Trailer.GetAfterPut` | internal/agent/embedded.go:120-120 | the length reads back for every 32-bit value |
| `Trailer.LayoutIsFixed` | internal/agent/embedded.go:48-124 | a stamped image is image and body, the body's length with its lowest byte first, the fourteen characters of the magic word and two zeros |
| `Trailer.Stamp` | internal/agent/embedded.go:96-124 | nothing is written for an invalid, stamped or oversized input; else the stamped image, or as much as the writer takes |
| `Trailer.BodyIsExact` | internal/agent/embedded.go:127-140 | a body is found exactly in what stamping can make, and is then that body |
| `Trailer.RoundTrip` | internal/agent/embedded.go:96-144 | given an inverse JSON codec, the stamped configuration reads back and the image is an unchanged prefix |
| `Trailer.SecondStampIsRefused` | internal/agent/embedded.go:100-105 | a second stamp is refused whatever its configuration |
| `Trailer.TailIsEnough` | internal/agent/embedded.go:173-180 | for every file, parsing its last 65556 bytes is parsing the file |
| `Trailer.Load` | internal/agent/embedded.go:157-192 | an unstamped executable is plain, an invalid configuration unusable, a valid one is returned, from the tail alone |
| `Baseline.ParseAfterDec` | internal/agent/baseline.go:152-152 | a size reads back for every 63-bit value |
| `Baseline.NumbersAreRead` | internal/agent/baseline.go:282-282 | a sign is understood, and a size that does not fit 64 bits becomes the nearest that does |
| `Baseline.NoNumberIsZero` | internal/agent/baseline.go:282-282 | what is no number is zero |
| `Baseline.WriteBaseline` | internal/agent/baseline.go:148-153 | the file written for a header and entries |
| `Baseline.ReadBaseline` | internal/agent/baseline.go:259-292 | entries and date, or empty, too long a line, or the index out of range, as scanning line by line gives |
| `Baseline.WrittenLines` | internal/agent/baseline.go:148-153 | a file written has the title, the line of site, root, date and count, and one line for each entry in order, and no other |
| `Baseline.LastLineWins` | internal/agent/baseline.go:259-292 | for any file read to its end: a path is known exactly if some line records it, and what is known is what the last such line says |
| `Baseline.LineRoundTrip` | internal/agent/baseline.go:281-286 | a line reads back as its entry exactly when the path does not end in a carriage return |
| `Baseline.DateReadsBack` | internal/agent/baseline.go:275-278 | the date read back is the date written, where nothing before it in the line looks like it |
| `Baseline.RoundTrip` | internal/agent/baseline.go:148-153 | for distinct paths the format can hold, reading what was written gives exactly the entries, whatever the site is called |
| `Baseline.CrashIsExact` | internal/agent/baseline.go:266-279 | the reader stops with the index out of range exactly when a comment line whose first taken= is followed by white space only is reached before a line that is too long |
| `Baseline.TooLongIsExact` | internal/agent/baseline.go:263-288 | it gives up on a long line exactly when there is one and no such comment line comes first |
| `Baseline.BareDateStops` | internal/agent/baseline.go:277-277 | so a header that ends in taken= stops it, whatever follows |
| `Baseline.Verify` | internal/agent/baseline.go:185-207 | new, changed and removed are the sizes of the three parts of the difference |
| `Baseline.NoDriftIsAgreement` | internal/agent/baseline.go:190-207 | all three are zero exactly when the trees have the same files with the same digests |
| `Baseline.PartsOfTheDifference` | internal/agent/baseline.go:190-207 | the parts are disjoint and with the unchanged files make up both trees |

## Left out

- PhpConstSound.AnswersArePossible: lets any substr length be left off, also one the code resolves; it is for answers that met a limit. `PhpConstExact.ResolverIsExact` is the statement for all others.
- PhpConstSound.EveryAnswerIsPossible: likewise; `PhpConstExact.EveryAnswerIsExact` is the statement for queries that meet no limit.
- PhpConstModest.ModestProgramsAreExact: says nothing of one program beyond the sizes, which can still be answered right, since a value the limits cut off may not be needed. Over all files the sizes are sharp (`PhpConstSharp.RanksAreSharp`, `PhpConstSharp.StepsAreSharp`).
- PhpConstModest.Ask: takes the assignments as the constructor keeps them; that the regular expression finds them is shown for the files of `PhpConstChain` and `PhpConstLong` only.
- OperatorAuthLaws.EveryRunKeeps: takes a request as one step. The handlers make several statements over one database connection, and a request that reads a user before another one enrols it can run the guard on stale data; `OperatorAuthLaws.GuardIsNeeded` says what that costs.
- OperatorAuthLaws.OneTOTPPerStep: is stated for the verify handler and per time step; the code pins the current step, not the step of the code within the accepted skew, and the confirm handler checks no step.
- PendingQueue.NewestAreKept: assumes one flush at a time, which the upgrade command does not keep to; `PendingQueue.OrderOverRuns` is the statement for any number.
- Limiter.BoundIsExact: is stated for a period of at least one tick; every limiter of the console has a minute.
- ContainmentEngine.Engine.RunContainment: conservation is stated for targets of which none replaces another one before it, which `ContainmentLaws.EvidenceClashIsExact` shows is needed, with no one else changing the files meanwhile; a path stands for a place as it is spelled, also one that climbs out of the quarantine directory. Its copies of launchers are named by the whole path, where the code replaces other characters, so that two launchers could share one. One stamp stands for the time of a whole run.
- Oracles: regular expressions, JSON, hashing, inflate, base64, the PHP escape rules, the health probe, signals, the file system's success or failure, clocks and random values are arbitrary functions or answers.
- Bytes are characters below 256 in the PHP text modules; lower-casing is ASCII only, where the code lower-cases gates and process names by Unicode.
- Integer widths: node numbers, offsets and counters are unbounded, except the 64-bit sizes of the baseline, the 32-bit length of the trailer and the 1<<62 of the window sweep.
- `MatchContent` and `Compile` of the rule engine, beyond its gates and its window: match lists are capped at 512, so the window stage is not complete.
- `concatChains`, `isConcatGap` and `stringValues` of the lexer; `longestEncodedRun`, scoring and entropy of the heuristics.
- The load pause of the governor, its memory limits and its throttle budget; requests of negative size.
- Floating point: the token bucket is over real numbers.
- Absolute finding paths, file modes (a file that cannot be opened for writing is one of the file system's answers) and timestamps; the name of the flush stub is taken to be new.
- What lets a request through to a handler (header and CSRF checks, body, rate limiter) is one arbitrary answer; `Limiter` models the limiter by itself. Audit rows, database errors, `ChangePassword`, which nothing calls.
- The match lists of the taint analysis are given; the code takes 400 assignments and 200 calls at most.
- White space beyond ASCII in the baseline's date; opening and creating files.
- End-to-end delivery to the console, which cuts a batch at 2000 without counting the rest as failed.
- YARA, HTTP, TLS, SQL text, /proc parsing, inotify, reports and the user interface.
