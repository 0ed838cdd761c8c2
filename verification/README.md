# Loom in Dafny

A model of the deterministic core of `loom`, the driver that runs coding agents over
beads, and of one function of `tmux-mcp`. The model follows the code, branch by branch.
Files, processes, git, SQLite, the clock and the agents become abstract state and
arbitrary functions: whatever they can do, the theorems hold.

One module per component:

- `Calendar`, `CivilDays`, `AuditTime`: the calendar counted day by day, the closed form of
  the log-file formatter, and the counting loops of the audit log compared with it.
- `UtcStamp`, `BeadLog`: the sortable stamp, bead ids, and the log files named after both.
  The stamp is the basic format of section 4.3.2 of ISO 8601:2004.
- `Utf8`, `PreviousFailure`: character boundaries of well-formed UTF-8 (section 4 of
  RFC 3629), and the cut of the failure text for a retry.
- `Framing`, `Session`: lines out of a byte stream under a size bound, the event queue of
  a live agent session, and its consumer.
- `Options`, `Checklist`, `Companions`, `CommandUse`: the parsers, each with the format it
  reads or the search it is meant to be.
- `StateStore`: the tables, the statements each operation issues one by one, and the
  operations as a class.
- `Retention`: the sweep over a directory tree.
- `RunLoop`, `CheckGate`: the retry machine, the push gate, and the chain of both.
- `GitRepo`, `Batch`: the git client over an abstract repository; worktrees, agents
  finishing in any order, and the merge back.
- `LockPaths`, `Locks`, `LockManager`: which file a label locks; the lock manager as
  interleaved steps of any number of calls; and the calls as code that takes those steps.
- `Prelude`, `Text`: shared datatypes, the lexicographic order, and Rust's string functions.

Methods carry the source's loops and updates and are proved against functions, or against
what the source promises; the lemmas then speak about those functions for all inputs.

## What the model shows about the code

Where code and documentation disagree, the model follows the code. Each point is a lemma
or a clause of a contract.

- The two calendars agree exactly while the day count fits in `i32`; beyond that the audit
  log wraps and prints a different date.
- Stamps sort chronologically below the year 10000 and not across it.
- The line cap counts the terminator and is checked after the line was read; a line that is
  not UTF-8 fails before its length is looked at.
- A checklist link may follow its checkbox at any later line before the next checkbox; the
  documentation only knows the next non-blank line. The two agree exactly if every link
  stands there. A section without checkboxes is reported as missing.
- After another `##` section a second `## Options` block is read too, and its summary
  replaces the first; directly after the first block the same heading only ends that block.
- The rebuild report counts a companion listed twice in one spec twice; it is stored once.
  Neither a rebuild nor a replacement is a transaction, yet no failure leaves a row that
  refers to a missing spec.
- A clarified bead reports what its last attempt was told, the failure before the last.
- The check counter is reset before the push, so a failed push leaves it at 0.
- After the first merge conflict nothing merges any more in that batch: the index stays
  unmerged, and each later succeeded bead is reported as a conflict, although the
  documentation reserves that for branches whose own merge conflicted. The two agree
  exactly if, deciding each bead by its own merge, nothing would merge after a conflict.
  The worktree and branch of a panicked worker stay.
- The reserved lock label is compared as text: `./workspace` passes and names
  `workspace.lock`. A workspace call sees exactly the labels that lead back to the locks
  directory with a base name neither reserved nor empty: not the empty label, and not
  `../alpha`. `acquire_spec` never looks at `workspace.lock`, so a spec guard can be taken
  beside a live workspace guard, and also between its probe and the end of the call.
- The retention comment speaks of skipping a cutoff before the Unix epoch; the code sweeps
  with it, and from the epoch on no retention is long enough for the skip.

## Model

| member | source | states |
|---|---|---|
| CivilDays.CommentedRanges | loom/crates/loom-core/src/logging/time.rs:53-69 | for every day number, negative ones included, doe, yoe, doy, mp, d and m stay in their commented ranges, and none of the unsigned subtractions underflows |
| CivilDays.CivilCountsBack | loom/crates/loom-core/src/logging/time.rs:53-69 | the closed form always gives a valid proleptic Gregorian date, and counting days year by year and month by month up to that date gives back the input |
| CivilDays.CivilInvertsCount | loom/crates/loom-core/src/logging/time.rs:53-69 | the closed form of a valid date's day number is that date: with CivilCountsBack, a bijection between day numbers and valid dates |
| CivilDays.CivilOrdered | loom/crates/loom-core/src/logging/time.rs:53-69 | a later day number is a later date |
| Calendar.DayNumberOrdered | loom/crates/loom-core/src/logging/time.rs:53-69 | the reference count grows strictly with the date, so it is injective on valid dates |
| AuditTime.CountYears | lib/mcp/tmux/tmux-mcp/src/audit.rs:154-164 | the year loop terminates where subtracting whole years stops |
| AuditTime.CountMonths | lib/mcp/tmux/tmux-mcp/src/audit.rs:166-181 | the month loop equals subtracting month lengths one by one, and stops at a month of at most 12 whenever the remainder lies within the year |
| AuditTime.TimestampParts | lib/mcp/tmux/tmux-mcp/src/audit.rs:142-186 | the imperative counting form computes the six fields of the counting functions |
| AuditTime.AuditCountsBack | lib/mcp/tmux/tmux-mcp/src/audit.rs:142-186 | for every day count that fits in i32 the counting loops land on the valid date with exactly that day number |
| AuditTime.FastFormRefinesLoops | loom/crates/loom-core/src/logging/time.rs:38-69 | over all u64 seconds, the closed form and the counting loops return the same six fields if and only if the day count fits in the i32 the loops cast it to |
| AuditTime.WrappedDatesDiffer | lib/mcp/tmux/tmux-mcp/src/audit.rs:142-164 | for every day count of 2^31 or more that u64 seconds can reach, the two dates really differ: no wrap of the year makes up for the wrap of the day count |
| UtcStamp.StampsSortChronologically | loom/crates/loom-core/src/logging/time.rs:27-46 | below the year 10000, one second precedes another if and only if its printed stamp is lexicographically smaller |
| UtcStamp.StampLength | loom/crates/loom-core/src/logging/time.rs:27-36 | below the year 10000 every stamp has 16 characters |
| UtcStamp.StampReadsBack | loom/crates/loom-core/src/logging/time.rs:27-36 | all six fields read back from their places in the stamp |
| UtcStamp.StampInjective | loom/crates/loom-core/src/logging/time.rs:27-36 | below the year 10000 equal stamps mean equal seconds |
| UtcStamp.OrderFailsAtYear10000 | loom/crates/loom-core/src/logging/time.rs:27-36 | the bound is tight: the first second of the year 10000 sorts before the second it follows |
| UtcStamp.SortsExactlyBelowYear10000 | loom/crates/loom-core/src/logging/time.rs:27-46 | for every bound within u64: all pairs of seconds below it print in order if and only if the bound is at most the year 10000 |
| UtcStamp.PreEpochSaturates | loom/crates/loom-core/src/logging/time.rs:27-36 | every time before the epoch, and the first second after it, prints as the epoch |
| BeadLog.BeadIdAcceptsGrammar | loom/crates/loom-core/src/identifier/bead.rs:21-45 | the splitting recogniser accepts exactly the strings generated by the documented grammar, unchanged, and rejects all others |
| BeadLog.LogStem | loom/crates/loom-core/src/logging/path.rs:35-45 | the stem of a log file is the bead id, a dash and the stamp, and its extension is ndjson |
| BeadLog.LogFilterExact | loom/crates/loom-workflow/src/logs_cmd.rs:88-95 | for all valid ids and all times, a log file's stem belongs to a bead if and only if it is that bead's log |
| BeadLog.LogNamesDistinct | loom/crates/loom-core/src/logging/path.rs:35-45 | distinct (bead, second) pairs never share a file name, below the year 10000 |
| BeadLog.CandidatesAreOwnLogs | loom/crates/loom-workflow/src/logs_cmd.rs:60-80 | among logs of any beads the selection keeps exactly the requested bead's files |
| BeadLog.SelectLog | loom/crates/loom-workflow/src/logs_cmd.rs:48-86 | the selected file is a candidate of maximal modification time, the first such in listing order; nothing is selected if and only if there is no candidate |
| Utf8.EncodedIsAccepted | loom/crates/loom-templates/src/run/mod.rs:26-30 | every scalar value's encoding is accepted as one character, whatever follows |
| Utf8.AcceptedIsEncoded | loom/crates/loom-templates/src/run/mod.rs:26-30 | every accepted character is the encoding of a scalar value |
| Utf8.ValidIffEncoded | loom/crates/loom-templates/src/run/mod.rs:26-30 | text is well formed if and only if it is the encoding of some sequence of scalar values |
| Utf8.BoundarySplits | loom/crates/loom-templates/src/run/mod.rs:26-30 | cutting well-formed UTF-8 at a character boundary leaves two well-formed parts |
| Utf8.ValidPrefixEndsAtBoundary | loom/crates/loom-templates/src/run/mod.rs:26-30 | conversely, a well-formed prefix ends at a character boundary |
| Utf8.BoundaryNearby | loom/crates/loom-templates/src/run/mod.rs:26-30 | of any four consecutive positions one is a character boundary, so the cut moves back at most three bytes |
| PreviousFailure.Truncate | loom/crates/loom-templates/src/run/mod.rs:23-33 | the in-place cut leaves the longest well-formed prefix of at most 4000 bytes; short text is unchanged, cut text keeps at least 3997 bytes |
| PreviousFailure.TruncationIdempotent | loom/crates/loom-templates/src/run/mod.rs:23-33 | truncating twice changes nothing more |
| PreviousFailure.NextCharacterDoesNotFit | loom/crates/loom-templates/src/run/mod.rs:23-33 | when text is cut, the whole next character would have crossed the cap |
| Framing.NdjsonReader.NextLine | loom/crates/loom-core/src/agent/ndjson.rs:40-59 | one call returns the first non-blank segment, trimmed, or the first error, and leaves exactly the later segments unread |
| Framing.NdjsonReader.ReadLine | loom/crates/loom-core/src/agent/ndjson.rs:42-46 | the line read takes exactly one segment off the stream, and keeps it out of the buffer when it is not UTF-8 |
| Framing.NdjsonReader.TrimBuffer | loom/crates/loom-core/src/agent/ndjson.rs:53-54 | the in-place truncation removes exactly the trailing line feeds and carriage returns |
| Framing.SegmentsCut | loom/crates/loom-core/src/agent/ndjson.rs:40-59 | the segments concatenate to the stream and each but the last ends in its only line feed |
| Framing.CutIsUnique | loom/crates/loom-core/src/agent/ndjson.rs:40-59 | there is no other way to cut a stream like that |
| Framing.ReadAllIsTrimmedSegments | loom/crates/loom-core/src/agent/ndjson.rs:40-59 | for any bytes, successive reads give the trimmed segments without the empty ones up to the first segment that is too long or not UTF-8, and then that error |
| Framing.FramingRoundTrip | loom/crates/loom-core/src/agent/ndjson.rs:40-59 | any lines, each with its own number of carriage returns before the line feed, with blank lines anywhere and an optional unterminated last line, read back exactly |
| Framing.CapCountsTerminator | loom/crates/loom-core/src/agent/ndjson.rs:43-55 | a line is read back if and only if text, carriage returns and line feed together stay within the cap |
| Session.NextEventPeels | loom/crates/loom-core/src/agent/session.rs:77-100 | each call peels its writes and then its one event off the flat stream of the session |
| Session.QueueRefinesFlat | loom/crates/loom-core/src/agent/session.rs:77-100 | for any parser, any pipe failures, any queue and any segments, repeated calls write and return exactly the concatenation, line by line, of the response and then all events, up to the first failure or the end |
| Session.WrittenLinesAreActedOn | loom/crates/loom-core/src/agent/session.rs:77-100 | end to end with the framing: what an agent prints, in any line endings, is what the session acts on |
| Session.MessagesOfFlat | loom/crates/loom-core/src/agent/session.rs:86-92 | the responses accepted by the pipe are written once each, in line order, and nothing else is |
| Session.EventsOfFlat | loom/crates/loom-core/src/agent/session.rs:93-97 | every event of every line is returned once, in line order and in the order of its line, up to the first failure |
| Session.EachResponseIsOneLine | loom/crates/loom-core/src/agent/session.rs:86-92 | on the agent's side of the pipe every one-line response is exactly one line, terminated whether or not it was, in order |
| Session.Framed | loom/crates/loom-core/src/agent/session.rs:87-91 | what is written ends in a line feed, and differs from the response only by one that was missing |
| Session.AgentSession.Prompt | loom/crates/loom-core/src/agent/session.rs:54-66 | the session becomes active exactly if the prompt is encoded and written; the queue is untouched |
| Session.AgentSession.ReadRound | loom/crates/loom-core/src/agent/session.rs:82-98 | one round of the read loop is one unfolding of the specified step |
| Session.AgentSession.NextEvent | loom/crates/loom-core/src/agent/session.rs:77-100 | the stateful call returns, queues, reads and writes exactly what the specified step does |
| Session.AgentSession.Steer | loom/crates/loom-core/src/agent/session.rs:104-109 | a steering message is written once or not at all, and leaves the queue and the unread stream alone |
| Session.AgentSession.Abort | loom/crates/loom-core/src/agent/session.rs:117-131 | on success the session is idle with an empty queue, and the abort command was written if there is one |
| Session.RunAgent | loom/crates/loom-workflow/src/agent.rs:27-49 | the outcome is the first completion of the flat stream; without one it is the failure that ended the stream, or UnexpectedEof; exactly the prompt and the responses before the completion were written, what follows the completion is still to come, and nothing was written or read if the prompt fails |
| Session.Consume | loom/crates/loom-workflow/src/agent.rs:32-48 | the event loop, from any session state, computes the verdict on the remaining flat stream, and leaves what follows the completion |
| Session.CompletedAt | loom/crates/loom-workflow/src/agent.rs:32-48 | the first completion decides, whatever follows it |
| Options.ParseOptions | loom/crates/loom-workflow/src/msg/options.rs:49-99 | the loop with its mutable flags computes the line machine's result on the lines of the text |
| Options.TakeDigits | loom/crates/loom-workflow/src/msg/options.rs:127-137 | the split is at the end of the longest digit prefix |
| Options.JoinBody | loom/crates/loom-workflow/src/msg/options.rs:159-168 | the two trimming loops leave the joined lines without surrounding line feeds |
| Text.JoinIsUnlines | loom/crates/loom-workflow/src/msg/options.rs:160 | the joined body has a line feed between its lines and none at its end |
| Options.CaptionReadsBack | loom/crates/loom-workflow/src/msg/options.rs:139-153 | a text behind any of the four separators, or nothing at all, is recovered exactly |
| Options.SeparatorCut | loom/crates/loom-workflow/src/msg/options.rs:139-153 | exactly one of the four separators is cut, behind white space, and the text behind it is trimmed |
| Options.NoSeparatorCut | loom/crates/loom-workflow/src/msg/options.rs:139-153 | a text that starts with no separator is only trimmed |
| Options.OptionHeadingReadsBack | loom/crates/loom-workflow/src/msg/options.rs:111-125 | every u32 number and every caption printed as an option heading is recognised with that number and caption |
| Options.OptionHeadingIff | loom/crates/loom-workflow/src/msg/options.rs:111-125 | a line is read as the heading of option n with a title if and only if it is spelled so: the three hashes, Option, white space, the digits of a u32 number, and nothing or white space and the title |
| Options.HeadingsByText | loom/crates/loom-workflow/src/msg/options.rs:101-109 | a line ends the block if and only if it starts with two hashes and a space, and opens one if and only if it is the Options heading, alone or followed by white space |
| Options.BodyReadsBack | loom/crates/loom-workflow/src/msg/options.rs:159-168 | a body between any numbers of blank lines is recovered exactly |
| Options.ScanOption | loom/crates/loom-workflow/src/msg/options.rs:64-90 | from any state inside the block, a printed option closes the one before it and contributes exactly its own number, title and body |
| Options.OptionsRoundTrip | loom/crates/loom-workflow/src/msg/options.rs:49-99 | printing any well-formed description (text before, summary, text between, options with empty or non-empty titles and bodies, any section after) and parsing it returns the same summary, numbers, titles and bodies in order; well-formed is said of the text alone |
| Options.NoBlockNothingParsed | loom/crates/loom-workflow/src/msg/options.rs:49-62 | without an Options heading the result is the default, whatever else the text holds |
| Options.LaterBlockReplacesSummary | loom/crates/loom-workflow/src/msg/options.rs:56-62 | after another section a second block is read too: options accumulate and the later summary replaces the earlier one |
| Options.SecondOptionsHeadingEndsTheBlock | loom/crates/loom-workflow/src/msg/options.rs:78-86 | in any description an Options heading right after the options only ends the block: neither its summary nor anything below it is read |
| CommandUse.FindSubslice | loom/crates/loom-workflow/src/spec/deps.rs:125-130 | the first occurrence, or none if there is none; the empty needle is never found |
| CommandUse.HasCommandUse | loom/crates/loom-workflow/src/spec/deps.rs:104-123 | true if and only if some occurrence, overlapping ones included, is delimited on both sides; the skip-by-one loop terminates |
| CommandUse.ScanFileBody | loom/crates/loom-workflow/src/spec/deps.rs:94-102 | the packages are exactly those of the table rows whose tool is used |
| CommandUse.ToolPackages | loom/crates/loom-workflow/src/spec/deps.rs:15-54 | of the 38 tools each comes from the package of its own name, but for fifteen given ones |
| CommandUse.ScanRows | loom/crates/loom-workflow/src/spec/deps.rs:94-102 | the same for any table with non-empty single-line tool names |
| CommandUse.UsedByText | loom/crates/loom-workflow/src/spec/deps.rs:104-138 | a tool is used if and only if it stands in the text with nothing, or one of the seven separators of its side, around it |
| CommandUse.UsedAcrossNewline | loom/crates/loom-workflow/src/spec/deps.rs:104-138 | a tool is used in a text if and only if it is used on one of the sides of any of its newlines |
| CommandUse.ScanSplitsAtNewlines | loom/crates/loom-workflow/src/spec/deps.rs:94-102 | scanning a file whole finds the union of what its line-wise pieces give |
| Checklist.CaptureBalanced | loom/crates/loom-workflow/src/spec/annotations.rs:177-197 | the depth-counting loop returns a target if and only if some balanced text is followed by a closing parenthesis, and then that text |
| Checklist.CaptureIsBalanced | loom/crates/loom-workflow/src/spec/annotations.rs:177-197 | the captured target is balanced, and every balanced target followed by a parenthesis is the captured one: there is exactly one |
| Checklist.ParseBody | loom/crates/loom-workflow/src/spec/annotations.rs:49-123 | the flag-driven loop returns exactly the rows of the unfenced lines of the Success Criteria section, or nothing when there are none |
| Checklist.RowOfCheckboxLine | loom/crates/loom-workflow/src/spec/annotations.rs:49-123 | rows and checkbox lines of the section correspond one to one in order: the k-th checkbox is the k-th row, with its text, its mark and its first link |
| Checklist.LinkIsFirstAnnotation | loom/crates/loom-workflow/src/spec/annotations.rs:99-111 | a row has a link if and only if an annotation line occurs before the next checkbox, and then it is the first such line |
| Checklist.LinkAsDocumentedIff | loom/crates/loom-workflow/src/spec/annotations.rs:4-6 | the link the code finds is the documented one, on the next non-blank line, if and only if there is none before the next checkbox or one on that line; a documented link is always found |
| Checklist.RowsAsDocumentedIff | loom/crates/loom-workflow/src/spec/annotations.rs:4-6 | all rows of a section are the documented ones if and only if every link stands on the next non-blank line behind its checkbox |
| Checklist.LateLinkIsPaired | loom/crates/loom-workflow/src/spec/annotations.rs:99-111 | any non-blank line between a checkbox and its link: the code pairs them, the documentation does not |
| Checklist.LateLink | loom/crates/loom-workflow/src/spec/annotations.rs:99-111 | such a section, with the rows of both |
| Checklist.UnfencedLines | loom/crates/loom-workflow/src/spec/annotations.rs:56-65 | the toggling flag keeps exactly the non-fence lines preceded by an even number of fences |
| Checklist.FenceIff | loom/crates/loom-workflow/src/spec/annotations.rs:58-62 | a fence is three backticks behind white space |
| Checklist.CheckboxIff | loom/crates/loom-workflow/src/spec/annotations.rs:146-160 | a line is a checkbox with a text and a mark if and only if it is spelled so; it is checked if the mark is an x in either case |
| Checklist.AnnotationIff | loom/crates/loom-workflow/src/spec/annotations.rs:162-175 | a line carries a link if and only if it is spelled so: its kind's opening, a balanced target, a closing parenthesis |
| Checklist.CriteriaHeadingIff | loom/crates/loom-workflow/src/spec/annotations.rs:125-132 | the section starts at two hashes, white space or none, and Success Criteria |
| Checklist.OtherH2Iff | loom/crates/loom-workflow/src/spec/annotations.rs:134-144 | it ends at two hashes that are not three and do not announce it again |
| Checklist.SectionIs | loom/crates/loom-workflow/src/spec/annotations.rs:66-84 | the section is everything between its first heading and the first other level-2 heading |
| Checklist.NothingReportedIff | loom/crates/loom-workflow/src/spec/annotations.rs:96-122 | nothing is reported if and only if the section, if there is one, holds no checkbox |
| Checklist.SectionWithoutCheckboxes | loom/crates/loom-workflow/src/spec/annotations.rs:96-122 | a Success Criteria section without a checkbox is reported like a missing section, whatever precedes and follows it |
| Companions.ParseCompanions | loom/crates/loom-core/src/state/companions.rs:14-38 | the loops compute the paths listed from the heading to the next heading |
| Companions.BulletReadsBack | loom/crates/loom-core/src/state/companions.rs:40-65 | a printed bullet is no heading and yields its path without leading slashes |
| Companions.HeadingIff | loom/crates/loom-core/src/state/companions.rs:40-44 | a heading is any number of hashes and a space behind white space |
| Companions.BacktickPathIff | loom/crates/loom-core/src/state/companions.rs:46-61 | a path is extracted if and only if it is a non-empty text between the only two backticks |
| Companions.NormalizeSplits | loom/crates/loom-core/src/state/companions.rs:63-65 | normalising takes all leading slashes and nothing else |
| Companions.PathsLineByLine | loom/crates/loom-core/src/state/companions.rs:21-36 | line by line, a bullet with a backticked path adds it and any other line but a heading is skipped |
| Companions.CompanionsRoundTrip | loom/crates/loom-core/src/state/companions.rs:14-65 | any list of paths printed as the section, with any text before and any heading and text after, reads back in order, leading slashes stripped |
| StateStore.OperationKeeps | loom/crates/loom-core/src/state/db.rs:141-218 | every operation, cut short at any statement, keeps every molecule and companion row referring to an existing spec row |
| StateStore.ReferencesHoldForLife | loom/crates/loom-core/src/state/db.rs:68-218 | the same over any sequence of operations and any statement failures |
| StateStore.RebuildForgetsThePast | loom/crates/loom-core/src/state/rebuild.rs:44-94 | a successful rebuild leaves tables that are a function of the spec files and molecules alone; without failing statements it succeeds if and only if no spec file and no kept molecule id occurs twice |
| StateStore.RebuiltRows | loom/crates/loom-core/src/state/rebuild.rs:56-89 | a rebuild stores every file's spec without notes and every molecule whose spec has a file at iteration 0, and nothing else |
| StateStore.ReportCountsRows | loom/crates/loom-core/src/state/rebuild.rs:44-94 | the report counts the spec and molecule rows; its companion count is the number of rows if and only if no spec lists a path twice |
| StateStore.CountedTwiceStoredOnce | loom/crates/loom-core/src/state/rebuild.rs:64-71 | a file that lists one path twice: two companions reported, one row stored |
| StateStore.RebuiltCompanionsReadBack | loom/crates/loom-core/src/state/rebuild.rs:44-94 | after a successful rebuild a label's companions are exactly the distinct paths its file lists, in ascending order |
| StateStore.ReplacedCompanionsReadBack | loom/crates/loom-core/src/state/db.rs:158-198 | replacing companions and reading them gives exactly one list, the distinct paths in ascending order, and no other label's companions change |
| StateStore.IncrementsReadBack | loom/crates/loom-core/src/state/db.rs:201-218 | k increments raise the stored counter by k, change nothing else, and read back modulo 2^32 |
| StateStore.IncrementsAfterRebuild | loom/crates/loom-core/src/state/rebuild.rs:83-87 | after any successful rebuild k increments of a kept molecule read back k modulo 2^32 |
| StateStore.ReplaceRun | loom/crates/loom-core/src/state/db.rs:158-183 | a successful replacement touches only the label's companions and spec row, whose notes it keeps |
| StateStore.StateDb.Open | loom/crates/loom-core/src/state/db.rs:68-85 | opening records the schema version only if there is none |
| StateStore.StateDb.Execute | loom/crates/loom-core/src/state/db.rs:141-218 | a statement that fails leaves the tables as they were |
| StateStore.StateDb.SetCurrentSpec | loom/crates/loom-core/src/state/db.rs:141-149 | the current spec is overwritten, everything else stays |
| StateStore.CurrentSpecReadsBack | loom/crates/loom-core/src/state/db.rs:128-149 | the spec that was set reads back, through any sequence of replacements and increments, however they end; a successful rebuild drops it |
| StateStore.StateDb.ReplaceCompanions | loom/crates/loom-core/src/state/db.rs:158-183 | runs exactly the specified statements up to the first that fails |
| StateStore.StateDb.InsertCompanions | loom/crates/loom-core/src/state/db.rs:175-181 | the insertion loop runs one statement per path up to the first that fails |
| StateStore.StateDb.Companions | loom/crates/loom-core/src/state/db.rs:186-198 | returns the label's distinct paths in strictly ascending order |
| StateStore.StateDb.ActiveMolecule | loom/crates/loom-core/src/state/db.rs:115-125 | the least molecule id of the spec, or none if there is none |
| StateStore.StateDb.IncrementIteration | loom/crates/loom-core/src/state/db.rs:201-218 | the new value if the molecule exists, an error otherwise |
| StateStore.StateDb.Rebuild | loom/crates/loom-core/src/state/rebuild.rs:44-94 | the nested loops run exactly the specified statements up to the first that fails, and report the specified counts |
| StateStore.StateDb.InsertSpecs | loom/crates/loom-core/src/state/rebuild.rs:56-72 | the spec loop inserts every file and its companions in order and counts the listed companions |
| StateStore.StateDb.InsertMolecules | loom/crates/loom-core/src/state/rebuild.rs:74-89 | the molecule loop inserts those whose spec has a file, and counts them |
| Retention.LogsTree.WalkAndSweep | loom/crates/loom-core/src/logging/retention.rs:70-124 | the recursive walk adds to the report exactly the tally of what it enumerates, and removes exactly the files it reports deleted |
| Retention.LogsTree.SweepEntry | loom/crates/loom-core/src/logging/retention.rs:85-123 | the same for one directory entry of each kind |
| Retention.SweepRetentionAt | loom/crates/loom-core/src/logging/retention.rs:31-68 | zero retention, a missing root and an unrepresentable cutoff change nothing; otherwise the report is the tally for the cutoff and exactly the deleted files are gone |
| Retention.CutoffMayPrecedeEpoch | loom/crates/loom-core/src/logging/retention.rs:47-60 | for every retention in u32 and every time from the epoch on, the sweep is skipped only for zero retention; its cutoff precedes the epoch if and only if the retention reaches back that far |
| Retention.EnumeratesWhatPathsLeadTo | loom/crates/loom-core/src/logging/retention.rs:70-124 | at any depth, a regular file is enumerated, and an untyped entry or unreadable directory is unseen, if and only if a path leads to it through readable directories |
| Retention.EnumeratedOnce | loom/crates/loom-core/src/logging/retention.rs:70-124 | no path is enumerated twice |
| Retention.TallyByVerdict | loom/crates/loom-core/src/logging/retention.rs:70-124 | the report lists the deleted and the failed paths in order, and its three counts add up to the number of entries |
| Retention.SweepConserves | loom/crates/loom-core/src/logging/retention.rs:70-124 | every enumerated entry is in exactly one of deleted, failed and recent; deleted if and only if it is a file older than the cutoff whose removal succeeds |
| RunLoop.ProcessOneBead | loom/crates/loom-workflow/src/run/runner.rs:122-147 | the first attempt is told nothing, attempt k+1 exactly the error of attempt k; the bead is clarified if and only if all max_retries + 1 attempts failed; an error is returned if and only if a call failed; the history is what the agent answered |
| RunLoop.PullBead | loom/crates/loom-workflow/src/run/runner.rs:88-99 | pulling takes the next bead in order, and reports an empty queue only when it is empty |
| RunLoop.FinishBead | loom/crates/loom-workflow/src/run/runner.rs:101-112 | a pulled bead is closed or clarified right after its attempts, as its history demands |
| RunLoop.HandOff | loom/crates/loom-workflow/src/run/runner.rs:91-98 | the hand-off to the check comes after all beads |
| RunLoop.RunBeads | loom/crates/loom-workflow/src/run/runner.rs:82-119 | over any run the trace is exactly the per-bead traces in pull order, then the hand-off, which happens if and only if the mode is Continuous and the queue is empty; Once runs exactly one bead if there is one; the summary counts match; a failure happens if and only if some call failed, between two beads or after some attempts at the next one |
| RunLoop.ConcludedOnceInOrder | loom/crates/loom-workflow/src/run/runner.rs:82-119 | every pulled bead is closed or clarified exactly once, in pull order |
| RunLoop.AttemptsThread | loom/crates/loom-workflow/src/run/runner.rs:127-146 | read off the calls: the first attempt carries no failure, each later one exactly the error of the one before, and only the last can have succeeded |
| RunLoop.BudgetMeans | loom/crates/loom-workflow/src/run/runner.rs:127-146 | a bead has at most max_retries + 1 attempts, and is given up if and only if it had them all and all failed |
| RunLoop.ClarifiedAreLabelled | loom/crates/loom-workflow/src/run/runner.rs:108-111 | the beads counted as clarified are those labelled |
| RunLoop.ReportedIsLastIff | loom/crates/loom-workflow/src/run/runner.rs:139-142 | the error a clarified bead reports is the agent's last answer if and only if its last two answers agree (without retries: if its only answer is empty) |
| RunLoop.ReportedIsNotLast | loom/crates/loom-workflow/src/run/runner.rs:139-142 | with two attempts that fail differently the first error is reported |
| CheckGate.DiffMembers | loom/crates/loom-workflow/src/check/verdict.rs:48-56 | the new ids are exactly the post-snapshot ids the pre-snapshot lacks |
| CheckGate.DiffLast | loom/crates/loom-workflow/src/check/verdict.rs:48-56 | the last new id is the last post-snapshot id the pre-snapshot lacks |
| CheckGate.ClarifyInOrder | loom/crates/loom-workflow/src/check/runner.rs:135-139 | the clarify ids are those of the labelled beads and no others: one before which there are k is the k-th |
| CheckGate.SnapshotsCompared | loom/crates/loom-workflow/src/check/runner.rs:132-139 | no clarify id and no new id if and only if every post-snapshot bead is unlabelled and known; the last new id is the newest such bead |
| CheckGate.DecideVerdict | loom/crates/loom-workflow/src/check/runner.rs:147-176 | clarify beats everything, no new bead means clean, and the counter against the cap decides the rest; an error only if the counter could not be read |
| CheckGate.ApplyVerdict | loom/crates/loom-workflow/src/check/runner.rs:178-210 | a verdict's effects happen in order, all of them or, exactly when a call fails, a proper prefix; the persisted counter is that of the effects done |
| CheckGate.CounterOfPrefix | loom/crates/loom-workflow/src/check/runner.rs:178-210 | after any non-empty part of a clean verdict the counter is 0, of an iteration it is the next number, otherwise unchanged |
| CheckGate.GateAfter | loom/crates/loom-workflow/src/check/runner.rs:118-210 | after any number of a verdict's effects, pushes are justified and ordered and the counter is 0, unchanged, or one more and within the cap |
| CheckGate.CheckLoop | loom/crates/loom-workflow/src/check/runner.rs:118-143 | the workspace gains the effects of the one verdict the snapshots and the counter call for, or the first of them, and nothing else; for every result which snapshots, effects and counter; a push only with nothing left to do, the branch push only right after the git push; errors exactly when a call failed or the review was incomplete |
| CheckGate.RunCheckChain | loom/crates/loom-workflow/src/check/runner.rs:118-210 | starting from a counter c within the cap, at most cap - c rounds auto-iterate before the chain ends; the counter never exceeds the cap; all that happens to the workspace is, per iterating round, counting up and handing over, and then the effects of the last round, justified by its snapshots; every run and check of an iterating round went through; the chain fails exactly if the last run or check made a call that failed, or its review was incomplete |
| CheckGate.ChainPushesOnce | loom/crates/loom-workflow/src/check/runner.rs:183-188 | all that a chain does to the workspace holds at most one push, and one only if the last round left nothing to do |
| GitRepo.SlotLayout | loom/crates/loom-core/src/git/client.rs:132-136 | the worktree and the branch of a bead lie where the documentation says, component by component |
| GitRepo.SlotsDistinct | loom/crates/loom-core/src/git/client.rs:127-150 | distinct beads never share a worktree path or a branch |
| GitRepo.BranchesBelow | loom/crates/loom-core/src/git/client.rs:132-145 | branches of one spec clash as paths exactly as their beads do |
| GitRepo.Git.CreateWorktree | loom/crates/loom-core/src/git/client.rs:127-150 | adds a branch that is fresh and clashes with no other name, on a fresh path, or changes nothing |
| GitRepo.Git.RemoveWorktree | loom/crates/loom-core/src/git/client.rs:153-163 | removes and prunes; a failed prune may leave the worktree removed |
| GitRepo.Git.DeleteBranch | loom/crates/loom-core/src/git/client.rs:170-173 | deletes an existing branch that is checked out nowhere, or changes nothing |
| GitRepo.Git.MergeBranch | loom/crates/loom-core/src/git/client.rs:178-202 | the merge is clean if and only if the index was not unmerged and the branch does not conflict, and then the driver gains it; a conflict leaves unmerged entries, which make every later merge a conflict |
| Batch.CreateWorktrees | loom/crates/loom-workflow/src/run/parallel.rs:128-140 | one slot per bead in order, all fresh and distinct, or on a failure the first ones; nothing else is added; it succeeds only if no two beads and no existing branch or worktree stand in the way, and then it fails only if the last git command did |
| Batch.ValidBeadsCompatible | loom/crates/loom-core/src/identifier/bead.rs:21-45 | beads with valid ids never clash as branch names: they only have to be distinct |
| Batch.RunConcurrentSpawns | loom/crates/loom-workflow/src/run/parallel.rs:152-185 | for every completion order the results are, as a multiset, those of the workers that did not panic |
| Batch.FinishedSlots | loom/crates/loom-workflow/src/run/parallel.rs:152-185 | each joined slot is finished exactly once with its own agent's outcome |
| Batch.MergeBackOne | loom/crates/loom-workflow/src/run/parallel.rs:207-246 | a succeeded bead is merged if and only if the index was clean and its branch does not conflict with the driver as it stands; worktree and branch survive exactly a conflict; with its worktree in place it fails only if the last git command did, and then the branch is still there |
| Batch.MergeBack | loom/crates/loom-workflow/src/run/parallel.rs:198-205 | each result is decided by the outcome, the conflicts before it and the driver as the merges before it left it; the driver gains exactly the merged branches in order; on an error this holds of the slots before the one whose git command failed |
| Batch.BatchLeavesConflicts | loom/crates/loom-workflow/src/run/parallel.rs:107-246 | after the merge-back the worktree and branch of a joined bead exist if and only if it is a conflict, and those of panicked workers remain |
| Batch.NothingMergesAfterConflict | loom/crates/loom-core/src/git/client.rs:178-202 | once a merge has conflicted nothing merges any more |
| Batch.AsDocumentedIff | loom/crates/loom-workflow/src/run/parallel.rs:191-197 | the results are the documented ones, each bead decided by its own merge, if and only if in the documented results nothing merges after a conflict and nothing at all on an unmerged index |
| Batch.CleanBranchReportedAsConflict | loom/crates/loom-workflow/src/run/parallel.rs:191-197 | two succeeded beads of which the first conflicts and the second would merge cleanly: both are reported as conflicts |
| Batch.InterruptedLeaves | loom/crates/loom-workflow/src/run/parallel.rs:103-106 | after a failed git command the slots not yet merged are still in their worktrees, on their branches |
| Batch.RunParallelBatch | loom/crates/loom-workflow/src/run/parallel.rs:107-120 | one result per joined worker in every completion order, each decided by the merges before it; the driver gains exactly the merged branches; what is left behind, and that nothing else is lost; it returns Ok only if nothing stands in the way of its worktrees, and then fails only if the last git command did; on an error what was merged stays merged and what was not stays in its worktree |
| Batch.FailedNeverMerged | loom/crates/loom-workflow/src/run/parallel.rs:207-246 | the branch of an agent that failed never reaches the driver |
| Batch.ProjectionsPartition | loom/crates/loom-workflow/src/run/parallel.rs:60-90 | merged, conflicting and failed ids together are the beads of the results, as multisets |
| Batch.MergedInOrder | loom/crates/loom-workflow/src/run/parallel.rs:61-69 | the merged ids are those of the merged results, in order |
| Batch.ConflictsInOrder | loom/crates/loom-workflow/src/run/parallel.rs:71-79 | the conflict ids are those of the conflicts, in order |
| Batch.FailuresInOrder | loom/crates/loom-workflow/src/run/parallel.rs:81-89 | the failure ids are those of the failed agents, in order |
| LockPaths.LockFileOf | loom/crates/loom-core/src/lock/manager.rs:104-106 | a label's lock file is its base name plus .lock in the directory its directory part leads to |
| LockPaths.AliasesWorkspaceIff | loom/crates/loom-core/src/lock/manager.rs:73-76 | a label's file is the workspace lock if and only if its base name is workspace and its directory part leads back to the locks directory |
| LockPaths.PlainLabels | loom/crates/loom-core/src/lock/manager.rs:104-106 | labels without a slash have distinct files, and only the reserved one has the workspace lock |
| LockPaths.SlashedLabelAliases | loom/crates/loom-core/src/lock/manager.rs:73-76 | a label that is not textually the reserved one can still name the workspace lock |
| LockPaths.ProbedIff | loom/crates/loom-core/src/lock/manager.rs:116-128 | a file name made of a base name is probed if and only if that is neither reserved nor empty |
| LockPaths.VisibleIff | loom/crates/loom-core/src/lock/manager.rs:104-128 | for every label: its lock file lies in the locks directory and is probed if and only if its directory part leads back there and its base name is neither reserved nor empty |
| LockPaths.PlainVisible | loom/crates/loom-core/src/lock/manager.rs:104-128 | a label without a slash is visible if and only if it is neither reserved nor empty |
| LockPaths.ParentLabelInvisible | loom/crates/loom-core/src/lock/manager.rs:104-128 | no label that starts at the parent directory is visible |
| LockPaths.AbsoluteLabel | loom/crates/loom-core/src/lock/manager.rs:104-106 | an absolute label leads to one file wherever the locks directory is |
| Locks.InvKept | loom/crates/loom-core/src/lock/manager.rs:68-174 | every step of every interleaved call keeps the lock table and the calls in agreement, and what each call knows about its own tries, deadline and probes |
| Locks.AtMostOneGuard | loom/crates/loom-core/src/lock/manager.rs:68-102 | at any instant of any run two live spec guards of one label or one file are the same, and so are two workspace guards |
| Locks.GuardsBesideWorkspace | loom/crates/loom-core/src/lock/manager.rs:68-102 | no live spec guard has the reserved label, and beside a live workspace guard none has a label leading to its file |
| Locks.OnlyGuardsAndProbesHold | loom/crates/loom-core/src/lock/manager.rs:110-174 | whatever is locked belongs to a live guard or to a probe about to let go: refused, sleeping and ended calls leave nothing locked |
| Locks.TriesBounded | loom/crates/loom-core/src/lock/manager.rs:140-160 | a timed call has tried at most timeout / 50 + 2 times in any state, and reports busy only after a try and at or after its deadline |
| Locks.NeverStuck | loom/crates/loom-core/src/lock/manager.rs:68-160 | a call that has not ended can always take its next step, if need be after the clock has moved on |
| Locks.WitnessesOfRun | loom/crates/loom-core/src/lock/manager.rs:110-174 | every free file a probe saw, and every held file a busy report or a refused try met, was so at an instant within the call |
| Locks.QuietInstants | loom/crates/loom-core/src/lock/manager.rs:86-137 | a workspace guard was granted only after every listed lock file had an instant, since the call began, with no live guard on it |
| Locks.ListedIff | loom/crates/loom-core/src/lock/manager.rs:110-128 | a scan lists a label's lock file if and only if the file exists and the label is visible |
| Locks.QuietLabels | loom/crates/loom-core/src/lock/manager.rs:86-137 | the same in terms of labels: every visible label whose lock file existed when the call began had an instant without a guard |
| Locks.SpecBesideWorkspace | loom/crates/loom-core/src/lock/manager.rs:68-81 | from any state with a live workspace guard, the first try of any label is granted if and only if its own file is free |
| Locks.InvisibleLabelUnseen | loom/crates/loom-core/src/lock/manager.rs:110-137 | for every invisible label that does not lead to the workspace lock, a run in which a workspace guard is granted beside its live guard |
| Locks.LabelTakenAfterProbe | loom/crates/loom-core/src/lock/manager.rs:86-137 | for every visible label too, a run in which its guard is taken after its probe and the workspace guard is granted beside it |
| LockManager.ListedMember | loom/crates/loom-core/src/lock/manager.rs:116-128 | the filter keeps exactly the probed entries |
| LockManager.ListingIsComplete | loom/crates/loom-core/src/lock/manager.rs:110-128 | a complete directory listing filters to all lock files of the directory except the exempt ones |
| LockManager.ReportedLabel | loom/crates/loom-core/src/lock/manager.rs:122-133 | the label in a busy report is the plain label whose lock file was found held |
| LockManager.Manager.TryLock | loom/crates/loom-core/src/lock/manager.rs:167-174 | one try: a guard on the label's file, or refused |
| LockManager.Manager.PastDeadline | loom/crates/loom-core/src/lock/manager.rs:155-157 | busy if and only if the clock has reached the deadline |
| LockManager.Manager.AcquireWithTimeout | loom/crates/loom-core/src/lock/manager.rs:140-160 | the poll loop terminates, with a guard or busy at or after the deadline and after a try |
| LockManager.Manager.AcquireSpecWithTimeout | loom/crates/loom-core/src/lock/manager.rs:68-81 | reserved labels and unopenable files are refused without a lock; otherwise a live guard on the label's file, or busy no earlier than the timeout, and only if the file was held at an instant of the call |
| LockManager.Manager.AcquireSpec | loom/crates/loom-core/src/lock/manager.rs:62-64 | the same with five seconds: each outcome if and only if its cause, with the deadline five seconds after the call |
| LockManager.Manager.FindHeldSpecLock | loom/crates/loom-core/src/lock/manager.rs:110-137 | the scan ends with every listed file opened, probed and let go, or with the label of the first held file, all before it opened, or with an unopenable one |
| LockManager.Manager.AcquireWorkspace | loom/crates/loom-core/src/lock/manager.rs:86-102 | granted only if every listed lock file had a free instant during the call and could be opened; busy only with a label whose file was held at an instant during the call; an open error only for a probed entry or the workspace lock |
| LockManager.Manager.Drop | loom/crates/loom-core/src/lock/manager.rs:26-36 | dropping a guard lets go of its file and of nothing else |

## Left out

- Process spawning, signals, the JSON of the agent protocols, command lines, rendering, templates and tracing: outside the deterministic core.
- Framing: read errors of the pipe other than invalid UTF-8; `BufReader` buffering.
- Session: a write to the agent either goes through whole or fails without effect; the spawn before the prompt; the child process handle.
- Checklist: resolving a link target to a path and a function name (`resolve_annotation_link`, `normalize`), and reading the spec file.
- CommandUse: works on characters where the code works on bytes; tools and boundaries are ASCII, so both see the same occurrences. Reading the annotated files (`collect_deps`) is left out.
- BeadLog.SelectLog: keeps the earliest newest candidate where the code sorts stably and takes the first; the two-level directory walk, its errors and the two not-found messages are not modelled.
- StateStore.StateDb.Open: an open that fails is not modelled, and the migration, which only creates missing tables, changes nothing.
- StateStore: failures of the reading queries, the mutex around the connection, malformed rows, `spec()` with its JSON notes, 64-bit overflow of the stored counter, and the directory read that lists the spec files.
- Retention: the `u32` width of the skipped counter, the kind of each failure, and entries the directory stream itself does not yield.
- RunLoop, CheckGate: the `u32` width of the summary counters; the controllers are modelled by the contracts of their traits, since the production iteration accessors are stubs.
- GitRepo.Git.CreateWorktree: a directory that exists at the path without being a worktree counts as a command that fails on its own.
- Batch: a git command that fails has no effect, except that a removal may fail only in its prune and a merge only in its listing; the order in which workers finish is arbitrary, so nothing is said about fairness.
- Locks: symbolic links, a locks directory that disappears, and files that appear in it while it is listed; the listing is that of one instant, the start of the call. A call that fails to open a file simply ends.
- LockManager: other callers act between any two steps of a call, in an arbitrary fixed schedule; the label type and the creation of the directory are not modelled.
- Config defaults, `agent_for`, the tier and exit decisions of `todo`, profiles, the tmux pane map and its tool handlers: they would add only members settled by reading one branch.
