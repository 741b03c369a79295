# coco's git log parser, modelled in Dafny

coco reads the output of `git log --numstat` in a compact format and turns it into
commits. Its `GitMessageParser` reads the text one line at a time. Each line falls
into one of four kinds, tried in this order:

- A **header** line `[<rev>] <author> <epoch> <message>` matches REV. It replaces the
  current commit with a new commit built from the line.
- A **numstat** line `<deleted> <added> <file>` matches CHANGES. It stores a file
  change in a map keyed by file name.
- A **mode** line matches CHANGEMODEL. It is ignored.
- Any other line is a **boundary**, for example the blank line after each block. Once a
  header has been seen, a boundary does three things:
  - it appends the map's changes to a list that is never cleared;
  - it emits the current commit, carrying that whole list;
  - it empties the map.

This model covers the following.

- **Patterns.** Each regular expression is given a declarative "matches at position
  i" predicate. A matcher function is proved to return the match the regex engine
  reports: the leftmost one, with greedy or lazy repetition as the pattern says.
  Character classes are ASCII.
- **Line parsing.** `create_commit` and `create_file_change` are pure functions that
  return a `Result`. Every `unwrap` and every out-of-bounds `[1]` that would panic in
  the source becomes an `Err` naming the failed step.
- **Reference semantics.** `LogSpec` is a pure state machine: `Step` handles one line,
  `Run` a sequence of lines and `Parse` a whole text. Its state records changes as
  multisets, because the source iterates a `HashMap` in no fixed order.
- **The parser object.** `GitMessageParser.Parser` is a class with the source's four
  fields. Its methods change those fields in place. Each method's contract states the
  new value of every field, branch by branch, and ties the new state to the step
  `LogSpec` prescribes. `ToCommitMessage` is the line loop.
- **Closed form.** For any log made of well-formed blocks, `LogBlocks` states the
  complete parse result: one commit per block, in order. Commit k carries the changes
  of blocks 0 to k, because two quirks are reproduced:
  - the current commit is never reset;
  - the accumulated change list is never cleared.
- **The two unit tests.** `Scenarios` replays both tests of the source. In the second
  test the four commits carry 1, 3, 5 and 7 changes.

## Model

| member | source | states |
|---|---|---|
| Text.SplitSecond | src/infrastructure/git/git_message_parser.rs:86-98 | `split(sep).collect()[1]`. The result is `None` exactly when `sep` does not occur (the out-of-bounds index). Otherwise it is the piece between the first occurrence of `sep` and the next one, or the end of the text. |
| Text.SplitLines | src/infrastructure/git/git_message_parser.rs:40 | `split("\n")` yields at least one line, and no line contains a line feed. |
| Text.SplitJoinLines | src/infrastructure/git/git_message_parser.rs:40 | Splitting on line feeds recovers any list of lines that contain none, once they are joined with line feeds. |
| Text.JoinSplitLines | src/infrastructure/git/git_message_parser.rs:40 | Joining the split lines gives back the original text. |
| Numbers.ParseI32 | src/infrastructure/git/git_message_parser.rs:76-77 | `parse::<i32>()` succeeds only on an optional sign followed by ASCII digits, and only within the 32-bit range. |
| Numbers.ParseI32RoundTrip | src/infrastructure/git/git_message_parser.rs:76-77 | Every 32-bit count, written in decimal, parses back to itself. |
| Numbers.ParseI32RejectsDashes | src/infrastructure/git/git_message_parser.rs:76-77 | A lone `-` is rejected, so binary-file counts make the parse fail. Dashes inside the digits are rejected too. |
| Numbers.ParseI32RejectsOutOfRange | src/infrastructure/git/git_message_parser.rs:76-77 | A decimal count outside the 32-bit range is rejected. |
| Patterns.FindRev | src/infrastructure/git/git_message_parser.rs:9 | REV's leftmost match: `[`, then 5 to 12 characters of `[0-9a-f\|]`, then `]`. The result is `None` exactly when REV matches nowhere. |
| Patterns.RevMatchUnique | src/infrastructure/git/git_message_parser.rs:9 | Two REV matches at the same position capture the same revision. |
| Patterns.AuthorSpan | src/infrastructure/git/git_message_parser.rs:10 | AUTHOR's `author` group is the leftmost match and, from its start, the shortest one. It is followed by white space and ten digits and contains no line feed. The result is `None` exactly when AUTHOR cannot match. |
| Patterns.FindDate | src/infrastructure/git/git_message_parser.rs:11 | DATE's leftmost run of ten digits, or `None` exactly when there is none. |
| Patterns.ChangesAt | src/infrastructure/git/git_message_parser.rs:12-13 | The CHANGES match at one position, with greedy runs. It exists exactly when the pattern can match there. |
| Patterns.ChangesShapeRuns | src/infrastructure/git/git_message_parser.rs:12-13 | Any way CHANGES can match at a position gives the same `deleted` and `added` captures as the greedy runs. |
| Patterns.FindChanges | src/infrastructure/git/git_message_parser.rs:12-13 | CHANGES' leftmost match. The `filename` capture starts after the longest run of white space. The result is `None` exactly when CHANGES matches nowhere. |
| Patterns.LineEnd | src/infrastructure/git/git_message_parser.rs:13 | The `.*` of `filename` stops at the first line feed or at the end of the text. |
| Patterns.HasChangeMode | src/infrastructure/git/git_message_parser.rs:16-17 | CHANGEMODEL matches exactly when the text holds a white-space character, 1 to 6 word characters, then another white-space character. |
| LineParsing.Classify | src/infrastructure/git/git_message_parser.rs:51-60 | A header carries the revision `REV.captures` returns, the leftmost REV match. A numstat classification carries exactly the match `CHANGES.captures` returns: REV matches nowhere, the CHANGES match is the leftmost one, and the second white-space run is the longest. |
| LineParsing.ClassifyKinds | src/infrastructure/git/git_message_parser.rs:51-60 | Each branch is taken if and only if its pattern matches and no earlier pattern does, in the order REV, CHANGES, CHANGEMODEL, then boundary. A header carries the capture of the leftmost REV match. A numstat line carries the leftmost CHANGES match, whose `filename` starts after the longest white-space run. |
| LineParsing.CreateFileChange | src/infrastructure/git/git_message_parser.rs:73-82 | The result is `Ok` exactly when both counts parse as `i32`; otherwise it is `InvalidCount`. The key is the filename capture, which runs to the end of the line, and equals the record's `file`. `mode` is empty. |
| LineParsing.EpochValue | src/infrastructure/git/git_message_parser.rs:102 | `parse::<i64>()` of the ten captured digits cannot fail, and its value is between 0 and 9999999999. |
| LineParsing.DateAndMessage | src/infrastructure/git/git_message_parser.rs:95-100 | On success the date lies in the ten-digit range. It fails with `MissingDate` exactly when DATE matches nowhere, and otherwise only with `MissingDateSeparator`. Its partner is `LineFormats.DateAndMessageRoundTrip`. |
| LineParsing.AuthorDateAndMessage | src/infrastructure/git/git_message_parser.rs:90-100 | On success the date lies in the ten-digit range. It fails with `MissingAuthor` exactly when AUTHOR cannot match, and otherwise only with a separator or date error. Its partner is `LineFormats.AfterRevRoundTrip`. |
| LineParsing.CreateCommit | src/infrastructure/git/git_message_parser.rs:84-112 | The commit carries the captured revision, an empty branch, committer and change list, and a ten-digit date. The result is `MissingRevSeparator` exactly when `[<rev>] ` does not occur. Every other error comes from reading the author and the date. |
| LineFormats.HeaderRev | src/infrastructure/git/git_message_parser.rs:9 | A line that starts with `[<rev>] ` has `rev` as its leftmost REV match. |
| LineFormats.AuthorEndsAtFirstMark | src/infrastructure/git/git_message_parser.rs:10 | For an author that holds no "white space and ten digits", AUTHOR captures exactly that author. |
| LineFormats.DateAndMessageRoundTrip | src/infrastructure/git/git_message_parser.rs:95-102 | `<date> <message>` is read back as the date's value and the message. |
| LineFormats.AfterRevRoundTrip | src/infrastructure/git/git_message_parser.rs:90-102 | `<author> <date> <message>` is read back as all three fields. |
| LineFormats.HeaderRoundTrip | src/infrastructure/git/git_message_parser.rs:84-112 | A well-formed header is classified as a header of its revision. `create_commit` rebuilds the commit with exactly the written fields. |
| LineFormats.NoRevWithoutBracket | src/infrastructure/git/git_message_parser.rs:9 | A line with no `[` never matches REV. |
| LineFormats.NumStatShape | src/infrastructure/git/git_message_parser.rs:12-13 | A written numstat line has no `[`, and the CHANGES shape sits at its known positions. |
| LineFormats.NumStatClassified | src/infrastructure/git/git_message_parser.rs:55 | A well-formed numstat line takes the CHANGES branch, with its match at the positions of the written fields. |
| LineFormats.NumStatFields | src/infrastructure/git/git_message_parser.rs:74-77 | The captures of a written numstat line parse back to its counts and its file name. |
| LineFormats.FileChangeOfMatch | src/infrastructure/git/git_message_parser.rs:73-82 | When the counts parse and the filename runs to the end of the line, `create_file_change` yields exactly that record. |
| LineFormats.NumStatRoundTrip | src/infrastructure/git/git_message_parser.rs:73-82 | A well-formed numstat line is classified as numstat. `create_file_change` returns its file name and a record with its counts. |
| LogSpec.Flush | src/infrastructure/git/git_message_parser.rs:60-69 | The boundary branch keeps the current commit and clears the map. The accumulated changes grow to include the map's values. It appends exactly one commit, with the current revision and all the accumulated changes, and keeps the earlier commits. |
| LogSpec.Step | src/infrastructure/git/git_message_parser.rs:49-71 | One line of `parse_log_by_line`. Only a header or a numstat line can fail. Earlier commits are kept, and at most one commit is appended: by a boundary line after a header, carrying that header's revision. |
| LogSpec.Run | src/infrastructure/git/git_message_parser.rs:42-44 | The line loop: earlier commits are kept, each line adds at most one commit, and every commit added has a non-empty revision. |
| LogSpec.Parse | src/infrastructure/git/git_message_parser.rs:39-47 | `to_commit_message`: at most one commit per line of the text, and every commit has a non-empty revision. |
| LogSpec.HeaderLine | src/infrastructure/git/git_message_parser.rs:51-54 | A line with a REV match replaces only the current commit, with the captured revision and empty changes. The map, the accumulated list and the emitted commits stay as they were. |
| LogSpec.NumStatLine | src/infrastructure/git/git_message_parser.rs:55-57 | A numstat line inserts or overwrites exactly one map entry. The key is the `filename` capture, and the counts are the `i32` values of the `added` and `deleted` captures. Nothing else changes. The step fails exactly when a count does not parse, and the failure is `InvalidCount`. |
| LogSpec.ChangeModeLineIsNoOp | src/infrastructure/git/git_message_parser.rs:58-59 | A line that only CHANGEMODEL matches leaves the state unchanged. |
| LogSpec.BoundaryLine | src/infrastructure/git/git_message_parser.rs:60-70 | Before any header, a boundary does nothing. After a header, it emits one commit with all the current fields and the accumulated list plus the map's changes. The accumulated list becomes exactly that and the map is emptied. The current commit is kept apart from its `changes`, which the abstract state does not record and `GitMessageParser.Parser.FlushPending` sets to the whole list. |
| LogSpec.RunSnoc | src/infrastructure/git/git_message_parser.rs:42-44 | Running one more line is one more step, and an error stops the run. |
| LogSpec.RunAppend | src/infrastructure/git/git_message_parser.rs:42-44 | Running two pieces of input one after the other is the same as running them joined. |
| LogSpec.DoubleBoundaryEmitsTwice | src/infrastructure/git/git_message_parser.rs:60-70 | Because the current commit is never reset, two boundary lines after a header emit the same commit twice. |
| LogSpec.StepKeepsCommits | src/infrastructure/git/git_message_parser.rs:49-71 | A step only appends to the emitted commits, and only a boundary line appends. |
| LogSpec.CommitsGrowOnlyAtBoundaries | src/infrastructure/git/git_message_parser.rs:42-46 | Over any run, the emitted commits only grow, and they grow only when the run contains a boundary line. |
| LogSpec.TrailingBlockIsDropped | src/infrastructure/git/git_message_parser.rs:42-46 | No commit is emitted at the end of the input, so lines after the last boundary add nothing. |
| LogSpec.StepKeepsChangesNested | src/infrastructure/git/git_message_parser.rs:60-68 | Since the list is never cleared, each emitted commit's changes are contained in those of every later commit and in the accumulated list. A step preserves this. |
| LogSpec.RunKeepsChangesNested | src/infrastructure/git/git_message_parser.rs:42-46 | The same nesting holds after any run, and the accumulated changes only grow. |
| LogSpec.StepKeepsPendingKeyed | src/infrastructure/git/git_message_parser.rs:57 | Every map entry stays stored under its own file name. |
| GitMessageParser.Parser.constructor | src/infrastructure/git/git_message_parser.rs:27-36 | `default()`: a default commit with an empty revision, empty lists and an empty map, which is the initial state of `LogSpec`. |
| GitMessageParser.Parser.ParseLogByLine | src/infrastructure/git/git_message_parser.rs:49-71 | The new state is the one `LogSpec.Step` gives, and the class invariant holds. A failed parse (a panic in the source) changes nothing and returns the step's error. A header sets the current commit to `create_commit`'s result and nothing else. A numstat line stores `create_file_change`'s entry under its file name and nothing else. A CHANGEMODEL line, and a boundary before any header, change nothing. A boundary after a header keeps the old list as a prefix, appends exactly the map's values in some order, gives the current commit the whole list, appends it to the commits and clears the map. |
| GitMessageParser.Parser.FlushPending | src/infrastructure/git/git_message_parser.rs:60-70 | The list grows by exactly the map's values, in some order, and keeps its old prefix. The current commit takes the whole list and is appended to the commits. The map is cleared. |
| GitMessageParser.IterateMap | src/infrastructure/git/git_message_parser.rs:61-63 | Iterating the `HashMap` yields each value exactly once, in an arbitrary order. |
| GitMessageParser.Parser.ToCommitMessage | src/infrastructure/git/git_message_parser.rs:39-47 | The result equals `LogSpec.Parse` of the text (changes compared as multisets), and it fails exactly when `Parse` fails. Each commit's change list is a prefix of every later one. |
| LogBlocks.ExpectedCommits | src/infrastructure/git/git_message_parser.rs:60-68 | Commit k of the expected output carries block k's revision, author, date and message, and the changes of blocks 0 to k. |
| LogBlocks.AccumulatedGrows | src/infrastructure/git/git_message_parser.rs:62 | The changes of a prefix of the blocks are contained in the changes of all of them. |
| LogBlocks.EntriesMapValues | src/infrastructure/git/git_message_parser.rs:57 | With distinct file names, a block's numstat lines leave one map entry per line, each under its own file name. |
| LogBlocks.FilesOfEntriesMap | src/infrastructure/git/git_message_parser.rs:57 | The map's keys are exactly the file names of the block's numstat lines. |
| LogBlocks.BlankLineIsBoundary | src/infrastructure/git/git_message_parser.rs:60 | An empty line matches none of the patterns. |
| LogBlocks.HeaderStep | src/infrastructure/git/git_message_parser.rs:51-54 | A block's header line sets the current commit to the block's fields. |
| LogBlocks.EntryStep | src/infrastructure/git/git_message_parser.rs:55-57 | A block's numstat line stores its entry under its file name. |
| LogBlocks.RunEntries | src/infrastructure/git/git_message_parser.rs:55-57 | A block's numstat lines, starting from an empty map, leave exactly the block's map. |
| LogBlocks.RunBlock | src/infrastructure/git/git_message_parser.rs:49-71 | A whole block appends its changes to the accumulated ones and emits one commit with the block's fields and all those changes. |
| LogBlocks.RunBlocks | src/infrastructure/git/git_message_parser.rs:42-46 | The lines of any well-formed blocks run to the expected commits. |
| LogBlocks.ParseEmptyText | src/infrastructure/git/git_message_parser.rs:39-47 | An empty text is one empty line, a boundary before any header, so it parses to no commits. |
| LogBlocks.ParseBlocks | src/infrastructure/git/git_message_parser.rs:39-71 | Parsing the text of well-formed blocks yields exactly the expected commits, one per block. |
| Scenarios.BinaryEntryFails | src/infrastructure/git/git_message_parser.rs:55-57 | A numstat line whose counts are both `-`, as git writes for a binary file, takes the numstat branch and fails with `InvalidCount("-")`, for any file name that has no `[`. |
| Scenarios.SpringLogExpected | src/infrastructure/git/git_message_parser.rs:121-126 | The first test's log parses to the expected output of its single block. |
| Scenarios.ParseOneCommitLog | src/infrastructure/git/git_message_parser.rs:119-138 | `to_commit_message` of the first test's log returns one commit: revision "828fe39523", author "Rossen Stoyanchev", date 1575388800, message "Consistently use releaseBody in DefaultWebClient", and 4 changes. |
| Scenarios.PhodalLogExpected | src/infrastructure/git/git_message_parser.rs:142-156 | The second test's log parses to the expected output of its four blocks. |
| Scenarios.PhodalAccumulated | src/infrastructure/git/git_message_parser.rs:142-156 | Because the list is never cleared, the four blocks' accumulated changes number 1, 3, 5 and 7. |
| Scenarios.ParseMultipleCommitLog | src/infrastructure/git/git_message_parser.rs:140-160 | `to_commit_message` of the second test's log returns 4 commits with their four revisions, carrying 1, 3, 5 and 7 changes. |

## Left out

- COMPLEXMOVEREGSTR and BASICMOVEREGSTR (`git_message_parser.rs:14-15`) are compiled but never used, so they are not modelled. A renamed path such as `core/{domain => adapter}/bs/BadSmellApp.go` is kept verbatim as the file name, as the source does.
- `\d`, `\s` and `\w` are restricted to ASCII. The `regex` crate's Unicode classes (other digits, other white space, letters outside ASCII) are not modelled.
- The order of `HashMap` iteration is not modelled. `IterateMap` picks keys in an arbitrary order, and the reference semantics compare change lists as multisets.
- Panics from `unwrap` and from an out-of-bounds `[1]` are modelled as `Err` results that leave the parser unchanged, where the source aborts the whole process.
- A `-` count, which git writes for binary files, is not turned into a sentinel value. The code parses it with `parse::<i32>()`, which fails and panics, so the model returns `InvalidCount` (see `Scenarios.BinaryEntryFails`). Mapping `-` to a sentinel such as `-1` would differ from the code.
- LineParsing.EpochValue: the date is an `i64`. The model does not need the width, because DATE captures exactly ten digits, which always fit.
- GitMessageParser.Parser.FlushPending: it builds the list of the map's values first and then appends it in one step, instead of pushing one value per iteration. The resulting list is the same.
- GitMessageParser.IterateMap requires each map entry to be keyed by its own file name, which `Parser.Valid` guarantees. This is how it proves the values are pushed one per key.
- LogBlocks.ParseBlocks covers only logs of well-formed blocks. Other inputs are covered line by line through `LogSpec` and `GitMessageParser.Parser.ToCommitMessage`. The closed form excludes:
  - two numstat lines with the same file name within a block;
  - a `[` in a file name (REV could then match first, and the numstat line would take the header branch);
  - a `[<rev>] ` inside an author or a message (the split on it would then cut the field short); the model keeps every `[` out of both;
  - a line feed in any field, or in the white space between the fields of a numstat line;
  - an author that contains white space followed by ten digits;
  - a header whose text after the author repeats `<author> `, or whose message contains `<date> `, the separators `create_commit` splits on;
  - a file name that starts with white space;
  - counts outside the 32-bit range.
- The caller that runs `git log` and the reading of its output are not part of this model. The parser receives the text as a parameter.
- `CocoCommit` and `FileChange` are declared under `src/domain/git`, which is not part of this model. `Domain` represents only the fields the parser fills.
