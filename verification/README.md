# Verified model of agent.d

A Dafny model of the parts of agent.d that keep a user's work safe, with proofs
of what they promise:

- **File history.** Each file has a tree of revisions stored as byte splices, a
  cursor, a redo stack and a log of cursor moves. Other programs write the same
  files at any time. `Splices`, `Timelines` (what each operation does, as functions
  on values), `TimelineClass` (the object whose methods do it in place, with the
  walk, replay and search loops), `TimelineRuns` (what holds over every run),
  `TimelineFacts` (what each operation leaves, and exactly when it is refused),
  `Histories` (many files, and the patch that changes several or none).
- **Unified diffs.** `Patches`, `PatchProofs`, `PatchLines` and `PatchEndings` (applying
  hunks one after another, what the patched text reads back as, and how its lines end),
  `PatchText`, `PatchParser`, `PatchRoundTrip`, `PatchReading` and `PatchForms` (the text
  form, its parser and printer, and texts that were printed elsewhere). The format is
  the one in the STDOUT section of the `diff` utility in POSIX.1-2017, "Diff -u or -U
  Output Format", with the `\ No newline at end of file` marker.
- **Permissions.** `Permissions`, `PermissionForms` and `PathMatching` (what a permission
  covers), `DeniedFolders` (what a denied folder denies), `Engine` (the check),
  `Questions`, `QuestionProofs` and `QuestionOrder` (check, ask, check again), `Denials`
  (what a check decides and a question asks for, from the grants alone).
- **Conversations.** `Conversation` (well-formed histories and the validator of run
  inputs), `Sizes` (UTF-8, and what counts against the limit), `Sessions` (the tool loop,
  what a stopped run keeps, compaction), `SessionRuns` (whole sessions, and runs that
  overlap), `SessionFacts` (what a run writes, message by message).
- **Watching folders.** `FolderLocks`, `CaptureRoots`, `Scans`, `ScanProofs`, `ScanFacts`
  (what scans keep, and one folder's scans over a run of the class), and `Captures`,
  which takes one file through a scan, a call and a second scan together with its
  history.

Where the program updates state in place or loops, the model is a class or a
method with a loop; each such method is proved equal to a function, or to hold a
property stated outright, and the lemmas are about that function. The modules named
for facts, forms, endings and denials say what these functions give in terms of their
inputs: what is left of a file, a line, a log or a message, and exactly when and why
something is refused. `Base` holds the types every module uses.

## How the world is modelled

- A digest is the content it was made from, so equal digests mean equal content.
- Content is a sequence of bytes, one character per byte, in the history modules;
  in the text modules a character is a Unicode scalar value.
- Each operation on one file is one step, as the mutex of each file makes it. Writes
  by other programs, the clock and the change counter move between steps. A write
  sets a modification time less than two seconds old.
- A path is the list of its components. Permissions are matched on text, as the
  program does.
- Reads and commits that fail, verdicts, grants found by each load of the engine,
  replies of a provider and results of a tool are parameters: a lemma holds for
  every value of them.

## What the proofs found

These are facts about the code, each stated as a lemma for all inputs.

- `QuestionProofs.FourthQuestionExactly`: with steady grants and every question
  approved, the branch for a fourth question is reached exactly when the approved
  permissions, made again from their text, do not cover what is required;
  `QuestionOrder.FourthQuestionWhenGrantsGrow` says exactly when for grants that
  grow between loads. A required file path with a `.` or `..` component is such a
  case (`ClimbingPathReachesFourth`). So is a host written with two dots at its end,
  when nothing else covers it: it loses one dot each time it is read
  (`QuestionOrder.TwoDotsReachFourth`).
- `QuestionOrder.InOrderExactly`: whatever the verdicts, the questions come in the
  order runner, grants, confirm unless a reload between an approved question and the
  next check takes the action off the runner's list.
- `SessionRuns.CompactionBounds`: with `keep_recent` 0 compaction indexes past the
  end of every history that is due and not empty; the stored history is unharmed.
- `PatchReading.PrintThenParse`: a line that ends in a carriage return does not
  survive printing and parsing; every other condition for the round trip is one the
  parser itself establishes.
- `Captures.PutBackStaysOutOfStep`: a file that a call writes through its history
  and a program then puts back is seen as unchanged by both scans, so its history
  goes on expecting what it wrote.
- `DeniedFolders.ContainmentExactly`: on Unix denying a folder is denying what is in
  it exactly when its name does not end in a backslash; `DeniedExactly` says what is
  denied instead, whatever the name.
- `PatchLines.EmptyLastLineIsLost`: a hunk that adds an empty line without an ending
  leaves one line, and the text has none. `LinesNeverMerge` says that this is the only
  way a line is lost, `MarkedTextIsKept` that none is when no hunk has an empty line
  before a marker, and `AccurateKeepsLinesExactly` which accurate patches lose one.
- `Histories.PutBackLosesRedo`: the comment on `patch` promises that a failed write
  leaves the files before it as they were; their redo stacks are emptied, which shows
  exactly when there was something to redo, and the revision written stays in the log.

## Model

| member | source | states |
|---|---|---|
| Splices.Between | crates/fs/src/history.rs:251-264 | The splice turns the old bytes into the new, within bounds |
| Splices.BothWays | crates/fs/src/history.rs:683-705 | A splice read forward gives the later bytes and read backward the earlier, always in bounds |
| Splices.BetweenIsShortest | crates/fs/src/history.rs:251-264 | No splice between the same bytes removes or adds less |
| Timelines.NoneClosed | crates/fs/src/history.rs:418-436 | The walk is refused exactly when some edge on it is closed |
| Timelines.WalkIsTreePath | crates/fs/src/history.rs:410-436 | The two walks cross exactly the edges of the tree path and meet at the nearest common ancestor |
| Timelines.PushExtends | crates/fs/src/history.rs:672-680 | Pushing a change whose earlier side is the current state keeps the tree valid and every revision as it was |
| Timelines.MutateExtends | crates/fs/src/history.rs:320-386 | A write, append or removal keeps the tree valid and every revision as it was |
| Timelines.RecordExtends | crates/fs/src/history.rs:500-575 | So does recording an external change, even from a stale earlier snapshot |
| Timelines.AcknowledgeExtends | crates/fs/src/history.rs:614-656 | So does accepting an outside edit, with or without the hint |
| Timelines.UndoExtends | crates/fs/src/history.rs:1166-1177 | Undo keeps the tree and the redo chain valid |
| Timelines.RedoExtends | crates/fs/src/history.rs:1179-1187 | Redo keeps the tree and the redo chain valid |
| Timelines.RestoreToExtends | crates/fs/src/history.rs:1157-1164 | Restore keeps the tree valid and every revision as it was |
| TimelineClass.ApplyCrosses | crates/fs/src/history.rs:683-705 | Applying an open edge either way turns one recorded content into the other, in bounds |
| TimelineClass.Walks | crates/fs/src/history.rs:418-430 | The walk loop yields the two halves of the tree path |
| TimelineClass.ClosedEdge | crates/fs/src/history.rs:431-436 | The first closed edge and why |
| TimelineClass.Rewind | crates/fs/src/history.rs:437-440 | Rewinding open edges ends at the content where the walks meet |
| TimelineClass.Advance | crates/fs/src/history.rs:437-443 | Advancing open edges ends at the content of the target |
| TimelineClass.ReplayChain | crates/fs/src/history.rs:579-598 | The chain of open edges from the cursor down to the given content, or none |
| TimelineClass.Disk.Commit | crates/fs/src/history.rs:729-772 | The file is replaced or removed, no other file changes, and a failed commit changes nothing |
| TimelineClass.Timeline.Expected | crates/fs/src/history.rs:301-307 | The state recorded for the cursor, none without history |
| TimelineClass.Timeline.ImageAt | crates/fs/src/history.rs:410-444 | The content of any reachable revision rebuilt by splices from the disk, or why not |
| TimelineClass.Timeline.Plan | crates/fs/src/history.rs:320-352 | What a write, append or removal would leave, or why it is refused |
| TimelineClass.Timeline.Mutate | crates/fs/src/history.rs:320-386 | A write, append or removal: file, log, cursor, redo, hint and result |
| TimelineClass.Timeline.Restore | crates/fs/src/history.rs:392-408 | Moving the file and the cursor to a revision |
| TimelineClass.Timeline.RestoreTo | crates/fs/src/history.rs:1157-1164 | A restore asked for by a caller also empties the redo stack |
| TimelineClass.Timeline.Undo | crates/fs/src/history.rs:1166-1177 | Undo restores the parent and pushes the revision left |
| TimelineClass.Timeline.Redo | crates/fs/src/history.rs:1179-1187 | Redo restores the top of the redo stack and pops it |
| TimelineClass.Timeline.Push | crates/fs/src/history.rs:672-680 | A change becomes the cursor, logged as a move, with nothing to redo |
| TimelineClass.Timeline.Replay | crates/fs/src/history.rs:579-610 | The replayed bytes are the current content; the final digest check never fails |
| TimelineClass.Timeline.Last | crates/fs/src/history.rs:518-532 | The state the history left off at, and its content when known |
| TimelineClass.Timeline.External | crates/fs/src/history.rs:533-575 | The external change with its splice, restorable when both contents are known |
| TimelineClass.Timeline.RecordExternal | crates/fs/src/history.rs:500-575 | Recording an external change |
| TimelineClass.Timeline.AcknowledgeOutside | crates/fs/src/history.rs:614-656 | Accepting an outside edit as a barrier, by hint or by reading |
| TimelineClass.Timeline.AcknowledgeSeen | crates/fs/src/history.rs:660-670 | The same, only when the file holds the digest just read |
| TimelineClass.Timeline.MovedSince | crates/fs/src/history.rs:456-479 | What moved after a mark, found by a search of the move log |
| TimelineRuns.NewTimelineGood | crates/fs/src/history.rs:266-283 | A new timeline satisfies the invariant |
| TimelineRuns.StepKeepsGood | crates/fs/src/history.rs:267-283 | Every operation, and every write by another program, keeps the whole invariant |
| TimelineRuns.StepKeepsHint | crates/fs/src/history.rs:159-196 | Every step keeps the disk hint sound |
| TimelineRuns.RestoreSucceedsExactly | crates/fs/src/history.rs:392-444 | Restore succeeds exactly when the revision is known, the file is as expected and every edge of the tree path is open; the file then has exactly that content |
| TimelineRuns.PathIsOpen | crates/fs/src/history.rs:418-436 | No closed edge stops the walk exactly when every edge of the tree path is open |
| TimelineRuns.FailedRestoreChangesNothing | crates/fs/src/history.rs:392-408 | Corollary of `TimelineClass.Timeline.Restore`: whatever fails, a failed restore leaves log and file alone |
| TimelineRuns.StepLosesNothing | crates/fs/src/history.rs:309-318 | The one-step case of `TimelineRuns.RunLosesNothing`: content an operation replaces is the recorded content of the revision it was at |
| TimelineRuns.RunKeepsRevisions | crates/fs/src/history.rs:267-283 | Over any run, revisions keep their ids and contents |
| TimelineRuns.RunLosesNothing | crates/fs/src/history.rs:309-386 | Over any run, whatever an operation replaced is still in the history at the end |
| TimelineRuns.StepStaysAbove | crates/fs/src/history.rs:431-436 | No step takes the cursor below a closed edge |
| TimelineRuns.RunStaysAbove | crates/fs/src/history.rs:614-656 | Over any run, no undo, redo or restore discards an outside edit |
| TimelineRuns.UndoSucceedsExactly | crates/fs/src/history.rs:1166-1177 | Undo works exactly when there is something to undo, the file is as expected and the edge is open |
| TimelineRuns.RedoSucceedsExactly | crates/fs/src/history.rs:1179-1187 | Redo works exactly when there is something to redo and the file is as expected; no barrier can stop it |
| TimelineRuns.RedoTakesBack | crates/fs/src/history.rs:1166-1187 | Redo takes back an undo |
| TimelineRuns.RedosTakeBackUndos | crates/fs/src/history.rs:1166-1187 | Any number of undos and as many redos restore cursor, redo stack and content |
| TimelineRuns.HintAgreesWithReading | crates/fs/src/history.rs:618-629 | In every reachable state the hint gives what reading the file would |
| TimelineRuns.ExternalCanBeUndone | crates/fs/src/history.rs:543-575 | An external record can be undone exactly when both sides are absent or known, and undo brings back the content it was recorded on |
| TimelineRuns.ReplayIsCurrent | crates/fs/src/history.rs:579-610 | Corollary of `TimelineClass.Timeline.Replay`: replay finds content only when it is the current revision |
| TimelineRuns.RunMoves | crates/fs/src/history.rs:275-278 | Over any run, later moves have later numbers and the first of them left from the old cursor |
| TimelineRuns.MarkPinsThePast | crates/fs/src/history.rs:456-479 | A file is reported as moved exactly when its cursor ended elsewhere and the disk agrees, with the content at the mark |
| TimelineFacts.MutationExactly | crates/fs/src/history.rs:320-386 | A write, append or removal is done exactly when the disk works, the file is as expected and one to be removed is there; otherwise nothing changes |
| TimelineFacts.MutationLeaves | crates/fs/src/history.rs:330-386 | The file then holds the new content, the old and then the new, or nothing, as one open revision on top of one that holds what was there |
| TimelineFacts.MutationRefused | crates/fs/src/history.rs:320-352 | Exactly why a write, append or removal is refused |
| TimelineFacts.RestoreRefused | crates/fs/src/history.rs:410-444 | Exactly when a restore is refused as unknown or in conflict; one refused for a closed edge has an edge of that kind on its path |
| TimelineFacts.RestoreFate | crates/fs/src/history.rs:392-408 | A restore moves the cursor, logs the move and writes the file; nothing else of the history changes, and nothing at all when it fails |
| TimelineFacts.UndoRefused | crates/fs/src/history.rs:1157-1187 | Exactly when there is nothing to undo or redo; a refusal changes nothing, and a restore asked for leaves nothing to redo |
| TimelineFacts.AcceptedEditIsClosed | crates/fs/src/history.rs:614-656 | An outside edit that is accepted becomes one new revision on an edge that nothing may cross |
| TimelineFacts.AcceptedEditStays | crates/fs/src/history.rs:612-656 | Over every run after that, the cursor stays above it, a restore below it is refused, and an undo at it says that the file was changed outside |
| TimelineFacts.AcceptingNothing | crates/fs/src/history.rs:614-656 | Accepting changes nothing but the hint when the file is as expected, and fails only when the file cannot be read |
| TimelineFacts.HintSavesReading | crates/fs/src/history.rs:159-196 | While the hint holds, accepting works though the file cannot be read |
| TimelineFacts.ReadAccepts | crates/fs/src/history.rs:660-670 | A read accepts an outside edit exactly when the file still holds what was read |
| TimelineFacts.ReachesExactly | crates/fs/src/history.rs:579-598 | Replay has a chain exactly when some older revision under open edges holds the content |
| TimelineFacts.ReplayFindsExactly | crates/fs/src/history.rs:579-610 | Replay finds the current content exactly when there is such a chain, the caller has the content, and the file has some |
| TimelineFacts.RecordedExactly | crates/fs/src/history.rs:500-575 | An external edit becomes one new revision with the content found, crossed exactly when its later side is absent or kept and its earlier one is absent, kept, or found by replay |
| TimelineFacts.RecordingFails | crates/fs/src/history.rs:500-517 | Recording fails only when the file cannot be read, and then changes nothing |
| Histories.PlansFollowReads | crates/fs/src/history.rs:924-953 | A plan follows from what the scope had read and nothing else |
| Histories.PlansExactly | crates/fs/src/history.rs:926-951 | A file can be planned exactly when it can be read, it is there and as read or absent and to be created, and the patch applies to it; what it is then to hold |
| Histories.PlanRefused | crates/fs/src/history.rs:926-951 | Exactly why a file cannot be planned |
| Histories.TopCanBeTakenBack | crates/fs/src/history.rs:1000-1004 | The latest change can be taken back while its file is as it left it |
| Histories.WriteCanBeTakenBack | crates/fs/src/history.rs:972-1004 | A file just written and not touched since can be put back; only the disk can prevent it |
| Histories.PutBackLosesRedo | crates/fs/src/history.rs:1000-1004 | A file put back has the revision written still in its log and nothing to redo: its redo stack is as before exactly when it was empty |
| Histories.WriteRefused | crates/fs/src/history.rs:969-991 | Exactly why a planned write fails |
| Histories.MutateSucceeds | crates/fs/src/history.rs:320-386 | Exactly when the write of a plan succeeds |
| Histories.EditsAreLocal | crates/fs/src/history.rs:954 | Edits by other programs reach only their own paths |
| Histories.History.TimelineAt | crates/fs/src/history.rs:792-809 | The timeline of a path, made when there is none |
| Histories.History.WriteOne | crates/fs/src/history.rs:969-991 | One planned write; it succeeds exactly when the disk works and the file is as planned and as its history left it |
| Histories.History.PutBackOne | crates/fs/src/history.rs:1000-1004 | Putting one written file back |
| Histories.History.WriteAll | crates/fs/src/history.rs:967-992 | The write loop: which files were written, as which revisions, and the first failure; there is none exactly when every write fits |
| Histories.History.PutBackAll | crates/fs/src/history.rs:999-1004 | The rollback loop: every file back, but for those where the disk failed |
| Histories.History.PlanOne | crates/fs/src/history.rs:926-951 | Planning one file |
| Histories.History.PlanAll | crates/fs/src/history.rs:923-953 | Planning every file, or the first failure; exactly when each can be planned |
| Histories.History.EarlierReads | crates/fs/src/history.rs:955-966 | What the scope had read of each file before the patch wrote |
| Histories.History.RestoreReads | crates/fs/src/history.rs:1005-1013 | The reads are put back as they were |
| Histories.History.CommitPlans | crates/fs/src/history.rs:967-1021 | Writing every plan, or putting everything back |
| Histories.History.CommitTargets | crates/fs/src/history.rs:955-1022 | Writing the plans of all targets, or putting everything back, in terms of the targets |
| Histories.History.Patch | crates/fs/src/history.rs:910-1022 | All or nothing. It succeeds exactly when the paths differ, every file can be planned and every write finds its file so, and otherwise says why for the first that fails. On success every file holds its patch applied to what the scope had read, or to nothing for a new file, and one to be removed is gone with no text left; on failure every file has its old cursor and the content it would have without the patch, and the reads are as before, but for files the disk failed to put back; its log is as it was or has one more revision and nothing to redo. Either way no revision is lost, and other files, logs and reads are untouched |
| Patches.SplitLines | crates/fs/src/patch.rs:428-454 | The cursor loop splits text into lines and endings |
| Patches.OccurrencesMatch | crates/fs/src/patch.rs:349-352 | The positions found are exactly those where the old lines are, in order |
| Patches.PlaceMatches | crates/fs/src/patch.rs:344-362 | A hunk is put only where its old lines are |
| Patches.FindPlace | crates/fs/src/patch.rs:325-362 | Where a hunk goes, or why it does not apply |
| Patches.FirstOccurrences | crates/fs/src/patch.rs:349-352 | At most two positions are collected, and they are the first |
| Patches.Replacement | crates/fs/src/patch.rs:368-396 | The lines a hunk leaves, with their endings |
| Patches.ApplyHunk | crates/fs/src/patch.rs:313-399 | One hunk spliced in place |
| Patches.ApplyHunks | crates/fs/src/patch.rs:312-401 | The running shift is the difference in length at every step |
| Patches.ApplyPatch | crates/fs/src/patch.rs:309-413 | A whole patch applied to a text |
| Patches.JoinLines | crates/fs/src/patch.rs:407-411 | The lines joined again |
| PatchProofs.JoinOfSplit | crates/fs/src/patch.rs:428-454 | Joining what splitting gave is the text |
| PatchProofs.SplitOfJoinExactly | crates/fs/src/patch.rs:428-454 | Splitting what joining gave is the lines, exactly when they could come from a text |
| PatchProofs.LandsUnambiguously | crates/fs/src/patch.rs:337-362 | A hunk applies exactly at its header position or at the only place its old lines occur |
| PatchProofs.MismatchNamesTheFirst | crates/fs/src/patch.rs:457-477 | A refusal names the first line that differs |
| PatchProofs.OneAccurateHunk | crates/fs/src/patch.rs:313-401 | An accurate hunk lands where its header says, shifted |
| PatchProofs.RestAtOnce | crates/fs/src/patch.rs:309-401 | The rest of the hunks apply to the rest of the original |
| PatchProofs.SequentialIsAtOnce | crates/fs/src/patch.rs:309-401 | For accurate hunks, applying them one after another is applying them all at once in the original numbering |
| PatchProofs.AtOnceHasTexts | crates/fs/src/patch.rs:368-396 | The result is the untouched gaps interleaved with each hunk's new lines |
| PatchProofs.KeepsTheRest | crates/fs/src/patch.rs:368-401 | The original lines no hunk matched, and no others, are still there, in order, with text and ending; the count changes by added minus removed |
| PatchLines.ClosingKeepsLines | crates/fs/src/patch.rs:402-406 | Only an unterminated line no longer last gains the usual ending |
| PatchLines.SplitKeepsWholes | crates/fs/src/patch.rs:428-454 | Joined lines split again where they were joined; only an empty last line without an ending is lost |
| PatchLines.LinesNeverMerge | crates/fs/src/patch.rs:402-412 | For every text and hunks without a line break in a line: the patched text has as many lines as the hunks left, and the same with their endings, exactly when they do not end in an empty line without an ending; and the same line and ending apart exactly when each can come from a text |
| PatchLines.AccuratePatchApplies | crates/fs/src/patch.rs:309-413 | An accurate patch applies to every text; its lines are the gaps of the original interleaved with the hunks, and read back as such exactly when each can come from a text |
| PatchLines.AccurateCleanPatchReadsBack | crates/fs/src/patch.rs:309-413 | Corollary of `PatchLines.AccuratePatchApplies`: without stray carriage returns and empty unterminated lines the patched text always reads back as those lines |
| PatchLines.EmptyLastLineIsLost | crates/fs/src/patch.rs:368-396 | An input whose last line is lost: an empty line before the marker, added to an empty text |
| PatchLines.MarkedTextIsKept | crates/fs/src/patch.rs:402-412 | For every text: when no hunk has an empty line before a marker, the patched text has every line the hunks left, with its ending |
| PatchLines.AtOnceEnd | crates/fs/src/patch.rs:368-412 | Whether accurate hunks end the text in an empty line without an ending, from the hunks and the number of lines alone |
| PatchLines.AccurateKeepsLinesExactly | crates/fs/src/patch.rs:309-413 | An accurate patch keeps every line exactly when its hunks do not end the text in an empty line before a marker |
| PatchParser.ParseBody | crates/fs/src/patch.rs:187-223 | The loop that reads a hunk's lines |
| PatchParser.ParseHunk | crates/fs/src/patch.rs:177-224 | One hunk from its header on |
| PatchParser.ParseHunks | crates/fs/src/patch.rs:175-228 | All hunks of a file |
| PatchParser.ParseFile | crates/fs/src/patch.rs:152-233 | One file's section, with its errors |
| PatchParser.ParseGit | crates/fs/src/patch.rs:88-147 | A git section: refusals, empty creations and deletions |
| PatchParser.ScanGitHeader | crates/fs/src/patch.rs:101-123 | The extended header lines |
| PatchParser.ParsePatch | crates/fs/src/patch.rs:72-242 | The whole parser, errors and line numbers included |
| PatchParser.FormatPatch | crates/fs/src/patch.rs:273-297 | The whole printer |
| PatchRoundTrip.HeaderReadsBack | crates/fs/src/patch.rs:256-269 | A printed hunk header reads back as its four numbers |
| PatchRoundTrip.PathReadsBack | crates/fs/src/patch.rs:244-253 | A printed path reads back, `/dev/null` included |
| PatchRoundTrip.BodyReadsBack | crates/fs/src/patch.rs:187-223 | Printed hunk lines read back up to where the counts end |
| PatchRoundTrip.HunksReadBack | crates/fs/src/patch.rs:175-228 | Printed hunks read back |
| PatchRoundTrip.FileReadsBack | crates/fs/src/patch.rs:152-233 | A printed file section reads back |
| PatchRoundTrip.SectionsReadBack | crates/fs/src/patch.rs:80-234 | Printed files read back |
| PatchRoundTrip.PrintThenParseStrips | crates/fs/src/patch.rs:72-297 | Printing then parsing gives the patches back, each line short of one carriage return at its end |
| PatchReading.BodyIsParseable | crates/fs/src/patch.rs:187-223 | A body that parses has the lines its header counts |
| PatchReading.HeaderPathPrints | crates/fs/src/patch.rs:244-253 | A path that was read can be printed |
| PatchReading.ParsedIsParseable | crates/fs/src/patch.rs:72-242 | Whatever text parses gives well-formed patches |
| PatchReading.PrintThenParse | crates/fs/src/patch.rs:72-297 | Printing then parsing is the identity exactly for non-empty lists of well-formed patches |
| PatchReading.ParseThenPrint | crates/fs/src/patch.rs:72-297 | Parsing, printing and parsing again changes nothing, exactly when no line ends in a carriage return |
| PatchEndings.TextsCounted | crates/fs/src/patch.rs:317-324 | A hunk expects as many lines as start with a space or a minus, and leaves as many as start with a space or a plus |
| PatchEndings.TextsOf | crates/fs/src/patch.rs:317-324 | Those lines without their first character, in order |
| PatchEndings.NewLineAt | crates/fs/src/patch.rs:368-396 | What each line of a hunk leaves: a line to keep its own text and ending, a line to add the ending given, and neither an ending before a marker |
| PatchEndings.RegionEndingIs | crates/fs/src/patch.rs:363-367 | An added line ends like the first ended line it replaces, else like the line before, else as usual |
| PatchEndings.AppliedHunkLeaves | crates/fs/src/patch.rs:313-399 | A hunk that applies does so where its old lines stand, leaves each of its lines as it should, and the lines around it alone |
| PatchEndings.UsualIsCommoner | crates/fs/src/patch.rs:416-426 | The usual ending is the commoner one |
| PatchEndings.RefusedFor | crates/fs/src/patch.rs:337-362 | Exactly what each reason for refusing a hunk means, with its numbers |
| PatchEndings.ApplyFailsAt | crates/fs/src/patch.rs:309-362 | A patch that does not apply names its file and the first hunk with no place |
| PatchEndings.EndingsStay | crates/fs/src/patch.rs:363-406 | For every text whose ended lines all end alike, and has one, each line a patch leaves ends so too |
| PatchEndings.BreaksStay | crates/fs/src/patch.rs:309-413 | Such a text breaks all its lines that way after any patch whose lines hold no line break or half of one |
| PatchForms.NumberExactly | crates/fs/src/patch.rs:256-269 | What a number in a hunk header may look like, and its value |
| PatchForms.HeaderSays | crates/fs/src/patch.rs:256-269 | A hunk header says its four numbers, a count left out being one, whatever follows it |
| PatchForms.PathSays | crates/fs/src/patch.rs:244-253 | The path a header line names, with or without prefix, blanks and time stamp |
| PatchForms.RefusedExactly | crates/fs/src/patch.rs:101-123 | A git header is refused exactly when a line of it is of a refused kind, and for the first |
| PatchForms.GitSays | crates/fs/src/patch.rs:88-147 | What a git section says, from its header lines |
| PatchForms.GitNames | crates/fs/src/patch.rs:89-100 | The two paths a git line names |
| PatchForms.ProseIsSkipped | crates/fs/src/patch.rs:80-151 | Lines that say nothing about files are skipped |
| PatchForms.BinaryIsRefused | crates/fs/src/patch.rs:82-87 | A binary file is refused by its name |
| PatchForms.BodyExactly | crates/fs/src/patch.rs:187-223 | Reading a hunk's body gives exactly the lines its header wants, an empty one standing for kept empty text; or the line that is wrong |
| PatchForms.HunkExactly | crates/fs/src/patch.rs:177-224 | A hunk, or what is wrong with it and where |
| PatchForms.HunksExactly | crates/fs/src/patch.rs:175-228 | The hunks of a file, or which is wrong |
| PatchForms.FileExactly | crates/fs/src/patch.rs:152-233 | A file's section, or what is wrong with it and where |
| PatchForms.SectionsExactly | crates/fs/src/patch.rs:80-234 | The sections of a diff, or which is wrong |
| PatchForms.ParsesExactly | crates/fs/src/patch.rs:72-242 | For every text: the patches are what its lines say, or the error names what is wrong and the line |
| PatchForms.PrintsAs | crates/fs/src/patch.rs:273-297 | How a patch prints, line by line |
| Permissions.CoverableExactly | crates/permissions/src/model.rs:50-82 | A permission covers itself exactly when anything covers it, exactly when its path does not climb |
| Permissions.MadeAgainCovers | crates/permissions/src/model.rs:20-27 | A permission made again from its text covers itself, except when a path climbs or a host changes |
| Permissions.TwoDots | crates/permissions/src/model.rs:96-116 | A host with two dots at its end is written otherwise each time it is read |
| Permissions.PlainHostStays | crates/permissions/src/model.rs:96-116 | An ordinary lower-case host keeps its form |
| Permissions.SeparatorsMatchAlike | crates/permissions/src/model.rs:118-133 | On Windows paths both separators match alike; the rewriting recursion ends |
| PermissionForms.DomainCovers | crates/permissions/src/model.rs:50-59 | A permission for a whole domain covers that one and nothing else |
| PermissionForms.CoversExactly | crates/permissions/src/model.rs:50-82 | When a permission with a specifier covers another |
| PermissionForms.PlainForms | crates/permissions/src/model.rs:118-150 | What a star, a prefix with a star and a plain specifier match |
| PermissionForms.TreeForm | crates/permissions/src/model.rs:134-139 | A folder with a slash and two stars matches the folder and what is below it |
| PermissionForms.LevelForm | crates/permissions/src/model.rs:140-145 | With a slash and one star, what is one level below it |
| PermissionForms.WindowsForms | crates/permissions/src/model.rs:118-133 | A path with a drive letter or two backslashes in front is matched with either separator |
| PermissionForms.HostForms | crates/permissions/src/model.rs:96-116 | How addresses, plain names and international names are written canonically |
| PermissionForms.LowerIs | crates/permissions/src/model.rs:115 | Lower case is of ASCII letters only |
| PermissionForms.MadeForms | crates/permissions/src/model.rs:20-27 | Only hosts are rewritten when a permission is made from its text |
| PathMatching.PathIsNormal | crates/permissions/src/model.rs:77-82 | A path is normal exactly when all its components are |
| PathMatching.WithinIsPrefix | crates/permissions/src/model.rs:134-139 | Text containment at a slash is prefixing of components |
| PathMatching.TreeGrant | crates/permissions/src/model.rs:134-139 | A `/**` grant covers exactly the folder and what is inside it |
| PathMatching.LevelGrant | crates/permissions/src/model.rs:140-145 | A `/*` grant covers exactly one level; at the root, the root too |
| PathMatching.DeniesInside | crates/permissions/src/model.rs:379-391 | A denied path denies what its text names and what is inside the folder left once separators are taken off |
| DeniedFolders.TrimIsBare | crates/permissions/src/model.rs:389 | Taking separators off the end of a folder's text leaves the text of a folder |
| DeniedFolders.DeniedExactly | crates/permissions/src/model.rs:376-392 | Exactly what a denied folder denies, whatever its name ends in and with any slashes after it |
| DeniedFolders.DeniedFolder | crates/permissions/src/model.rs:376-392 | Corollary of `DeniedFolders.DeniedExactly`: a denied folder whose name does not end in a backslash denies exactly the normal paths its components start |
| DeniedFolders.ContainmentExactly | crates/permissions/src/model.rs:376-392 | Denying a folder is denying what its components start exactly when its name does not end in a backslash |
| Engine.ApprovalsOnlyOpen | crates/permissions/src/engine.rs:44-54 | More approvals never turn a decision into a denial or an allowed call into a question |
| Questions.Run | crates/executor/src/lib.rs:625-725 | The question loop, from the first check to the effective grants |
| QuestionProofs.SelfCoveringIsAnswerable | crates/executor/src/lib.rs:941-958 | Approvals suffice from then on when reloads keep grants, paths do not climb and hosts are stable |
| QuestionProofs.RemembersMore | crates/executor/src/lib.rs:685-692 | Each approving answer settles its own kind of question |
| QuestionProofs.OnceEach | crates/executor/src/lib.rs:621-671 | At most three questions, each kind at most once, and never a fourth |
| QuestionProofs.QuestionsInOrder | crates/executor/src/lib.rs:621-624 | Corollary of `QuestionOrder.InOrderExactly`: reloads that keep the runner's list keep the order |
| QuestionProofs.ReloadTurnsOrderAround | crates/executor/src/lib.rs:627-633 | Corollary of `QuestionOrder.InOrderExactly`: a reload that drops the runner's action while grants are asked about turns the order around |
| QuestionOrder.AsksOrStops | crates/executor/src/lib.rs:627-705 | The loop asks at the first closed gate and goes on if the verdict is yes; otherwise no more is asked |
| QuestionOrder.Turns | crates/executor/src/lib.rs:627-692 | With every verdict yes, the loop stops where no gate is closed and asks at the first closed one |
| QuestionOrder.InOrderExactly | crates/executor/src/lib.rs:621-624 | Exactly when the questions come in the order runner, grants, confirm, for any verdicts, denials and reloads that keep grants |
| QuestionOrder.InOrderWhenWilling | crates/executor/src/lib.rs:621-624 | Corollary of `QuestionOrder.InOrderExactly`: its case of approving verdicts and no denials |
| QuestionProofs.FourthQuestionExactly | crates/executor/src/lib.rs:667-670 | Exactly when the fourth-question branch is reached |
| QuestionProofs.ClimbingPathReachesFourth | crates/permissions/src/model.rs:60-65 | A required path that climbs reaches it |
| QuestionOrder.FourthQuestionWhenGrantsGrow | crates/executor/src/lib.rs:667-670 | Exactly when it is reached for grants that grow between loads |
| QuestionOrder.TwoDotsReachFourth | crates/permissions/src/model.rs:96-116 | A required host with two dots at its end reaches it when nothing else covers it |
| QuestionProofs.GrantedMeans | crates/executor/src/lib.rs:627-725 | The handler runs only after a check no denial stopped, with every gate open or approved; effective grants add only requirements |
| QuestionProofs.EffectiveCovers | crates/executor/src/lib.rs:710-725 | The effective grants cover all requirements |
| QuestionProofs.RefusedMeans | crates/executor/src/lib.rs:637-705 | A refusal says what stopped the call, and every question before the last was approved |
| QuestionProofs.NothingAsked | crates/executor/src/lib.rs:637-666 | Nothing is asked when nobody answers or a denial stands |
| Denials.DecidesExactly | crates/permissions/src/engine.rs:118-284 | What a check decides: the first closed gate in order, from the grants, what is required and what was approved |
| Denials.DeniedIsRefused | crates/permissions/src/engine.rs:149-158 | A denied permission stops every call that requires it, whatever was granted or approved |
| Denials.DeniedNeverRuns | crates/executor/src/lib.rs:627-666 | From any state of the loop, a check that finds one ends it with that rule and asks nothing more |
| Denials.GrantedUndenied | crates/executor/src/lib.rs:627-709 | A call that is granted was not denied at the load of its last check |
| Denials.DeniedFolderIsRefused | crates/permissions/src/engine.rs:149-158 | No grant and no answer opens a denied folder: a call that requires a path inside it is refused with nobody asked |
| Denials.QuestionsAskExactly | crates/executor/src/lib.rs:930-960 | Every question asks for exactly what nothing granted covers; what a granted call runs with is what its tool was granted and what the questions asked for |
| Denials.EachCheckLoads | crates/executor/src/lib.rs:627-725 | Every check is made on a fresh load of the grants |
| Denials.FirstCheckDecides | crates/executor/src/lib.rs:637-670 | Who is asked, and how a first check that does not allow the call ends |
| Conversation.Validate | crates/runners/src/lib.rs:221-318 | Accepts exactly the inputs that are declaratively well formed and within the limits, and says why it refuses |
| Conversation.Take | crates/runners/src/lib.rs:263-306 | One message of the validator keeps the outstanding calls, the ids seen and the byte count |
| Conversation.TakeCalls | crates/runners/src/lib.rs:288-303 | The calls of one message are valid and new, or refused |
| Conversation.CountMore | crates/runners/src/lib.rs:264-305 | Saturating addition keeps the verdict of the exact sum |
| Conversation.AfterResult | crates/runners/src/lib.rs:265-275 | A result takes exactly its own call off those outstanding |
| Sizes.Utf8Exactly | crates/fs/src/history.rs:940-946 | Bytes are taken for text exactly when they are what some text is encoded as |
| Sizes.LengthIsEncoded | crates/runners/src/lib.rs:254-264 | A text's size is how many bytes encode it |
| Sizes.InputSizeIs | crates/runners/src/lib.rs:254-306 | What counts against the limit is how many bytes encode all the text of the input |
| Sizes.CallsAreGood | crates/runners/src/lib.rs:283-303 | In a conversation that is accepted every call comes from an assistant with an id, a name and an object |
| Sizes.AnsweredOnce | crates/runners/src/lib.rs:263-311 | In a conversation that is accepted every call has exactly one answer, with only other results in between |
| Sessions.CompactionCut | crates/executor/src/lib.rs:2435-2448 | The largest safe cut that keeps enough turns, none, or an index out of bounds |
| Sessions.RunModel | crates/executor/src/lib.rs:2183-2387 | A model run: how it ends, its new turns, and its progress |
| Sessions.ToolLoop | crates/executor/src/lib.rs:2269-2385 | The loop over replies, with the progress kept after each step |
| Sessions.CallTools | crates/executor/src/lib.rs:2313-2378 | The calls of one reply, each with its result |
| SessionRuns.PairedSplits | crates/executor/src/lib.rs:2435-2438 | A history with every call answered splits anywhere but before a tool result |
| SessionRuns.CompactedPaired | crates/executor/src/lib.rs:2084-2087 | Compaction keeps every call answered |
| SessionRuns.ProgressPaired | crates/executor/src/lib.rs:2390-2392 | The progress of a run has every call answered, wherever it stops |
| SessionRuns.PairedIsWellFormed | crates/runners/src/lib.rs:263-311 | A history with calls answered in order, good calls and no id twice is one the validator accepts |
| SessionRuns.Session.Run | crates/executor/src/lib.rs:1885-1975 | A whole run on a session: busy, compaction, the model run, what is stored; the stored history keeps every call answered |
| SessionRuns.Session.KeepPartial | crates/executor/src/lib.rs:2405-2424 | A stopped run's progress is stored, closed by a note |
| SessionRuns.NewSessionSound | crates/sessions/src/lib.rs:226-244 | A new session is sound |
| SessionRuns.StepSound | crates/executor/src/lib.rs:1916-1974 | Any step of any run on a session keeps it sound |
| SessionRuns.SessionStaysSound | crates/executor/src/lib.rs:1885-1975 | Over any interleaving of runs at most one is in flight, every call stays answered, and the log is what was stored or a summary and its end |
| SessionRuns.CompactionKeepsRecent | crates/sessions/src/redb_store.rs:182-225 | The recent turns survive compaction word for word, after the summary and a user message |
| SessionRuns.CompactionBounds | crates/executor/src/lib.rs:1933-1954 | A log below its threshold is left alone, none gets longer, and exactly when the cut is out of bounds |
| SessionRuns.RunIsItsEvents | crates/executor/src/lib.rs:1955-1974 | A run taken await by await leaves what the whole run leaves |
| SessionRuns.LimitExactly | crates/executor/src/lib.rs:2273-2281 | A run outside a session stops at its limit exactly when that many replies complete |
| SessionRuns.FinishesExactly | crates/executor/src/lib.rs:2298-2312 | A run finishes exactly at the first reply without calls |
| SessionFacts.ResultSays | crates/executor/src/lib.rs:2319-2376 | Each result message has its call's id and what its own tool returned, or says that the tool was not offered |
| SessionFacts.StepSays | crates/executor/src/lib.rs:2313-2378 | A completed reply is written down as it came, then its results in order |
| SessionFacts.StepsSay | crates/executor/src/lib.rs:2269-2385 | The steps of a run, one after the other |
| SessionFacts.EndsExactly | crates/executor/src/lib.rs:2269-2385 | How a run ends: at its limit, stopped while it waited, failed, or at a reply without calls |
| SessionFacts.OwnToolsEnd | crates/executor/src/lib.rs:2240-2268 | A provider that calls tools itself is asked once |
| SessionFacts.RunStores | crates/executor/src/lib.rs:1955-1975 | What a run adds to the stored history: its prompt, its completed steps, and its answer or the note |
| SessionFacts.RunHandsBack | crates/executor/src/lib.rs:2269-2312 | What a run outside a session hands back |
| SessionFacts.CompactionExactly | crates/executor/src/lib.rs:1933-1954 | Exactly when a history is compacted, where it is cut, and what it then is |
| SessionFacts.RunIsAllItsEvents | crates/executor/src/lib.rs:1885-1975 | A run taken event by event, from its first check on, leaves what the whole run leaves |
| FolderLocks.OverlapExactly | crates/fs/src/baseline.rs:189-191 | Two folders overlap exactly when some path lies in both |
| FolderLocks.SwapRemoved | crates/fs/src/baseline.rs:180-182 | Taking one element out loses that one and no other |
| FolderLocks.Holder.Pass | crates/fs/src/baseline.rs:250-260 | One acquisition pass |
| FolderLocks.Holder.Drop | crates/fs/src/baseline.rs:175-187 | Letting go of a lock's folders |
| FolderLocks.PassKeepsApart | crates/fs/src/baseline.rs:250-260 | A pass adds only folders apart from those held, loses none of the pending, and leaves only those that overlap what is then held |
| FolderLocks.PassKeepsOrder | crates/fs/src/baseline.rs:250-260 | What a pass takes and what it leaves keep the order of the pending |
| FolderLocks.DropGivesUp | crates/fs/src/baseline.rs:175-187 | A drop gives up exactly the lock's own folders |
| FolderLocks.PassTakesExactly | crates/fs/src/baseline.rs:252-259 | For roots that do not overlap, a pass leaves exactly those that overlap a held folder |
| FolderLocks.FreeRootsAtOnce | crates/fs/src/baseline.rs:250-263 | Roots that overlap nothing are all taken in the first pass |
| FolderLocks.NoLocksSound | crates/fs/src/baseline.rs:73-87 | Nothing held and no locks is sound |
| FolderLocks.LocksExclude | crates/fs/src/baseline.rs:175-268 | In every interleaving, held folders are exactly those of live locks and no two overlap |
| FolderLocks.HeldApart | crates/fs/src/baseline.rs:189-191 | No two folders of live locks overlap |
| CaptureRoots.Roots | crates/executor/src/capture.rs:250-282 | The roots do not overlap, each is a clipped grant, and each clipped grant is inside one |
| CaptureRoots.Without | crates/executor/src/capture.rs:278 | The roots inside a wider one are dropped |
| CaptureRoots.OutermostExactly | crates/executor/src/capture.rs:268-280 | The roots are exactly the outermost clipped grants |
| CaptureRoots.CapturesWhatIsGranted | crates/executor/src/capture.rs:246-249 | A path in the working folder is captured exactly when a grant covers it |
| CaptureRoots.RootsAtOnce | crates/executor/src/capture.rs:101-107 | A call whose roots overlap nothing held gets all of them at once |
| Scans.Inserted | crates/fs/src/baseline.rs:478 | Inserting keeps the order of paths |
| Scans.SortByPath | crates/fs/src/baseline.rs:478 | The changes sorted by path, none lost |
| Scans.Compare | crates/fs/src/baseline.rs:457-480 | Exactly the paths that differ, strictly sorted, each with its state in both scans |
| Scans.ScanFiles | crates/fs/src/baseline.rs:308-329 | The scan loop, reusing entries that are known and old enough |
| Scans.Baseline.Refresh | crates/fs/src/baseline.rs:278-344 | A scan: a folder scanned in the last half hour is compared with what that scan found, an older one is new, one too large is let be; other folders are kept for half an hour |
| ScanProofs.ChangedSince | crates/fs/src/baseline.rs:139-141 | A file that is not as it was has a modification time set since |
| ScanProofs.ReadIsTrusted | crates/fs/src/baseline.rs:371-372 | An entry read and not racy stands for any later file with its time |
| ScanProofs.ScanKeepsTrust | crates/fs/src/baseline.rs:317-328 | A scan keeps every entry trustworthy |
| ScanProofs.LookIsTrue | crates/fs/src/baseline.rs:317-327 | What an entry says is what its file held when the scan looked |
| ScanProofs.CachedIsFull | crates/fs/src/baseline.rs:318-327 | A cached scan finds what reading every file finds |
| ScanProofs.EveryScanIsFull | crates/fs/src/baseline.rs:306-343 | After any scans, the next finds what a complete re-read would |
| ScanProofs.ReportReplays | crates/fs/src/baseline.rs:457-480 | What a scan reports takes what was known to what it found |
| ScanProofs.JournalReplays | crates/fs/src/baseline.rs:275-277 | Over any scans, reported changes start from the last known state and lead from the first scan to the last |
| ScanFacts.ReadExactly | crates/fs/src/baseline.rs:364-424 | Of what files content is kept, and which entries are racy |
| ScanFacts.KnownIsNotRead | crates/fs/src/baseline.rs:317-321 | A file whose size and time are those of an entry that is not racy is not read |
| ScanFacts.ScansKeepContents | crates/fs/src/baseline.rs:392-424 | Over any scans, what an entry kept is the content it digests |
| ScanFacts.ReportsAreHonest | crates/fs/src/baseline.rs:457-480 | What scans report of a file is what the last two found, and the content in it is the one digested |
| ScanFacts.BeforeExactly | crates/fs/src/baseline.rs:478 | Reports are in the order of paths, component by component |
| ScanFacts.ScanFindsTheDisk | crates/fs/src/baseline.rs:306-343 | After any scans, a scan holds exactly the files that were there when it looked, with their content |
| ScanFacts.StaysKnown | crates/fs/src/baseline.rs:346-362 | What is known of a folder stays while only others are scanned, for half an hour |
| ScanFacts.SteadyScansReport | crates/fs/src/baseline.rs:275-343 | Whatever other folders are scanned meanwhile, scans of a folder within half an hour of each other report all that changed between them |
| ScanFacts.ClassKeepsJournal | crates/fs/src/baseline.rs:275-343 | So what the class reports of a folder is a journal: replayed on what the first scan found it gives what the last one found |
| Captures.BeginsInStep | crates/executor/src/capture.rs:111-130 | After the scan before a call the history expects the file as it is, unless it did not and the scan saw nothing |
| Captures.EndsInStep | crates/executor/src/capture.rs:161-196 | After the scan that ends a call every reported file has a revision with its content; the history is in step exactly when it was or the file was reported |
| Captures.CapturedChangeCanBeUndone | crates/executor/src/capture.rs:169-188 | What a call's programs did to a file can be undone at once, exactly when both contents were kept |
| Captures.PutBackStaysOutOfStep | crates/executor/src/capture.rs:169-188 | A write that a program puts back is reported by no scan and leaves the history out of step |

## Left out

- Temporary files, permissions, symlinks, hard links, directories created and removed, and `open_verified`: the disk is a map from paths to content and modification time.
- Timestamps, actors and sizes of revisions: they are stored and shown, and nothing decides by them.
- SHA-256: digests are taken to be free of collisions.
- Widths of integers: positions, counts and sequence numbers are unbounded, except for the byte count of the validator, which saturates. A number too large for the machine in a hunk header is refused by the program and read by the model.
- `create_diff`, which delegates to a library; accurate patches are stated directly.
- `History::edit`: replacing one text in one file, whose writing part is the write modelled here.
- Histories.History.Patch: assumes that no other program edits a file already written while later files are being written, and that no other operation of the history runs on the patch's files meanwhile; without that, putting back would walk over the other writer's change.
- The messages of errors and refusals: their kinds and the numbers in them are modelled, the sentences are not.
- Parsing of addresses and international host names, and letter case folding: parameters. `PathMatching` is about platforms where case matters.
- The text of `grants.toml` and its edits: a reload is whatever the next load of the engine finds.
- `check_runner_provider`, approval brokers and the classifier: a verdict is a parameter.
- Providers, streams, usage counts, redaction, tracing and system prompts.
- Sessions.RunModel: the run is given what each await returned, in order, and is stopped where that ends; time is not modelled.
- Keys of the session store: the log is a sequence that is appended to and whose oldest part is replaced.
- Scope, labels and ownership of sessions.
- Waiting for folder locks and its deadline: a call may pass again, or let go, at any time.
- CaptureRoots.Roots: grants come as the folders they resolve to; resolving symlinks and globs, and `{cwd}`, are not modelled.
- The shared content store and its eviction: whether it has room is a parameter of each look.
- Ignore rules of the walk: the model is given what the walk lists.
- Captures.EndsInStep: one file, with no edit between a scan and the records it leads to; the loop over files, notes and diffs of a report are not modelled.
- Hot reload, HTTP, WebSocket and command-line front ends, mail, Lua, packages, the installer.
