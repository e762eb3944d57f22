# DocEditor in Dafny

A model of the concurrent Markdown editor: the document as a doubly linked list of chunks that holds the
committed text and the edits waiting for the next version at once, and its replication to clients by replaying
the server's log. `dafny verify dfyconfig.toml` checks everything.

The model has three layers.

1. **Values.** `Pieces` describes a chunk list by the values of its chunks (both sentinels included); `Commands`
   gives every edit command as a function on such lists (`Exec`, and `Respond` with the version check), splits and
   all; `Commits` gives the next version (`Commit`).
2. **Reference.** `Drafts` is the document a reader would draw: the committed characters, each with a deletion
   mark, and between them gaps that hold pending text, newest first. `Abs` maps a chunk list to it, and the lemmas
   show that every command, every sequence of commands and the commit agree with it however the chunks were split.
   `Batches`, `Markers` and `Numbering` tell what batches of commands do to it, and `Lines` describes a document
   without pending edits as a list of lines, with list renumbering.
3. **Program.** `Documents`, `Queue`, `Server` and `ClientProgram` are the imperative code: linked chunks and
   messages changed in place, loops with their cursors. Each method is proved to do what the value layer says.
   `Wire` is the text of commands and log lines, `Rounds` a round of the server and what its broadcast makes a client
   do, `Snapshots` the snapshot and the client's rebuilding loop, and `Replication` the system of server and clients,
   with the bytes in every client's pipe, as a state machine.

A character is a `Glyph`: `Brk` for a newline chunk, `Ch(c)` for a character of a text chunk. So a document without
pending edits is a list of lines, and "the text contains a newline character inside a text chunk" can be said.

Results that are not as one might expect:

- A command comes back to the clients from the bytes of its log line exactly if it is one line without the word
  `SUCCESS` and the log line fits the client's buffer, which has room for 255 bytes (`Wire.LogLineRoundTrip`). Clients
  look for the first occurrence of the word: `Replication.SuccessInTextDiverges` gives a refused insertion that
  every client executes. A worker queues two lines when one `read` returns two commands: in `Wire.TwoCommandsInOne`
  that makes clients strip the empty text. And an insertion of 240 letters is executed by the server, but its log
  line overflows the clients' buffers (`Wire.LongInsertOverflows`, `Replication.LongMessageUnreadable`).
  `Replication.ReplicaConvergence` holds for all runs in which every message is one line without the word, from a
  user without a space in the name: whatever clients have read, they hold the server's documents, and reading on is
  undefined exactly at a line that is too long. `Replication.CatchUp` and `Replication.LongLineStops` say that a client
  can catch up exactly if there is none in its pipe, and `Replication.ShortRun` that there never is one as long as
  user name and command of every message have at most 224 characters together.
- The server commits after a round exactly if some message of it was answered with success, or some user's name or
  some message's text contains the word (`Rounds.RoundCommits`): the round's log is searched as a whole.
  `Rounds.NameCommits` gives a refused message of a user SUCCESSOR that makes it commit.
- List numbers take one character, the byte `num + '0'`. Renumbering is idempotent for runs of any length, but the
  208th item of a run gets a NUL and the 218th a newline character. The server sends the document as a C string, so
  a joining client gets it exactly if no line contains either (`Snapshots.SnapshotRoundTrip`), which
  remains so as long as no 208 lines of a list follow each other (`Snapshots.RenumberPlain`,
  `Replication.RoundStaysPlain`);
  `Snapshots.LongListBreaksJoin` gives the list. In the system clients join only while the document is of that kind.
- The provisional number of a new list item depends on how pending edits have split the line. It does not show
  exactly if the item's marker begins its line in the next version (`Numbering.ProvisionalNumber`), which fails when
  the newline before it is deleted behind other text, or when a later command of the batch puts text in front of
  it (`Numbering.SparedItem`); `Numbering.NumberShows` gives such a batch. For batches in which every item begins
  its line the next version is told by the reference alone (`Numbering.BatchNextLines`), and `Numbering.HarmlessBatch`
  has a condition on the commands for that.
- The documentation says that DELETED_POSITION is reported when a position points to deleted text, and that a range
  whose end does not follow its start is rejected. The code reports the former for range commands only, when both
  positions are deleted, and never rejects the latter, which gets its closing marker first; the model follows the
  code (`Commands.ResultCodes`, `Commands.CodesAsDocumented`, `Markers.RangeMarkers`, `Markers.RejectionsMissed`).
  OUTDATED_VERSION is never reported by range commands either: for an outdated version they report success and do
  nothing. `run_on_doc` always passes the document's own version.

Choices made where C leaves something open: `hr_init` lacks its `return` and is modelled as returning its chunk;
`list_cleanup` and `in_list_check` read three characters of a chunk only if it has three. Positions are the `int`s
that `run_on_doc` reads, so a negative one is refused, and a negative length deletes to the end, as the conversion to
`size_t` makes them.

## Model

| member | source | states |
|---|---|---|
| Pieces.Locate | source/document.c:226-245 | for every position up to the size the cursor walk ends at a committed chunk before the back sentinel, strictly behind its start; position 0 is the front sentinel |
| Pieces.LocateUnique | source/document.c:226-245 | no other chunk covers the position |
| Commands.CursorCell | source/document.c:226-245 | the chunk under the cursor holds the committed character before the position and its deletion mark |
| Commands.CutShape | source/document.c:262-294 | splitting a chunk keeps the text, the deletion marks, the pending edits and the newline flags |
| Commands.PlaceMeaning | source/markdown.c:36-67 | an insertion becomes the newest text of the gap at its position, whatever the chunks |
| Commands.EraseMeaning | source/markdown.c:69-133 | a deletion marks the committed characters of its range and nothing pending, also when both cursors are in one chunk |
| Batches.DeleteExact | source/markdown.c:69-133 | after DEL a character is dead iff it was dead or lies in the range, cut off at the end of the document; gaps are unchanged |
| Commands.BlockMeaning | source/markdown.c:265-303 | the marker and, behind text, a line break before it become the newest text of the gap |
| Commands.RuleMeaning | source/markdown.c:423-478 | a rule also gets a line break behind it unless a newline follows |
| Commands.WrapMeaning | source/markdown.c:227-244 | refused iff the characters before both positions are deleted, otherwise two insertions |
| Commands.ExecMeaning | source/markdown.c:36-502 | every edit command does to the chunks what its reference does to the document, with the same result code |
| Commands.ResultCodes | source/markdown.c:36-502 | INVALID_POSITION is reported exactly by commands with one position outside the document, DELETED_POSITION exactly by range commands with both positions behind deleted characters, OUTDATED_VERSION exactly by commands with one, valid, position; an outdated command changes nothing |
| Commands.CodesAsDocumented | README.md:93-102 | for each of the three documented codes, exactly which commands are answered as announced |
| Batches.BatchMeaning | source/markdown.c:36-502 | the chunks agree with the reference after any sequence of commands |
| Batches.BatchCommit | source/markdown.c:537-609 | after any batch the commit yields the canonical chunks of the renumbered interleaving of the reference |
| Batches.BatchGaps | source/markdown.c:36-502 | after any batch on any document each gap holds what the commands put there, newest first, and exactly the characters of some deleted range are dead, in addition to those that were |
| Batches.SimpleBatch | source/markdown.c:36-171 | for insertions, line breaks and deletions what is put does not depend on the document |
| Batches.SimpleBatches | source/markdown.c:36-171 | two such batches do the same to a document exactly if they add the same to every gap and kill the same of the characters still alive |
| Batches.Rearranged | source/markdown.c:36-171 | every rearrangement that keeps the order at each position, and may repeat deletions, leads to the same next version, however the chunks were split |
| Batches.SimpleCommute | source/markdown.c:36-171 | two such commands commute iff they do not add at one position, or what they add there commutes |
| Batches.CommandsCommute | source/markdown.c:36-502 | any two commands that name no position in common commute on any document, iff neither brings about the refusal of the other |
| Batches.IndependentCommute | source/markdown.c:36-502 | they do if neither deletes a character before a position of the other, a range command |
| Batches.ConcurrentEdits | source/markdown.c:36-502 | two such neighbours in a batch give the same next version in either order, whatever the batch does before and, list items apart, after them |
| Batches.DeletionsUnite | source/markdown.c:110-127 | two batches of deletions do the same exactly if they cover the same characters, those deleted before apart, whatever their number, order and overlap |
| Batches.OverlapIsOne | source/markdown.c:69-133 | two overlapping or adjoining deletions commit like one from the first start to the last end |
| Batches.ReadStability | source/markdown.c:505-527 | no sequence of commands changes the flattened text before the commit |
| Batches.CommitSize | source/markdown.c:548-606 | the commit grows the size by the pending text and shrinks it by the distinct deleted characters |
| Commits.MergedIsMerge | source/markdown.c:548-603 | the text gathered by the sweep is the interleaving of the reference |
| Commits.CommitMeaning | source/markdown.c:537-609 | the next version is canonical, depends only on the reference document and has no pending edits |
| Commits.CanonicalIsCanon | source/markdown.c:548-603 | a canonical chunk list is the layout of its lines |
| Commits.CanonicalUnique | source/markdown.c:548-603 | canonical chunk lists with the same committed characters are equal |
| Snapshots.TextDetermines | source/markdown.c:505-527 | without newline characters inside lines the flat text alone determines the canonical chunk list |
| Commits.CommitIdempotent | source/markdown.c:537-609 | committing a committed document changes nothing |
| Lines.RenumberIdempotent | source/document.c:393-428 | renumbering twice is renumbering once, for runs of any length |
| Lines.ListNumbering | source/document.c:393-428 | the line below exactly n lines that begin with a digit 1 to 9, a full stop and a space, itself one, gets number n + 1, a digit for runs of at most 9, and keeps the rest; the run may begin the document, or follow a blank or any other line |
| Lines.OthersStay | source/document.c:410-411 | every line that does not begin so stays as it is |
| Commits.CommittedLists | source/document.c:393-428 | the same between the text with the pending edits carried out and the committed text |
| Lines.RenumberKeeps | source/document.c:410-414 | only the first character of lines that begin with a digit 1 to 9, a full stop and a space changes, and no length |
| Lines.RenumberPrefix | source/document.c:393-428 | a prefix of renumbered lines is the renumbered prefix |
| Commits.UnlinesRenumber | source/document.c:410-414 | in the flat text renumbering replaces digits only, where they are |
| Numbering.DigitIrrelevant | source/document.c:393-428 | in a text the digit of an item marker vanishes at the renumbering iff the marker begins its line |
| Numbering.ProvisionalNumber | source/markdown.c:305-357 | in any batch two provisional numbers for one item give the same next version iff its marker begins its line there |
| Numbering.ProvisionalNumbers | source/markdown.c:313-321 | all numbers of a batch are without effect iff every item begins its line |
| Numbering.BatchNextLines | source/markdown.c:537-609 | then the next version is that of the reference with any numbers |
| Numbering.SparedItem | source/markdown.c:345-349 | an item whose newline stays begins its line iff it stands behind text, or what later commands put on top of it is empty or ends with a line break |
| Numbering.HarmlessBatch | source/document.c:311-348 | a batch whose items stand behind text, or keep their newline and their position to themselves afterwards, commits without regard to the chunks |
| Numbering.NumberShows | source/document.c:328-346 | two batches whose results differ in the number that the scan of a whole and of a split item found |
| Numbering.NumberFound | source/document.c:311-348 | in a clean document the number found is that of the line + 1, or 1 behind a 9, in the first line and in lines of no list |
| Numbering.PendingUnseen | source/document.c:314-331 | pending chunks and empty ones make no difference to it |
| Commands.NearestBehind | source/document.c:314-321 | the scan backwards ends at the nearest newline chunk that is not pending |
| Commands.NearestFrom | source/document.c:324-332 | the scan forwards ends at the nearest chunk with text that is not pending |
| Numbering.ConcurrentItems | source/markdown.c:36-502 | independent neighbours commute in any batch, list items included, whose items begin their lines in both orders |
| Markers.MarkerPlace | source/markdown.c:173-478 | after any batch the marker of a block command stands behind what is ahead of its gap, what later commands put there and its line break |
| Markers.BlockMarker | source/markdown.c:173-225 | in the next version it is there, its digit aside, and begins its line iff what is before it is empty or ends with a line break |
| Markers.BlockStartsLine | source/markdown.c:173-225 | a block command alone at its position, its newline spared, leaves its marker at the start of a line, right behind the text ahead of its gap and its line break, and a rule is followed by a line break |
| Markers.HeadingCommand | source/document.c:63-90 | on a clean document: the text with "# ", "## " or "### " at the position, behind a line break if text is before it, renumbered |
| Markers.QuoteCommand | source/document.c:92-103 | the same with "> " |
| Markers.BulletCommand | source/document.c:117-128 | the same with "- " |
| Markers.RuleCommand | source/markdown.c:423-478 | the same with "---", and a line break behind it unless one follows |
| Numbering.ItemCommand | source/markdown.c:305-357 | the same with "1. ", whatever number was found |
| Markers.RangeMarkers | source/markdown.c:480-502 | on a clean document start < end gives prefix, opening, middle, closing, suffix, renumbered; end <= start is accepted and gives the closing marker first |
| Markers.RangeCommands | source/markdown.c:403-421 | the same for bold, italic, code and link with their markers |
| Markers.RejectionsMissed | README.md:93-99 | a range of no length and an insertion behind deleted text, both accepted |
| Markers.SingleEdits | source/markdown.c:36-171 | one insertion, line break or deletion on a clean document changes the text as expected |
| Documents.ConnectTwo | source/document.c:247-251 | links two chunks both ways |
| Documents.ConnectThree | source/document.c:253-260 | links three chunks both ways |
| Documents.SplitChunk | source/document.c:262-294 | the two halves of a chunk's value |
| Documents.Document.constructor | source/markdown.c:6-20 | two linked sentinels, size and version 0 |
| Documents.Document.GetChunk | source/document.c:226-245 | the walk ends at the cursor's chunk with the offset in it |
| Documents.Document.Insert | source/markdown.c:36-67 | the new chunk values and result code; a refused command leaves the list of chunks untouched |
| Documents.Document.Delete | source/markdown.c:69-133 | the same for deletion |
| Documents.Document.CutBoth | source/markdown.c:79-108 | both cursors are taken, then the end and the start are split off, also from one chunk |
| Documents.Document.MarkChunks | source/markdown.c:112-127 | the loop marks exactly the committed chunks between the two |
| Documents.Document.Newline | source/markdown.c:136-171 | the same for line breaks |
| Documents.Document.Heading | source/markdown.c:173-225 | the same for headings |
| Documents.Document.Bold | source/markdown.c:227-244 | the same for bold, an outdated version included, which is not reported |
| Documents.Document.Italic | source/markdown.c:246-263 | the same for italic |
| Documents.Document.Blockquote | source/markdown.c:265-303 | the same for quotes |
| Documents.Document.OrderedList | source/markdown.c:305-357 | the same for list items, with the provisional number found |
| Documents.Document.UnorderedList | source/markdown.c:362-401 | the same for bullets |
| Documents.Document.Code | source/markdown.c:403-421 | the same for code |
| Documents.Document.HorizontalRule | source/markdown.c:423-478 | the same for rules |
| Documents.Document.Link | source/markdown.c:480-502 | the same for links |
| Documents.Document.InListCheck | source/document.c:311-348 | the scan back to the last committed newline and forward to the first committed text |
| Documents.Document.Flatten | source/markdown.c:505-527 | the committed text, exactly `size` characters |
| Documents.Document.GatherLines | source/markdown.c:548-603 | the sweep with `fill` and `curr` terminates with the canonical chunks of the gathered lines and returns their size |
| Documents.Document.GatherText | source/markdown.c:574-600 | the text of a chunk goes to the chunk that gathers the line, itself or the one before |
| Documents.Document.RenumberList | source/document.c:401-419 | the inner loop numbers one list and stops where it ends |
| Documents.Document.ListCleanup | source/document.c:393-428 | on canonical chunks the nested loops terminate with the renumbered lines' canonical chunks |
| Documents.Document.IncrementVersion | source/markdown.c:537-609 | the chunks of the next version, the size of its text, the version increased by one |
| Wire.StrChr | source/client.c:52-62 | the first place of a character, or none |
| Wire.StrStr | source/client.c:71 | the first place of a substring, or none |
| Wire.MessageMeaning | source/server_misc.c:196-403 | which messages execute their command, with which result on the reference document, and how each other one is answered, the chunks untouched |
| Wire.PositionCommands | source/server_misc.c:267-351 | the text of each command with one position is that command |
| Wire.PairCommands | source/server_misc.c:252-347 | the text of each command with two numbers is that command, the numbers in their order |
| Wire.TextCommands | source/server_misc.c:228-374 | the text of INSERT and LINK is that command, with the text to the end |
| Wire.NoOtherCommands | source/server_misc.c:218-374 | a text is a command iff its first word is one of the twelve names and the spaces between the arguments are there |
| Wire.AtoiSigned | source/server_misc.c:239 | a printed number is read back |
| Wire.AtoiDigits | source/server_misc.c:239 | each further digit d makes n to 10 n + d |
| Wire.AtoiIgnores | source/server_misc.c:239 | white space before the digits and what follows them do not matter |
| Wire.AtoiSign | source/server_misc.c:239 | one sign before the digits |
| Wire.CommandMessages | source/server_misc.c:196-374 | a message with the text of any of the twelve commands executes it and is answered by its result |
| Wire.AnswersAsWritten | source/server_misc.c:377-403 | the log line of each answer |
| Wire.VersionAsWritten | source/server.c:379-381 | the version line tells the version in decimal |
| Wire.LogLineMentions | source/server.c:375 | a log line contains SUCCESS iff it reports it, or the user's name or the command contains it |
| Wire.LogLineRoundTrip | source/client.c:30-94 | from the bytes of a log line a client recovers exactly the executed command and nothing of a refused one, iff the command is one line and does not contain SUCCESS and the log line fits the buffer |
| Wire.LongInsertOverflows | source/client.c:30-35 | an executed insertion of 240 letters whose log line does not fit |
| Wire.TwoCommandsInOne | source/server.c:151-168 | two commands read at once: the server executes one, the clients replay an empty text |
| Wire.VersionLineSkipped | source/server.c:379-381 | version lines are not replayed |
| Queue.DrainedStable | source/server.c:350-372 | the drain order is sorted by time and keeps the order of arrival among equal times |
| Queue.StableUnique | source/server.c:350-372 | there is only one such order |
| Queue.MsgList.AddMsg | source/server_misc.c:123-136 | the message is appended and counted |
| Queue.MsgList.Earliest | source/server.c:351-363 | the loop finds the first of the earliest messages and its predecessor |
| Queue.MsgList.RemoveMsg | source/server_misc.c:138-152 | exactly this message is removed and counted off |
| Server.Execute | source/server_misc.c:196-403 | the chunks and the log line that one message causes |
| Server.Dispatch | source/server_misc.c:228-374 | every command reaches its method, with the document's own version |
| Server.DrainOne | source/server.c:351-371 | the earliest message is executed and removed |
| Server.ServerRound | source/server.c:350-381 | the queue is emptied in drain order, the document is the round's, the broadcast its log; `size` is the termination measure |
| Rounds.RoundCommits | source/server.c:375-378 | the version grows and the document is committed iff some message of the round is answered with success or mentions it; otherwise nothing changes |
| Rounds.LogAsWritten | source/server.c:379-381 | the broadcast is the new version, each message of the drain with its answer, and END |
| Rounds.EmptyRound | source/server.c:344-401 | without messages the document and the version stay, and only they are told |
| Rounds.NameCommits | source/server.c:375-378 | a refused message that makes the server commit |
| Snapshots.LineAddedMeaning | source/client.c:244-251 | a line break and then a line inserted at the end and committed append the line, text first |
| Snapshots.RebuildMeaning | source/client.c:242-266 | the rebuilding loop line by line, for any text |
| Snapshots.SnapshotRoundTrip | source/server.c:135-138 | a joining client that reads the announced number of characters, from the snapshot and what follows it, holds exactly the server's chunks iff no line contains a newline character or a NUL |
| Snapshots.LongListBreaksJoin | source/document.c:413 | a list of 208 items, whose joining clients get another document |
| Snapshots.RenumberPlain | source/document.c:413 | renumbering puts a NUL or a newline character into a line iff 208 lines of a list follow each other |
| Snapshots.ExecPlain | source/server_misc.c:242-251 | no command whose text is one line of a C string puts a newline character or a NUL into a text chunk |
| ClientProgram.AddLine | source/client.c:244-253 | one line with its break inserted at the end and committed |
| Server.SendSnapshot | source/server.c:127-138 | the size of the text and the text up to its first NUL |
| ClientProgram.JoinServer | source/client.c:234-267 | reading the announced number of characters one by one rebuilds the document and leaves the rest of the pipe |
| ClientProgram.ObeyLine | source/client.c:41-106 | what one line of a broadcast makes a client do |
| ClientProgram.StoreByte | source/client.c:33-35 | a byte goes into the buffer; a newline gets a NUL behind it, in bounds, and completes the line |
| ClientProgram.ReadThread | source/client.c:26-115 | reading a broadcast byte by byte into 256 characters obeys its lines in order and logs them, and stays within the buffer if the lines fit |
| Replication.LineReplayed | source/client.c:70-94 | a client that executes a log line gets what the server got, and reading the line is defined iff it fits the buffer |
| Replication.BatchReplayed | source/server.c:350-372 | the same for all lines of a round, and a round without success changed nothing |
| Replication.BroadcastReplayed | source/server.c:350-385 | a broadcast takes a client from the server's document before the round to that after it, though the client always commits |
| Replication.StepKeeps | source/server.c:119-143 | every step of the system keeps every client inside the history of broadcasts |
| Replication.ReplicaConvergence | source/client.c:26-115 | in every state of every run, of messages that are one line without the word SUCCESS, a client that finished a broadcast holds the server's document of that broadcast, one with an empty pipe the server's present one, and reading the next line is defined iff it fits the buffer |
| Replication.ReadProgress | source/client.c:33-34 | a client with a nonempty pipe without lines that are too long can always read a whole line |
| Replication.CatchUp | source/client.c:26-115 | from every reachable state reading alone brings a client to the server's document, if no line in its pipe is too long |
| Replication.LongLineStops | source/client.c:30-35 | only then can it read its pipe to the end |
| Replication.ShortRun | source/server.c:151-168 | in a run of fewer than 2^31 steps whose messages have at most 224 characters of name and command no client meets a line that is too long |
| Replication.LongMessageUnreadable | source/client.c:30-35 | a message of 250 bytes, executed by the server, whose log line no client can read |
| Replication.HistoryGrows | source/server.c:383-393 | the history of documents and broadcasts only grows |
| Replication.VersionStep | source/server.c:375-378 | the version counts the rounds with a success |
| Replication.QueueHolds | source/server.c:166-171 | the queue holds the messages submitted since the last drain, in order |
| Replication.MessagesConserved | source/server.c:350-372 | in every state of every run as many answers were broadcast as messages submitted, except those still queued |
| Replication.RoundStaysPlain | source/server.c:350-377 | clients may join after a round iff it made no 208 lines of a list follow each other |
| Replication.SuccessInTextDiverges | source/client.c:71-80 | a refused insertion that the clients execute |

## Left out

- FIFOs, signals, threads, sleeping, partial reads and files: every section that holds the mutexes is one atomic step, and joining (registration and snapshot) is one step.
- `check_username` and `roles.txt`: the permission is a field of the message.
- malloc, free and realloc: a chunk's `arr` and `size` are one string, and removed chunks are just unlinked.
- NUL bytes in user names and commands: C strings have none. In the document they are modelled.
- Joining while the document contains a newline character or a NUL inside a line: `Snapshots.SnapshotRoundTrip` says that it fails, and the system has no such step.
- Overflow of `int` in `atoi`, sizes, positions, versions and list numbers: they are unbounded, except that a list number is stored modulo 256.
- Range commands with a position beyond the document, which make the code walk off the list, and heading levels other than 1 to 3: `Commands.Defined` excludes them, and a run of the system stops before them.
- Removing and printing clients, the client's terminal commands, the server's terminal and log file: nothing to prove.
- `check_for_list_after`, `copy_del` and the unused chunk constructors: never called.
- `connect_two` where `connect_three` has the same effect: `Document.LinkIn` links with `connect_three` also where the code calls `connect_two` twice.
- Markdown rendering: the code only inserts markers.
