# Verified models of the agent-stack scripts

Dafny models of seven stateful pieces of this repository, with proofs of what their loops, crashes and whole runs
keep. `dafny verify dfyconfig.toml` checks everything. No lemma uses automatic induction.

**The conversation mirror** (`Transcript`, `MirrorProtocol`, `MirrorSafety`, `MirrorTheorems`, `MirrorMisread`,
`MirrorRun`, `SessionLock`, `SplitText`). Workers post transcript items and spooled notifications to a server that is
only ever appended to. A worker writes a marker to its state file, posts, and replaces the marker by the new mark; it
may be killed between any two of these, a request may end with its outcome unknown, and the next worker looks the
marker up first. `MirrorProtocol` is this as a step system, `MirrorSafety` its invariant, `MirrorTheorems` what
follows for every run. `MirrorRun` is the worker itself, method by method: every save, request and lookup is a step of
that system, so all the theorems hold of it. Where a request may go unanswered or the worker may die, the methods
choose freely. A world that is `smooth` is one in which nothing goes wrong - every answer comes and creates, nobody is
killed, no deadline is hit - and there every method finishes. `SessionLock` is the lock that keeps workers apart, over
a real-valued clock. `SplitText` cuts one message into posts.

The mirror's theorems assume that one worker at a time holds the lock, that a marker lookup answers truthfully, that
no request still under way takes effect after a later lookup, that an answer with an error status created nothing,
that a 200 or 201 answer to a post always has a readable body with an id
(`scripts/notify_mattermost_mirror.py:815-817` and `830-839` take any other body for a refusal, though the post
exists), that the transcript's path is fixed and the file only grows, that entry ids are unique, that an item renders
to the same chunks in every run, and that notifications become visible in the order of their names. At-most-once and
order need nothing more. The assumption on readable answers cannot be dropped: `OnceWithMisreadsIff` adds the misread
answer as a step and shows that at-most-once then holds if and only if there is nothing such an answer could repeat -
no readable notification, and no rendered item that opens a line; otherwise one misread answer is enough. No loss also
needs that nothing is given up as expired, and it is exact: `LossFreeIff` shows it holds if and only if no second item
of one transcript line renders to anything, because the mark moves to the line's end after the line's first item. The
file's own comment promises exactly-once for every item; the code keeps it for one item a line.

**The durable inbox** (`LineFile`, `InboxLog`, `Inbox`). Two append-only files per thread, read line by line, with a
death possible inside an append - inside one of its characters too - and between any two file operations. `LineFile`
is such a file and what can be read back from it; the escalation ledger uses it as well. An append that dies inside
the bytes of one character leaves a file that no longer decodes, and every read of it raises, for records that were
durable before; the module's own comment says a crash cannot do that. `BrokenIff` says exactly when: a file can be
read if and only if no append to it that took effect was cut inside a character, and it stays so: the entries are read
before they are changed, and what is appended behind the cut does not mend it. `PendingOfEveryHistory` says what is
pending after every history of calls and deaths; where appends start at line boundaries it is one ordered pending list
(`PendingIsExact`). Two more places where the code does less than its comments say are stated exactly: a recorded
message can be read back if and only if its append started a line (`RecordIsDurableIff`), and a finished message that
is recorded again is pending again if and only if neither file knows its id any more (`PendingAgainIff`,
`FinishedIsForgottenIff`), which a compaction brings about (`FinishedMessageComesBack`).

**The stall detector and its ledger** (`StallDetector`, `EscalationLedger`, `LedgerFile`). The loop over an item's
failing rounds with its three kinds of round, and the append-only ledger every reader folds. `StallIsSeen` is
completeness: more than `m * threshold` scored rounds with at most `m` distinct failures are reported somewhere on the
way. `EscalationLedger` is the ledger as a list of whole rows, `LedgerFile` as the file it is: a written firing is
seen if and only if its append started a line (`WrittenIsSeenIff`), and a row that did is read for ever, whatever is
torn behind it.

**Return reasons** (`Normalise`, `ReturnKinds`, `Blanking`, `ReturnReasons`, `ReasonPlaces`, `ReturnAgreement`,
`NamedAuthors`, `QuotedEntry`). Normalised text with its index map; the two patterns for kind names and numbered
entries; the greedy choice of disjoint spans to blank; and the printed list that `check_return_reasons` must accept.
Every reason with a letter or digit in it is blanked once, whole, where it is printed or before
(`EveryReasonIsBlanked`). The list is accepted when no author and no printed item names a kind and each reason that
names one - or holds whole entries - stands nowhere usable before its own place (`PrinterAndCheckerAgree`). Where this
fails the list can be turned down: always when an author or a printed item holds a kind's name as a word and no reason
names one (`NamedAuthorIsCounted`; with names as words this is exact, `AcceptedIffNobodyNamed`), and, for a reason
that quotes an entry printed before it, exactly when the returns from the quoted one to the quoting one are not all of
one kind (`QuotedEntryAcceptedIff`), against the comment on the blanking, which says a reason may contain an entry
whole.

**The gateway** (`SseFilter`, `AuditLog`). The event-stream filter as parser and printer, after sections 9.2.5 and
9.2.6 of the HTML Living Standard: what goes out parses to exactly the kept events, each is sound, and filtering twice
is filtering once - given a JSON printer that writes one line which the strict parser reads back. And the rotating
audit log: the files are always the end of everything written, wherever a rotation breaks off.

**Archive pruning** (`ArchivePruning`). The retention loop and its deletions, each of which may be the last one that
succeeds: `PruneLeaves` says of every archive of a directory whether it stays, and the newest holder of every path that
a readable listing names does, at every point. A listing that cannot be read counts as naming nothing;
`PrunedKeepsPathsIff` says exactly when no path at all is lost in spite of that.

**Span masking** (`SpanMasking`, `PathMasking`). Overlapping occurrences of denylisted literals, merged into masks,
and the longest hits of a line. Occurrences are found in the lower case of a path and masked at the same positions of
the path itself, which U+0130 shifts by one. `PrintedAreUncovered` says what is printed of any path;
`MaskingIsExactIff` says for which paths that is exactly what no occurrence covers, under every denylist whose
literals have the four characters or more that loading asks for; `LetterShows` is a path on which a letter of the
literal shows.

`Text`, `Options`, `Sorting` and `Replay` hold what they share.

## Model

| member | source | states |
|---|---|---|
| Transcript.ReadNew | scripts/notify_mattermost_mirror.py:646-667 | one read gives the items of the complete lines after the mark, and the end of the last complete line; an unfinished line is left |
| Transcript.ReadLine | scripts/notify_mattermost_mirror.py:656-666 | one line: skipped when blank or unreadable, otherwise its items with the line's span, the entry's id for the first and a numbered one for the others, or an id made of the offset |
| Transcript.ReadsCompose | scripts/notify_mattermost_mirror.py:646-667 | reading a growing file in steps, each from the mark the last one returned, gives the items and the mark of one read |
| Transcript.EndIsBoundary | scripts/notify_mattermost_mirror.py:646-667 | a returned mark is a line start whenever the read started at one |
| Transcript.ItemsInFileOrder | scripts/notify_mattermost_mirror.py:654-667 | items come in file order, each within one line, lines not overlapping |
| Transcript.ItemIs | scripts/notify_mattermost_mirror.py:654-667 | each item is a part of its line, named by the entry's id and its place in it, or by the place of the line when the entry has none |
| Transcript.NamesDiffer | scripts/notify_mattermost_mirror.py:663-666 | no two items of a file have the same name when no two lines have the same entry id |
| MirrorProtocol.ReadIsSlice | scripts/notify_mattermost_mirror.py:1238 | what a drain reads from a mark is a contiguous part of the final transcript's items, ending where the next read starts |
| MirrorProtocol.BeforeEndOfItem | scripts/notify_mattermost_mirror.py:1239-1256 | moving the mark to an item's end passes that item and only items of the same line |
| MirrorProtocol.MarkersDistinct | scripts/notify_mattermost_mirror.py:1169 | no two chunks of a transcript carry the same marker |
| MirrorSafety.StepKeeps | scripts/notify_mattermost_mirror.py:1120-1260 | every step of a worker, of the server and of the environment, and a death after any of them, keeps the invariant; the cursor moves only when the pending post is recorded, or when a death skips the rest of a line |
| MirrorSafety.ReachableOk | scripts/notify_mattermost_mirror.py:1120-1260 | the invariant holds in every state that any number of workers can reach |
| MirrorSafety.MarkerMeansSent | scripts/notify_mattermost_mirror.py:842-853 | a chunk's marker is on the server exactly when the chunk was delivered |
| MirrorSafety.UndeliveredIsNext | scripts/notify_mattermost_mirror.py:1120-1160 | while an announced post is not on the server, everything delivered lies before the mark: sending it again repeats nothing |
| MirrorSafety.AnnouncedIsFresh | scripts/notify_mattermost_mirror.py:1162-1173 | a post that has only been announced is not yet on the server |
| MirrorSafety.SettleCursor | scripts/notify_mattermost_mirror.py:1145-1160 | recording the pending post as done moves the cursor past it and past nothing else |
| MirrorSafety.CrashCursor | scripts/notify_mattermost_mirror.py:1239-1257 | a death never moves the cursor back, and moves it on only past the rest of a line |
| MirrorTheorems.AtMostOnce | scripts/notify_mattermost_mirror.py:1120-1218 | in every run - deaths, unknown outcomes, refusals, dead roots, expiry - no marker is on the server twice, as long as every answer of success can be read |
| MirrorTheorems.PostsKeepOrder | scripts/notify_mattermost_mirror.py:1197-1260 | in every run the conversation on the server is a subsequence of the transcript's chunks, in order and with their text, and notifications are in order of arrival |
| MirrorTheorems.NothingLost | scripts/notify_mattermost_mirror.py:1162-1260 | when extra items of a line are silent and nothing expires, the transcript posts are exactly a prefix of all chunks, ahead of the persisted mark by at most the one pending chunk |
| MirrorTheorems.DrainedIsPosted | scripts/notify_mattermost_mirror.py:1238-1260 | then a drain at the end of its read has posted every item of every complete line it read |
| MirrorTheorems.ExtraIsLost | scripts/notify_mattermost_mirror.py:634-643 | for any rendered second item of a line there is a run, without expiry, that loses it |
| MirrorTheorems.LossFreeIff | scripts/notify_mattermost_mirror.py:1239-1257 | no run without expiry loses a chunk if and only if no second item of a line renders to anything |
| MirrorTheorems.FewErrorsNeverExpire | scripts/notify_mattermost_mirror.py:1131-1143 | unanswered lookups never count: with fewer error answers than the limit nothing is ever given up |
| MirrorTheorems.GivenUpIff | scripts/notify_mattermost_mirror.py:1131-1143 | in every run a lookup answered with an error gives the post up exactly when it is one of enough such answers since the announcement, the first of them long enough ago |
| MirrorTheorems.NotificationsAllPosted | scripts/notify_mattermost_mirror.py:1197-1218 | without expiry every readable notification at or below the recorded name is on the server, in order, each once |
| MirrorMisread.OnceUnlessMisread | scripts/notify_mattermost_mirror.py:830-839 | a created post whose answer cannot be read is taken for a refusal and its marker forgotten; in every run without such an answer no marker is on the server twice |
| MirrorMisread.MisreadKeeps | scripts/notify_mattermost_mirror.py:1174-1181 | for an item behind another one on its line the forgotten post lies behind the mark, so it is not repeated |
| MirrorMisread.ChunkRepeats | scripts/notify_mattermost_mirror.py:830-839 | for any rendered item that opens a line there is a run with one misread answer that posts its first chunk twice |
| MirrorMisread.NotificationRepeats | scripts/notify_mattermost_mirror.py:830-839 | for the first readable notification there is such a run too |
| MirrorMisread.OnceWithMisreadsIff | scripts/notify_mattermost_mirror.py:830-839 | with misread answers at-most-once holds in every run if and only if no notification is readable and no item that opens a line renders to anything; otherwise one misread answer breaks it |
| MirrorRun.World.Save | scripts/notify_mattermost_mirror.py:1062-1068 | the state file is replaced as a whole, as one step of the protocol |
| MirrorRun.World.Request | scripts/notify_mattermost_mirror.py:792-817 | a request creates exactly one post, under the root it names, when it is answered as created, at most one when it is not answered, none otherwise - given that an answer of success can be read |
| MirrorRun.World.FindMarker | scripts/notify_mattermost_mirror.py:842-853 | found means a post carries the marker, absent means none does, and an error or silence says nothing |
| MirrorRun.Run.ResolvePending | scripts/notify_mattermost_mirror.py:1120-1160 | afterwards nothing is pending or the run stops; a marker on the server is recorded as done, one that is not is forgotten - or given up, only after enough error answers; nothing is posted |
| MirrorRun.Run.SettlePending | scripts/notify_mattermost_mirror.py:1145-1160 | a pending post that is found or given up is recorded as done |
| MirrorRun.Run.ForgetPending | scripts/notify_mattermost_mirror.py:1156-1160 | one that was not created is forgotten, and nothing else changes |
| MirrorRun.Run.PostOnce | scripts/notify_mattermost_mirror.py:819-840 | up to three requests make at most one post, under the one root they name; a refused one leaves everything as it was, and only the root asked for is ever called gone - given that an answer of success can be read |
| MirrorRun.Run.Send | scripts/notify_mattermost_mirror.py:1023-1045 | with a root, a dead root or none, under the announce lock or not, a send makes at most one post; after success the thread has a root, which is this very post exactly when it opens a thread; a root that is not gone stays and the post goes under it; the map loses a root only when the server called it gone |
| MirrorRun.Run.SendLocked | scripts/notify_mattermost_mirror.py:1032-1045 | when the map named no root, the post goes under the one that somebody named in the meantime, or opens the thread and is named |
| MirrorRun.ThreadsHold | scripts/notify_mattermost_mirror.py:1020-1045 | in every session: a root the map took from this mirror opened a thread; a post opened one exactly when the map named none; and of two posts made while it named the same root both went under it and neither opened one |
| MirrorRun.Run.AdoptRoot | scripts/notify_mattermost_mirror.py:1145-1150 | a post that is found by its marker becomes the root exactly when it was sent without one and the map names none |
| MirrorRun.Run.CountError | scripts/notify_mattermost_mirror.py:1131-1143 | an answered lookup error is counted, with the time of the first one kept |
| MirrorRun.Run.Announce | scripts/notify_mattermost_mirror.py:1166-1171 | the marker is in the state file, with nothing else changed, before any request is made |
| MirrorRun.Run.SendMarked | scripts/notify_mattermost_mirror.py:1162-1181 | success means exactly this post was added and the marker is still in the file; any other end leaves the server as it was or with this one post |
| MirrorRun.Run.Transmit | scripts/notify_mattermost_mirror.py:1171-1181 | the answer decides: created and refused clear the marker, no answer leaves it for the next worker |
| MirrorRun.Run.PostChunk | scripts/notify_mattermost_mirror.py:1187-1194 | one chunk is posted and recorded as done |
| MirrorRun.Run.PostChunks | scripts/notify_mattermost_mirror.py:1183-1195 | exactly the chunks not yet recorded are posted, in order |
| MirrorRun.Run.FlushOne | scripts/notify_mattermost_mirror.py:1205-1217 | one notification is posted, with its mention unless stale, and recorded; an unusable one is recorded only |
| MirrorRun.Run.FlushSpool | scripts/notify_mattermost_mirror.py:1197-1218 | exactly the visible notifications after the last recorded one, up to the first stamped later, are posted in order; none stamped later is, and what stops it is one |
| MirrorRun.NoticesAre | scripts/notify_mattermost_mirror.py:1204-1216 | what a flush posts: the readable ones of the notifications it passes, each once and in order, with the mention exactly where every prompt of the read stands before the notification's place |
| MirrorRun.PromptsAre | scripts/notify_mattermost_mirror.py:1239 | the prompts of a read are where its operator prompts start |
| MirrorRun.Run.PostItem | scripts/notify_mattermost_mirror.py:1239-1257 | the notifications stamped up to an item's place and then its chunks, from the first not yet recorded, are added to the server, in that order; then the mark moves to its line's end |
| MirrorRun.Run.PostAll | scripts/notify_mattermost_mirror.py:1239-1257 | what is added to the server is what posting the items of the read one behind the other adds |
| MirrorRun.ItemsPostedInOrder | scripts/notify_mattermost_mirror.py:1239-1257 | and of the conversation that is exactly their chunks, from the first not yet recorded, in transcript order |
| MirrorRun.Run.DrainTranscript | scripts/notify_mattermost_mirror.py:1238-1260 | a finished drain has moved the mark to the end of the last complete line |
| MirrorRun.Run.Drain | scripts/notify_mattermost_mirror.py:1220-1260 | a drain that succeeds has posted every complete line's items, given silent extras and no expiry, and has passed every notification that was there; and it succeeds when nothing goes wrong |
| MirrorRun.Run.Execute | scripts/notify_mattermost_mirror.py:1300-1310 | a whole run, dying anywhere or not, is a run of the protocol; one in which nothing goes wrong ends with nothing pending, every complete line that was there behind the mark and every notification passed |
| MirrorRun.Sessions | scripts/notify_mattermost_mirror.py:1300-1310 | any number of workers one after the other never post anything twice, keep the order, and post everything under the root that the map names |
| SessionLock.GoneIsDead | scripts/notify_mattermost_mirror.py:922-932 | an owner that the margin calls gone is dead, although its deadline was recorded in whole seconds |
| SessionLock.MutualExclusion | scripts/notify_mattermost_mirror.py:935-977 | in every run two live workers never both hold the lock |
| SessionLock.ReleaseIsOwn | scripts/notify_mattermost_mirror.py:913-919 | a live owner's release removes its own lock, never another's |
| SessionLock.LockChangesOnlySo | scripts/notify_mattermost_mirror.py:913-977 | a free lock goes only to a worker with more than two seconds left; a taken one is freed by its owner, or by such a worker when it has no record, its owner is dead and reported so, or its date is passed by more than the margin |
| SessionLock.UndatedIsADeath | scripts/notify_mattermost_mirror.py:944-950 | a lock without a date is what a worker left that died while it took it, with its pid when that was written |
| SessionLock.WaiterGetsIn | scripts/notify_mattermost_mirror.py:922-977 | from every reachable state in which somebody holds a dated lock, a waiter whose own time goes on past the recorded deadline plus the margin comes to hold it, whether the owner died without releasing it or its pid was reused, and nobody else dies before its time |
| SessionLock.UndatedLockIsTaken | scripts/notify_mattermost_mirror.py:922-977 | a lock without a record, or with a pid and no deadline whose owner is reported gone, is taken at once |
| SessionLock.UndatedLockStays | scripts/notify_mattermost_mirror.py:922-932 | a lock with a pid and no deadline stays, and nobody holds it, in every run in which that pid is reported alive |
| SessionLock.SmallMarginBreaks | scripts/notify_mattermost_mirror.py:922-932 | with a margin below grace plus one second there is a run in which two live workers hold the lock |
| SessionLock.MarginIsExact | scripts/notify_mattermost_mirror.py:922-932 | exclusion in every run holds exactly when the margin is at least the grace plus one second |
| SplitText.SlicingTerminatesIff | scripts/notify_mattermost_mirror.py:719-728 | the slicing loop leaves an over-long line if and only if the limit leaves room behind the opener |
| SplitText.RoomForEveryOpener | scripts/notify_mattermost_mirror.py:718-731 | with a limit of 218 plus twice each opener met, no line diverges |
| SplitText.RoomyNeverDiverges | scripts/notify_mattermost_mirror.py:718-731 | a limit of 218 plus twice each line or line end of the text that could open a fence leaves no line that diverges |
| SplitText.Flush | scripts/notify_mattermost_mirror.py:708-716 | the piece is closed when a fence is open, stays within the limit, and the next one repeats the opener |
| SplitText.Slice | scripts/notify_mattermost_mirror.py:719-728 | an over-long line is cut into consecutive slices until its rest fits, step by step as in the loop of `SlicingTerminatesIff`, each filling its piece, and a piece is closed in front of one only when less than 200 characters of room are left |
| SplitText.AddLine | scripts/notify_mattermost_mirror.py:729-734 | a line goes whole into the piece being filled when it fits there, and only otherwise into the next; a fence mark toggles the fence |
| SplitText.SplitText | scripts/notify_mattermost_mirror.py:699-738 | a result for every text with such room; every piece is within the limit; the pieces without inserted openers and closers are the lines in order, over-long ones in slices; every break is forced: the piece and the line behind it together exceed the limit less its reserve, or the break is at a slice of an over-long line; a text that fits with its line ends, and four characters more where there is a fence, comes back as one piece, closed when it leaves a fence open; only a blank last piece is dropped; no result only where the loop does not end; short lines are never cut |
| SplitText.LineFits | scripts/notify_mattermost_mirror.py:729 | in a text that fits each line fits behind those before it |
| SplitText.InsideAgrees | scripts/notify_mattermost_mirror.py:732-733 | a reader of one piece is inside a fence exactly where the cutting of the whole text is |
| SplitText.PiecesEndOutside | scripts/notify_mattermost_mirror.py:708-738 | every piece ends outside a fence when no slice looks like a fence mark |
| SplitText.OpenerIsLastMark | scripts/notify_mattermost_mirror.py:732-733 | the opener that is repeated is the last fence mark met, without the white space around it |
| LineFile.AppendReads | scripts/claude-sessions-bridge/inbox.py:78-112 | at a line boundary an append adds exactly its record to what is read |
| LineFile.TornReads | scripts/claude-sessions-bridge/inbox.py:78-112 | a torn append at a line boundary adds nothing, or its record when only the line feed is missing; cut inside a character it makes the file raise on reading |
| LineFile.AddedTornReads | scripts/claude-sessions-bridge/inbox.py:78-112 | on any file a torn append changes what is read as the list of records with the state of the last line says |
| InboxLog.BrokenStays | scripts/claude-sessions-bridge/inbox.py:102-217 | entries that do not decode are never changed again, and a file begins to be so exactly at an append cut inside a character |
| InboxLog.BrokenIff | scripts/claude-sessions-bridge/inbox.py:78-99 | after every history a file can be read if and only if no append to it that took effect was cut inside a character |
| InboxLog.CutLosesAll | scripts/claude-sessions-bridge/inbox.py:29-32 | a message that was durable is lost to every reader, for good, when the next append dies inside a character |
| InboxLog.RecordIsDurableIff | scripts/claude-sessions-bridge/inbox.py:102-134 | after every history, when `record` writes - the entries decode and the id is new - the file can be read, and the message read back if and only if its append started at a line boundary |
| InboxLog.CompactionInvisible | scripts/claude-sessions-bridge/inbox.py:192-217 | the same messages are pending before a compaction, after the first of its two replacements, and after both |
| InboxLog.ConsumeBounds | scripts/claude-sessions-bridge/inbox.py:151-217 | after a finished consume the entries file has fewer than 200 records or holds exactly what is pending |
| InboxLog.CompactsIff | scripts/claude-sessions-bridge/inbox.py:192-217 | a consume rewrites the files exactly when there are 200 records and both can be read, with what is pending; otherwise it only adds its mark; it raises when it cannot read the entries, or has to find what is pending and cannot |
| InboxLog.PendingDistinct | scripts/claude-sessions-bridge/inbox.py:180-190 | no id is pending twice, and every pending record was recorded and not consumed |
| InboxLog.StepAgrees | scripts/claude-sessions-bridge/inbox.py:115-217 | each call or crash does to the two files what it does to one ordered list with a set of finished ids |
| InboxLog.StepShows | scripts/claude-sessions-bridge/inbox.py:78-217 | each call or crash changes what is read as the list of records with the state of its last line says |
| InboxLog.PendingOfEveryHistory | scripts/claude-sessions-bridge/inbox.py:78-190 | over every history `pending` raises exactly when an append that took effect was cut inside a character; otherwise what is pending is what the records say, where an append that did not start a line is lost and takes an unterminated record with it |
| InboxLog.PendingUntilConsumed | scripts/claude-sessions-bridge/inbox.py:128-190 | a message recorded at a line boundary under an id not consumed is pending whatever follows, torn appends included, until its id is consumed, if and only if no append is cut inside a character; from then on nothing can be read |
| InboxLog.PendingIsExact | scripts/claude-sessions-bridge/inbox.py:115-190 | over any orderly history the pending records are the recorded ids in first-record order minus the consumed ones, each once |
| InboxLog.PendingAgainIff | scripts/claude-sessions-bridge/inbox.py:128-134 | while both files decode, recording a message that is not pending makes it pending exactly when neither file holds its id |
| InboxLog.FinishedIsForgottenIff | scripts/claude-sessions-bridge/inbox.py:128-134 | so a message recorded before and finished since comes back exactly when neither file holds its id any more |
| InboxLog.FinishedMessageComesBack | scripts/claude-sessions-bridge/inbox.py:192-217 | 200 arrivals and one consumption are an orderly history after which the finished message, recorded again, is pending |
| InboxLog.EntriesAreFiled | scripts/claude-sessions-bridge/inbox.py:70-71 | after every history what is read from a file are records of roots with its name only |
| Inbox.Inbox.ReadJsonl | scripts/claude-sessions-bridge/inbox.py:78-99 | the records of the lines that parse, in order, the unterminated last line included; raises when a character was cut short |
| Inbox.Inbox.Record | scripts/claude-sessions-bridge/inbox.py:115-135 | true when written, false for an empty or known id with nothing changed; raises with nothing changed exactly when the entries do not decode; a death leaves a torn append, cut between characters or inside one |
| Inbox.Inbox.Pending | scripts/claude-sessions-bridge/inbox.py:157-160 | the pending records: for every history those its records say, for an orderly one the simple list's unfinished ones; raises exactly when an append was cut inside a character |
| Inbox.Inbox.PendingLocked | scripts/claude-sessions-bridge/inbox.py:180-190 | one pass that skips empty, consumed and repeated ids, when both files decode |
| Inbox.Inbox.MarkConsumed | scripts/claude-sessions-bridge/inbox.py:137-155 | the id is marked and the files compacted when long; raises behind the mark exactly when a file that has to be read does not decode; a death leaves a torn mark or a half-done compaction; an empty id changes nothing |
| Inbox.Inbox.Threads | scripts/claude-sessions-bridge/inbox.py:162-178 | one root for each file with a readable record, that of its first one, unless empty, and no root twice; raises exactly when one file of entries does not decode |
| Inbox.Inbox.PendingIsReachable | scripts/claude-sessions-bridge/inbox.py:162-178 | when a box decodes, a pending record is found by replaying the listed roots exactly when its file's first readable record names a root |
| StallDetector.Evaluate | scripts/agent-harness/oracle_on_stall.py:135-220 | the loop computes the verdict that the round-by-round definition gives |
| StallDetector.TrailLength | scripts/agent-harness/oracle_on_stall.py:197-204 | the trail has one entry a round |
| StallDetector.PrefixKeepsTrail | scripts/agent-harness/oracle_on_stall.py:146-206 | evaluating the first rounds gives the first part of the trail |
| StallDetector.StallCounts | scripts/agent-harness/oracle_on_stall.py:195-196 | the counter is the number of scored rounds without progress since the last one with progress |
| StallDetector.ProgressIff | scripts/agent-harness/oracle_on_stall.py:146-206 | each round from the rounds alone: it can be judged when it is the first, or its head and the last one read before it are known and - on an unmoved head of an OB1 item - both OB1 commits; then it is progress exactly when no round before it had its failure and either commit is another one |
| StallDetector.StalledIff | scripts/agent-harness/oracle_on_stall.py:207-220 | an item with failing rounds is reported exactly when at least `threshold` rounds that could be judged brought no progress since the last one that did |
| StallDetector.UnscoredLeavesStall | scripts/agent-harness/oracle_on_stall.py:156-196 | a round that was not scored leaves the counter, though its failure counts as seen |
| StallDetector.StallBelowRounds | scripts/agent-harness/oracle_on_stall.py:207-212 | the counter stays below the number of rounds |
| StallDetector.ProgressNeedsNovelty | scripts/agent-harness/oracle_on_stall.py:179-180 | rounds of progress never outnumber the distinct failures seen |
| StallDetector.QuietRoundsAreFew | scripts/agent-harness/oracle_on_stall.py:195-217 | while no prefix is reported, scored rounds are at most threshold times the progress rounds |
| StallDetector.StallIsSeen | scripts/agent-harness/oracle_on_stall.py:135-220 | more than m times threshold scored rounds with at most m distinct failures have a prefix that is reported as stalled |
| StallDetector.RepeatsStallOnTime | scripts/agent-harness/oracle_on_stall.py:135-220 | one failure repeated on readable commits is reported after exactly threshold more rounds |
| EscalationLedger.IdInjective | scripts/agent-harness/oracle_on_stall.py:351-354 | what an id is the hash of determines the item and the number of rounds, even when the item holds an "@" |
| EscalationLedger.FoldRows | scripts/agent-harness/oracle_on_stall.py:326-340 | the dictionary loop gives one row per id, the latest, in order of first appearance |
| EscalationLedger.FoldShowsLatest | scripts/agent-harness/oracle_on_stall.py:337-340 | the fold shows a firing exactly when it has rows, and shows its last one |
| EscalationLedger.FoldKeepsOrder | scripts/agent-harness/oracle_on_stall.py:337-340 | later rows, of old firings as well, never move an earlier firing |
| EscalationLedger.HandedOutIs | scripts/agent-harness/oracle_on_stall.py:419-428 | from the rows alone: a reader is handed a row exactly when one waits - the last of its firing and item, with outcome "escalate" and nobody named - and of those the one that fired last |
| EscalationLedger.Ledger.ReadLedger | scripts/agent-harness/oracle_on_stall.py:306-323 | the rows of one item, or all rows for the empty item |
| EscalationLedger.Ledger.Record | scripts/agent-harness/oracle_on_stall.py:357-416 | raises on an impossible verdict, does nothing for a known firing, else appends its row |
| EscalationLedger.Ledger.FindPending | scripts/agent-harness/oracle_on_stall.py:419-428 | the newest firing of the item that is still open |
| EscalationLedger.Ledger.Consume | scripts/agent-harness/oracle_on_stall.py:431-443 | appends a copy of the pending row with who consumed it |
| EscalationLedger.RefusedIff | scripts/agent-harness/oracle_on_stall.py:371-384 | a verdict of the detector is refused only for no rounds under threshold zero, so never a stalled one under a threshold of one or more |
| EscalationLedger.RefusedExactly | scripts/agent-harness/oracle_on_stall.py:371-384 | any verdict is refused exactly when no run could have given it |
| EscalationLedger.WrittenIff | scripts/agent-harness/oracle_on_stall.py:385-416 | a firing is written, as it was given and with nobody named, exactly when no row of that item has that many rounds |
| EscalationLedger.RecordedOnce | scripts/agent-harness/oracle_on_stall.py:351-354 | recording a firing again writes nothing, whatever was written since |
| EscalationLedger.WrittenIsPending | scripts/agent-harness/oracle_on_stall.py:419-428 | on a list of whole rows a firing just written with a target is what the next reader is handed |
| EscalationLedger.ConsumeClosesOne | scripts/agent-harness/oracle_on_stall.py:431-443 | a consumption takes exactly the newest open firing off the open list when it is named; with an empty name it closes nothing |
| EscalationLedger.OthersUntouched | scripts/agent-harness/oracle_on_stall.py:318-319 | consuming for one item changes nothing another item's readers see |
| EscalationLedger.ServedNewestFirst | scripts/agent-harness/oracle_on_stall.py:419-443 | repeated consumption serves every open firing once, newest first, and then none |
| EscalationLedger.OnlyGrows | scripts/agent-harness/oracle_on_stall.py:343-348 | along any history the ledger only grows |
| EscalationLedger.FiredOnceConsumedOnce | scripts/agent-harness/oracle_on_stall.py:326-443 | along any history a firing has one fired row, and its later rows are copies of it that only say who consumed it, none but the last naming anyone; when every consumption names someone there is at most one of them |
| LedgerFile.WrittenIsSeenIff | scripts/agent-harness/oracle_on_stall.py:306-348 | after every history of calls and deaths inside an append, a firing that is written is read and handed to the next reader if and only if its append started a line |
| LedgerFile.LandedIsReadForEver | scripts/agent-harness/oracle_on_stall.py:313-317 | a row that landed on a line of its own is read whatever is appended or torn behind it |
| LedgerFile.WholeRowsAreLedger | scripts/agent-harness/oracle_on_stall.py:306-348 | when no append is torn, what is read from the file is the list of whole rows |
| Normalise.NormWithMap | scripts/agent-harness/learning_records.py:897-913 | the character loop gives the normalised text and the index each character came from |
| Normalise.NormAgrees | scripts/agent-harness/learning_records.py:884-913 | the two normalisations give the same text |
| Normalise.MapIsTrue | scripts/agent-harness/learning_records.py:900-910 | each letter or digit came from the character its index names, and everything before it from what stands before that |
| Normalise.MapIncreases | scripts/agent-harness/learning_records.py:900-910 | the index map is strictly increasing |
| Normalise.LetterIsKept | scripts/agent-harness/learning_records.py:902-906 | no letter and no digit is dropped: each ASCII one stands in lower case where the map points back to it |
| Normalise.SpanNormalises | scripts/agent-harness/learning_records.py:951-957 | whole normalised words, cut out of the source through the map, normalise to those words |
| ReturnKinds.FindTokens | scripts/agent-harness/learning_records.py:892 | scanning for kind names finds every place where one matches |
| ReturnKinds.FindEntries | scripts/agent-harness/learning_records.py:893 | scanning for numbered entries finds every place where one matches |
| ReturnKinds.OneName | scripts/agent-harness/learning_records.py:309 | no place spells two kinds |
| ReturnKinds.CaseAside | scripts/agent-harness/learning_records.py:892-893 | the case of a text's ASCII letters changes no token and no entry |
| ReturnKinds.TokensApart | scripts/agent-harness/learning_records.py:892 | no match starts inside another |
| ReturnKinds.EntriesApart | scripts/agent-harness/learning_records.py:893 | no entry starts inside another, and no name before the entry's own |
| ReturnKinds.FramedEntries | scripts/agent-harness/learning_records.py:893 | where every name stands in an entry between spaces, the entries list exactly the names |
| Blanking.VariantsAreFronts | scripts/agent-harness/learning_records.py:916-928 | each form of a reason is a front part of it that begins and ends on a letter or digit |
| Blanking.VariantsAre | scripts/agent-harness/learning_records.py:916-929 | a reason is looked for as a whole, and one of more than 160 normalised characters then by its first whole words: as many as fit into 160 characters, or those characters where no word ends in them |
| Blanking.FirstUseIsFirst | scripts/agent-harness/learning_records.py:946-963 | the search returns the first occurrence that may be blanked, and nothing only when there is none |
| Blanking.PlaceIsUsable | scripts/agent-harness/learning_records.py:943-966 | the first form that has such an occurrence is used, at its first one |
| Blanking.ChoiceIsSound | scripts/agent-harness/learning_records.py:931-966 | the chosen spans are pairwise disjoint, at most one a return, and each normalises to a form of its return's reason and cuts no token and no entry |
| Blanking.UnquotedStays | scripts/agent-harness/learning_records.py:943-966 | a reason stays only when no form of it stands where it could be blanked |
| Blanking.BlankReasons | scripts/agent-harness/learning_records.py:931-971 | the search loops and the cutting from last to first compute the defined result |
| Blanking.BlankingIsExact | scripts/agent-harness/learning_records.py:936-939 | every kind token and numbered entry is wholly inside one return's span or in the output character for character |
| Blanking.MovesInOrder | scripts/agent-harness/learning_records.py:968-970 | what is left keeps its order |
| ReturnReasons.Draft | scripts/agent-harness/learning_records.py:1442-1463 | the printed list: a numbered entry a return with item, attempt, author and reason |
| ReturnReasons.EntryReads | scripts/agent-harness/learning_records.py:1442-1446 | how an entry reads: the item only when it is another one, the attempt only when there is a number above zero, a note where no reason was recorded |
| ReturnReasons.CheckReturnReasons | scripts/agent-harness/learning_records.py:974-1009 | the findings on a text, which `ReportedIff` and `AcceptedIff` say one by one, or the lookup failure on a name spelled with a letter beyond ASCII |
| ReturnReasons.EmptyIff | scripts/agent-harness/learning_records.py:884-885 | a reason normalises to nothing exactly when it has no letter or digit |
| ReturnReasons.ReportedIff | scripts/agent-harness/learning_records.py:988-1008 | on every text: a reason is reported missing exactly when it has a letter or digit and its normalised text, up to 160 characters without a space at their end, stands at no word start of the normalised text; a kind exactly when what is left names it another number of times than the queue; the list exactly when it is another |
| ReturnReasons.AcceptedIff | scripts/agent-harness/learning_records.py:974-1009 | a text is accepted exactly when it lacks no such reason and what is left of it, spelled in ASCII, names the kinds as often as the queue and lists them in its order |
| ReturnReasons.WideNameRaises | scripts/agent-harness/learning_records.py:996-999 | a name spelled with U+0130, U+0131 or U+017F is a token, and the check raises on it |
| ReturnReasons.RedIsText | scripts/agent-harness/learning_records.py:1442-1463 | the printed list is its entries one after the other, each a number, a kind and what stands behind it |
| ReturnReasons.TextNames | scripts/agent-harness/learning_records.py:1442-1463 | a list with nothing named behind its kinds names the kinds of its entries in order, each in its entry and nowhere else |
| ReturnReasons.QuoteAvoidsEntries | scripts/agent-harness/learning_records.py:961-962 | a span that blanks a reason naming no kind meets no printed entry |
| ReturnReasons.BlankKeepsNames | scripts/agent-harness/learning_records.py:968-970 | blanking spans that meet no entry leaves the named kinds, each in its entry |
| ReturnReasons.ReasonCarried | scripts/agent-harness/learning_records.py:988-993 | every printed reason is found in the printed list |
| ReasonPlaces.PartShows | scripts/agent-harness/learning_records.py:943-957 | a part between white space stands in the normalised text, word-aligned, and its span runs from its first letter or digit to its last |
| ReasonPlaces.PrintedIsWhole | scripts/agent-harness/learning_records.py:961-962 | where `draft` prints a reason, its span cuts no token and no entry |
| ReasonPlaces.EveryReasonIsBlanked | scripts/agent-harness/learning_records.py:943-966 | in every printed list every reason with a letter or digit is blanked once, whole, at its own place or before it, at the first usable one |
| ReturnAgreement.BlankedAtHome | scripts/agent-harness/learning_records.py:936-939 | a reason that names kinds or holds entries and stands nowhere usable before its own place is blanked there |
| ReturnAgreement.PrinterAndCheckerAgree | scripts/agent-harness/learning_records.py:974-1009 | the printed list is accepted for the same returns whenever no author and no printed item names a kind, and each reason names none or stands nowhere usable before its own place - on word boundaries, cutting no token and no entry, outside the own places of earlier such reasons |
| NamedAuthors.TokenUntouched | scripts/agent-harness/learning_records.py:951-963 | when no reason names a kind, no blanked span meets an ASCII kind name that stands as a word |
| NamedAuthors.TokenSurvives | scripts/agent-harness/learning_records.py:968-971 | a token that no span meets is a token of what is left, whatever was cut beside it |
| NamedAuthors.NamedAuthorIsCounted | scripts/agent-harness/learning_records.py:995-1003 | when no reason names a kind, every list in which an author or a printed item holds a kind's name as a word is turned down |
| NamedAuthors.AcceptedIffNobodyNamed | scripts/agent-harness/learning_records.py:974-1009 | with such names as whole words, a list whose reasons name no kind is accepted if and only if no author and no printed item does |
| QuotedEntry.EntryIsTaken | scripts/agent-harness/learning_records.py:946-963 | a reason that quotes an entry printed before it is found at that entry, and the entry is blanked instead of the quotation |
| QuotedEntry.QuotedEntryAcceptedIff | scripts/agent-harness/learning_records.py:931-1008 | a list in which one reason quotes an earlier or its own entry, and nothing else names a kind, is accepted if and only if the returns from the quoted to the quoting one are of one kind |
| QuotedEntry.QuotedEntryBreaksAgreement | scripts/agent-harness/learning_records.py:931-940 | two returns of different kinds, the second reason quoting the first entry, are turned down |
| SseFilter.FilteredReply | openbrain-gateway/app.py:267-287 | a reply that is filtered keeps every other field, and its tools are the allowed ones |
| SseFilter.ReplyIs | openbrain-gateway/app.py:267-293 | for every data of an event: it is dropped exactly when it is an answer to another request; the empty list goes out when it does not parse or is a message that cannot be filtered; a result of this request with a list of tools goes out with exactly the tools on the allow-list, each once and in order, and every other field of it as it was; any other message goes out unchanged |
| SseFilter.AllowedMembers | openbrain-gateway/app.py:276-283 | of the tools of a reply exactly those with an allowed name stay |
| SseFilter.AnswerIsSound | openbrain-gateway/app.py:399-411 | whatever the upstream sent, what goes out is an error for this request, a notification or request, or a result for this request whose tools are all allowed |
| SseFilter.SoundPasses | openbrain-gateway/app.py:399-411 | a sound payload passes unchanged |
| SseFilter.ClosedIsSound | openbrain-gateway/app.py:290-293 | the closed reply is sound: it carries the protocol version and this request's id, and lists no tool |
| SseFilter.CutEvents | openbrain-gateway/app.py:345-354 | events are the groups of non-empty lines, the last one also without an empty line behind it |
| SseFilter.LinesEnd | openbrain-gateway/app.py:296-346 | LF, CR and CRLF end a line, CRLF one line only, and nothing else does |
| SseFilter.EventsEnd | openbrain-gateway/app.py:345-354 | an event is a run of non-empty lines up to an empty line or the end of the stream |
| SseFilter.BomIsDropped | openbrain-gateway/app.py:342-344 | one byte order mark in front of a stream is not part of it |
| SseFilter.ReadEvent | openbrain-gateway/app.py:358-375 | an event's fields: the last type, id and retry win, data lines gather |
| SseFilter.FieldIs | openbrain-gateway/app.py:360-375 | a field is read behind its colon and at most one space, or empty without a colon: data gathers, the last type, id and retry win, any other changes nothing |
| SseFilter.CommentIs | openbrain-gateway/app.py:360-361 | a comment changes nothing |
| SseFilter.FilterStream | openbrain-gateway/app.py:312-396 | the loop writes the kept events of the parsed stream |
| SseFilter.EventGoesOutIff | openbrain-gateway/app.py:376-395 | an event goes out exactly when it is a message, is no answer to another request and has something to write: with its id of 1 to 128 printable characters, its retry of 1 to 10 digits, and the data that `ReplyIs` says |
| SseFilter.EventsGoOut | openbrain-gateway/app.py:357-395 | of every stream exactly those events go out, each once and in order |
| SseFilter.FieldsReadBack | openbrain-gateway/app.py:378-395 | the lines written for an event read back as that event |
| SseFilter.ParseWritten | openbrain-gateway/app.py:378-396 | writing kept events and parsing the text gives them back |
| SseFilter.OutputIsTheKeptEvents | openbrain-gateway/app.py:312-396 | for every input the output parses to exactly the kept events, each with a safe id, a safe retry and a sound payload |
| SseFilter.FilteringTwiceIsOnce | openbrain-gateway/app.py:312-396 | filtering the output changes nothing |
| SseFilter.SafeStreamPasses | openbrain-gateway/app.py:312-396 | a stream of safe events passes as it is |
| AuditLog.AuditLog.Rotate | openbrain-gateway/app.py:609-620 | the file operations of a rotation in order, ending at the first that fails |
| AuditLog.AuditLog.Write | openbrain-gateway/app.py:622-637 | a line is appended, after a rotation when the file would grow past the limit; a failure leaves it out |
| AuditLog.MoveKeepsLog | openbrain-gateway/app.py:616-620 | moving a file into an empty place leaves the lines of all files, oldest first, as they were |
| AuditLog.RotationKeepsTheRest | openbrain-gateway/app.py:609-620 | wherever a rotation breaks off, the files together hold what they held, or that without the oldest file; run through, exactly the latter |
| AuditLog.RotatesIff | openbrain-gateway/app.py:622-634 | where nothing fails, a line that fits is appended and no other file touched; one that does not starts a new file, and each file takes the number after its own, the last one gone |
| AuditLog.FittingKeepsFiles | openbrain-gateway/app.py:628-634 | a line that fits never rotates, whatever fails |
| AuditLog.FilesAreTheEnd | openbrain-gateway/app.py:596-638 | over any history of writes and failures the files, oldest to newest, are the end of everything written |
| AuditLog.LandedIsLast | openbrain-gateway/app.py:622-638 | a line that was written is the last one, and only a rotation let anything go |
| AuditLog.SizesStayBounded | openbrain-gateway/app.py:622-634 | while no line is over the limit, no file is, and all together take one limit a file |
| ArchivePruning.OutDir.FindComplete | scripts/backup/config_secrets_backup.py:585-595 | the archives with both sidecars, newest first |
| ArchivePruning.OutDir.RemoveAll | scripts/backup/config_secrets_backup.py:677-678 | the three files of an archive go in order, up to the first deletion that fails |
| ArchivePruning.OutDir.Prune | scripts/backup/config_secrets_backup.py:663-679 | the loop with its growing set of covered paths does the first deletions of the plan, up to the one that fails; what that leaves `PruneLeaves` says of the directory alone |
| ArchivePruning.NewestCopySurvives | scripts/backup/config_secrets_backup.py:666-676 | for every path the newest archive that was read to hold it stays |
| ArchivePruning.NoPathIsLost | scripts/backup/config_secrets_backup.py:663-679 | the surviving archives hold every path that a listing was read to name |
| ArchivePruning.PruneLeaves | scripts/backup/config_secrets_backup.py:577-679 | on the directory alone: an archive stays, whole and at every point, when it is incomplete, among the `retain` newest complete ones, or its readable listing names a path that no newer readable one names; a pruning that runs through deletes all three files of every other |
| ArchivePruning.ReadPathsAreKept | scripts/backup/config_secrets_backup.py:577-679 | at every point of a pruning each path that the readable listing of a complete archive named is named by the readable listing of a complete archive |
| ArchivePruning.UnreadCopyIsLost | scripts/backup/config_secrets_backup.py:577-582 | an archive whose listing cannot be read is deleted with the last copy it holds |
| ArchivePruning.PrunedKeepsPathsIff | scripts/backup/config_secrets_backup.py:577-679 | a pruning that runs through loses no path that a complete archive held, if and only if each path of an archive that cannot be read and is not among the newest stands in one that can be or is |
| ArchivePruning.EachExtraHoldsALastCopy | scripts/backup/config_secrets_backup.py:669-676 | each archive kept beyond the retained ones holds a path no newer survivor has |
| ArchivePruning.FewExtras | scripts/backup/config_secrets_backup.py:669-676 | there are at most as many of those as paths that the retained archives do not hold |
| ArchivePruning.PruningTwiceIsOnce | scripts/backup/config_secrets_backup.py:663-679 | pruning what was pruned deletes nothing |
| ArchivePruning.SurvivorsAreUntouched | scripts/backup/config_secrets_backup.py:677-678 | however far the deletions got, every survivor is complete and unchanged |
| ArchivePruning.PrunedIsSurvivors | scripts/backup/config_secrets_backup.py:663-679 | a pruning that runs through leaves exactly the survivors as complete archives |
| SpanMasking.FindHits | scripts/checks/check_identity.py:441-447 | the search loops find every occurrence of every literal, overlapping ones too |
| SpanMasking.ShowPath | scripts/checks/check_identity.py:436-460 | the merge and print loops give the defined text |
| SpanMasking.MasksAreExact | scripts/checks/check_identity.py:448-455 | masks are apart, every occurrence lies in one, each names exactly the entries that occur in it, and each is held together by overlapping occurrences |
| SpanMasking.UnderMaskIff | scripts/checks/check_identity.py:441-455 | a character is under a mask exactly when an occurrence covers it |
| SpanMasking.PrintedAreUncovered | scripts/checks/check_identity.py:436-460 | of every path exactly the characters are printed, in order, at whose positions no occurrence covers the lower case |
| PathMasking.LetterShows | scripts/checks/check_identity.py:441 | on the path U+0130 and "secret" with the literal "secret" the mask comes one place too late, and the "s" shows |
| PathMasking.LastLeftOut | scripts/checks/check_identity.py:436-460 | a path with U+0130 that ends on another character and lowers to five or more is not masked exactly |
| PathMasking.FirstLeftOut | scripts/checks/check_identity.py:436-460 | nor is one that begins with U+0130 |
| PathMasking.LastWideLeftOut | scripts/checks/check_identity.py:436-460 | nor is one that ends on U+0130, holds another, lowers to six or more, and not to two characters in turn |
| PathMasking.MaskingIsExactIff | scripts/checks/check_identity.py:372-460 | for every path: under every denylist with literals of four characters or more exactly the characters no occurrence covers are printed, if and only if the path is harmless: its lower case is as long, or has at most four characters, or the path ends on U+0130, does not begin with it, and holds no other one, or its lower case has five characters or is made of two in turn |
| SpanMasking.NumsAreSorted | scripts/checks/check_identity.py:458 | a mask prints each entry it names, in increasing order |
| SpanMasking.MaskTellsEntries | scripts/checks/check_identity.py:458 | masks that read the same name the same entries |
| SpanMasking.ScanLine | scripts/checks/check_identity.py:418-432 | reported are the hits that no longer hit contains |
| SpanMasking.EveryOccurrenceIsReported | scripts/checks/check_identity.py:426-431 | every occurrence lies inside a reported hit |
| SpanMasking.ReportedIsMaximal | scripts/checks/check_identity.py:426-431 | a reported hit is an occurrence, and none longer contains it |

## Left out

- MirrorTheorems.NothingLost: no loss is stated for runs without expiry and for transcripts whose extra items of a line render to nothing; `LossFreeIff` shows the second condition is exact.
- MirrorTheorems.AtMostOnce: for runs in which a created post's answer can be read; `OnceWithMisreadsIff` says when it holds without that. The worker's methods in `MirrorRun` are modelled with readable answers only.
- InboxLog.PendingIsExact: the corollary of `PendingOfEveryHistory` for orderly histories - appends start at a line boundary, only recorded ids are consumed, no append is cut inside a character, no forgotten id comes back.
- ReturnAgreement.PrinterAndCheckerAgree: one direction. A list whose reason names a kind and also stands at a usable place before its own may still be accepted, when what is blanked there leaves the same kinds in the same order; the condition is exact for lists without such reasons (`AcceptedIffNobodyNamed`) and for one quoted entry (`QuotedEntryAcceptedIff`).
- NamedAuthors.AcceptedIffNobodyNamed: stated where each kind spelled in an author or item is a word of its own in ASCII letters; one inside a longer word, or with a letter that only case folding makes a match, is a token or not depending on what is blanked beside or around it.
- QuotedEntry.QuotedEntryAcceptedIff: stated for quotations that stand nowhere, word by word, before the entry they quote.
- PathMasking.MaskingIsExactIff: a literal is any string of four characters or more; that loading strips white space and refuses tabs and comment marks inside it is not modelled.
- SessionLock.MutualExclusion: making the lock directory and writing its two files is one step unless the worker dies in between, and so is the takeover under its mutex; the ten-second timer of a lock without a record, a mutex older than ten seconds, and the polling loop itself are not modelled.
- MirrorRun.Run.Send: the announce lock is free or held as the environment likes; its expiry and the thread map's file format are not modelled.
- The mirror's redaction, rendering and table masking: a function from an item to its chunks. The redaction-timeout placeholder, seeding, a changed path, a shrunk file and the rings of seen replies and questions are not modelled.
- HTTP, JSON text, process ids, fsync, file locking between threads and hashing: steps of the environment, abstract printers with parsers that invert them, atomic file replacement and injective ids.
- Unicode beyond what decides: lower-casing and case-insensitive matching are exact for the characters that meet a-z or 0-9, while digits in a numbered entry are the ASCII ones.
- The event stream is modelled after its UTF-8 decoding with replacement.
- A line of the audit log is appended whole or not at all; an audit log with no path does nothing.
- The stall detector's reasons in words, shortened commits, failure signatures and the queue adapter; clock times, runner names and details in ledger rows.
- An archive's listing that is not valid text, which makes the pruning raise; sorting by name is the order of the directory sequence; interrupted partial archives and their cleanup.
- The generic patterns of a scanned line, columns and labels of findings, and the loading of the denylist.
- Git lookups, evidence files and the other checks of the learning records; policy on tool arguments in the gateway; encryption, inventory and git ignores in the backup job; all other scripts.
