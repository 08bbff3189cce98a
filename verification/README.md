# Verified model of the blog's servers and tools

A Dafny model of the parts of the repository whose correctness depends on more
than one piece of code agreeing, with proofs of what they promise together.
`dafny verify dfyconfig.toml` checks the whole project.

Where the source changes an object step by step the model is a class whose
methods state their whole new state by a specification function; the promises
are lemmas about those functions, over every input, every interleaving or every
sequence of operations.

## What is modelled

**Web sessions** (`Sessions.dfy`, `SessionSteps.dfy`, `SessionStore.dfy`). One attach token: the
table entry with its owner and grace timer, the forwarding task with its
scrollback and single live subscriber, and every connection's bounded queue. Each
lock region and each turn of that forwarder is a step; steps interleave freely. A
history of all bytes produced and of the window each connection was given steers
nothing and is what the theorems speak about. `SessionSteps.dfy` says of each step what a
connection gets or is told, field by field.

**Comments** (`Comments.dfy`, `CommentLog.dfy`, `CommentInput.dfy`,
`CommentStore.dfy`, `CommentQueries.dfy`, `CommentReader.dfy`, `CommentViews.dfy`,
`CommentPromises.dfy`). The single-writer
list with its disk, the projection of global IDs to per-target numbers, the three
places that compute or re-check those numbers, revision-bound pages and the client
that puts a list together from them while the store changes. What the public query and a
guest see, and how submissions and pages are answered, is told from the records alone.

**Line wrapping and printing** (`Wrap.dfy`, `WrapQuality.dfy`, `Sgr.dfy`,
`SgrReaders.dfy`). Greedy breaking by display width with an incrementally tracked
break point, the printer that sends SGR codes only where the style changes, and the two
readers of its output in other places. The codes are the SGR control function of section
8.3.117 of ECMA-48. Character width is an arbitrary function into 0, 1 and 2 with
width 1 for the space.

**Image boxes and the article reader** (`Boxes.dfy`, `BoxReading.dfy`, `BoxGeometry.dfy`,
`BoxText.dfy`, `Viewport.dfy`, `Screen.dfy`). Every line and the anchors emitted while
a block tree is rendered, what these lines show as told from the tree alone, the columns in front of each image by the quotes and lists
around it, the file's text and its split into lines, the reader's checks, the row model
of a terminal width, and the screen under key presses and resizes. A one-row scroll
moves the screen (SU and SD, sections 8.3.147 and 8.3.113 of ECMA-48) and draws one row.

**Statistics** (`Stats.dfy`, `StatsHandshake.dfy`, `StatsAnswer.dfy`). Batches of
read events on three tables, and the exchange in which jaild builds a request, statd
checks it and answers, and jaild checks and prints the answer.

**Frames and build outputs** (`Link.dfy`, `Outputs.dfy`, `StageWalk.dfy`,
`OutputCommit.dfy`, `OutputRuns.dfy`). The send and receive loops of the frame link, and
the claims, the walk of the staging tree and the commit of the content builder in the
static tree it shares with the frontend, complete or cut short between any two of its
removals and writes.

`Common.dfy`, `Text.dfy`, `Sorting.dfy` and `ContentModel.dfy` hold what several of these
use.

## What turned out not to hold, and exactly when it does

- A caller that drops `attach` before it returns can leave an entry with no owner, no
  timer and no attach in flight. Exactly two steps do it (`SessionProtocol.OrphanedIff`):
  from an entry without owner and timer, dropping an attach that has not sent its command
  while no other attach is in flight, or the turn of the forwarder that finds a closed
  connection for a non-empty scrollback, again with no other in flight. Exactly a new
  attach, a reset or the end of the forwarder ends that state
  (`SessionProtocol.OrphanStays`); `SessionProtocol.CancelledAttachLeavesOrphan` is a run.
- Such a caller can also make a closed connection the owner, which otherwise happens only
  when the owner loses its own receiver (`SessionProtocol.DeadOwnerIff`,
  `SessionProtocol.InstalledDead`). The entry then has no timer and a reset leaves it
  alone: exactly the detach of that connection, the takeover by an open one or the end of
  the forwarder end it (`SessionProtocol.DeadOwnerStays`); in the run
  `SessionProtocol.LostAttachOwns` nobody was handed the connection to detach it.
- The web server never drops an attach: `crates/servers/web/src/main.rs` awaits it, with
  nothing that could cancel it. For such callers both properties hold: an entry without
  owner and timer always has an attach in flight, no closed connection is ever installed
  (`SessionProtocol.AwaitedTended`), and an owner is closed exactly after losing its own
  receiver (`SessionProtocol.AwaitedOwner`). What the two bullets above describe is a
  demand of `attach` on its callers that the code does not state.
- What is printed reads back with the same characters and styles if and only if no
  link holds a BEL character (`SgrReaders.StylesComeBack`): a BEL ends the link's
  escape sequence early and the rest of the link is shown as text.
- The reading position is found again for a line if and only if that line is not the
  inside of an image's block (`Viewport.PositionKept`); anchors are never such lines, so
  a rebuild keeps the position (`Viewport.RebuildKeepsPosition`).
- A request jaild builds is accepted by statd if and only if every key it asks for has
  at most 512 bytes (`StatsAnswer.BuiltRequestAccepted`); the index check does not
  bound keys.
- The reader refuses an article whose image has a box narrower than its indent: outside
  lists in more than nineteen quotes, inside a list where four times the quotes and lists
  around the innermost list plus the columns of the item's mark exceed 72
  (`BoxGeometry.GeometryExact`). `BoxGeometry.QuotedImagePasses` and
  `BoxGeometry.ListedImagePasses` give the refused trees of one image. Nothing else about
  a tree decides acceptance (`BoxText.ArticleAccepted`).
- The file splits back into the rendered lines if and only if there is a line, none holds
  a line break and none ends in a carriage return (`BoxText.TextReadBack`). Line breaks
  stay inside a line exactly if a link's target, a code line or a table cell holds one
  (`BoxText.ArticleTorn`), and then the lines behind it move away from the anchors'
  numbers (`BoxText.Landing`, `BoxText.TornCellMovesBox`).
- With a BEL in a link the measured width of a printed line is wrong
  (`SgrReaders.BelLosesWidth`); without one it is the sum of the characters' widths.
- `name: text` is read as that name and text if and only if the name is not a number
  sign followed by digits, which is taken for a reply (`CommentInput.NameReadBack`).
- A commit that is cut short can be repeated if and only if every output it had put in
  place was the builder's before, in its manifest or, without one, below `blog/`
  (`OutputRuns.RepeatAllowedIff`). A first build cut short right after `robots.txt`, with
  the article list and whatever else the walk meets before it in place, cannot be repeated
  (`OutputRuns.FirstBuildCutShort`).

## Model

| member | source | states |
|---|---|---|
| SessionProtocol.StreamWindow | crates/servers/web/src/sessions.rs:277-374 | in every interleaving, what was ever queued to a connection is one contiguous window of the PTY stream: from 0 for the creating connection, from at most 131072 bytes before the point it joined for an attach; exactly one ReplayEnd, at that point; and an open connection not told to close is up to date |
| SessionProtocol.LiveOnce | crates/servers/web/src/sessions.rs:338-365 | each byte of the stream reaches at most one connection live |
| SessionProtocol.ReplayNeverBlocks | crates/servers/web/src/sessions.rs:302-318 | when a replay starts, its queue has room for all pieces and the marker: at most 33 of 128 slots |
| SessionProtocol.ChunksExact | crates/servers/web/src/sessions.rs:304-315 | the replay pieces are data only, join to exactly the scrollback, and are as few as their size allows |
| SessionProtocol.LastOfLast | crates/servers/web/src/sessions.rs:349-353 | trimming the scrollback after every chunk keeps the same tail as trimming the whole stream once |
| SessionProtocol.TimerDiscipline | crates/servers/web/src/sessions.rs:135-149 | the running timers are exactly the entry's own; a set timer implies no owner, an owner implies no timer |
| SessionProtocol.LateDetach | crates/servers/web/src/sessions.rs:258-273 | a detach changes nothing exactly when its connection is not the owner |
| SessionProtocol.OwnedEntryStays | crates/servers/web/src/sessions.rs:248-273 | an entry with an owner is removed by no timer, no reset and no detach: only by the end of its forwarding |
| SessionProtocol.OnlyOwnerReceives | crates/servers/web/src/sessions.rs:324-343 | live output goes to the subscriber only, and while the entry has an owner that is the owner |
| SessionProtocol.UnownedEntryTended | crates/servers/web/src/sessions.rs:135-180 | an entry with neither owner nor timer has an attach in flight, as long as no connection was ever closed during its attach |
| SessionProtocol.CancelledAttachLeavesOrphan | crates/servers/web/src/sessions.rs:135-180 | a run in which the caller drops its attach leaves an entry with no owner, no timer and no attach in flight |
| SessionProtocol.OrphanedIff | crates/servers/web/src/sessions.rs:135-180 | a step leaves such an entry exactly when the entry has neither owner nor timer already and the step drops the only attach in flight before it sent its command, or finds the only one in flight closed with scrollback to replay |
| SessionProtocol.OrphanStays | crates/servers/web/src/sessions.rs:135-180 | such an entry ends exactly by a new attach, a reset or the end of the forwarder |
| SessionProtocol.DeadOwnerIff | crates/servers/web/src/sessions.rs:324-343 | the owner becomes a closed connection exactly when the owner loses its receiver or a closed connection is installed |
| SessionProtocol.InstalledDead | crates/servers/web/src/sessions.rs:300-343 | the connection being installed is closed exactly when it was closed while its attach was in flight |
| SessionProtocol.DeadOwnerStays | crates/servers/web/src/sessions.rs:248-273 | while the owner is closed no timer runs and a reset changes nothing; it ends exactly by its own detach, by the installation of an open connection or by the end of the forwarder |
| SessionProtocol.LostAttachOwns | crates/servers/web/src/sessions.rs:135-180 | a run in which the caller drops its attach, after which the owner is the connection that was closed, with no timer and nothing in flight |
| SessionProtocol.AwaitedTended | crates/servers/web/src/sessions.rs:135-180 | in every run whose attaches are all awaited, an entry with neither owner nor timer has an attach in flight, and the connection being installed is open |
| SessionProtocol.AwaitedOwner | crates/servers/web/src/sessions.rs:324-343 | in such a run the owner becomes a closed connection exactly when the owner loses its own receiver |
| SessionProtocol.ReachableInv | crates/servers/web/src/sessions.rs:135-374 | every state of every interleaving satisfies the protocol invariant |
| SessionSteps.OutputDelivered | crates/servers/web/src/sessions.rs:347-368 | in every reachable state a chunk of output joins the stream and the scrollback is its tail; an open subscriber with fewer than 128 items waiting gets exactly this chunk behind what it has and stays the subscriber; with 128 waiting it gets nothing, is told SlowConsumer and is the subscriber no more; a closed one is dropped; nobody else is touched |
| SessionSteps.ClosingStep | crates/servers/web/src/sessions.rs:324-368 | the exact steps that tell a connection to close, and with which reason |
| SessionSteps.SlowOnlyWhenFull | crates/servers/web/src/sessions.rs:354-364 | in every run, whoever was told SlowConsumer was the open subscriber with 128 items waiting when output came |
| SessionSteps.ReplacedOnlyByAnother | crates/servers/web/src/sessions.rs:324-343 | in every run, whoever was told Replaced was the subscriber when another connection was installed |
| SessionSteps.AttachBegins | crates/servers/web/src/sessions.rs:135-149 | an attach cancels the grace timer, keeps the owner and opens an empty queue under an unused id |
| SessionSteps.ReplayQueued | crates/servers/web/src/sessions.rs:300-322 | a replay leaves an open connection with data that joins to the last 131072 bytes of the stream and one marker behind it, and goes on to install it; a closed one gets nothing |
| SessionSteps.TakenOver | crates/servers/web/src/sessions.rs:324-343 | an installation makes the connection owner and subscriber, cancels the timer and tells exactly the previous subscriber Replaced; without an entry it closes the connection and changes nothing else |
| SessionSteps.CreatorServed | crates/servers/web/src/sessions.rs:285-296 | the creating connection gets the marker at once and is the subscriber; if it has gone, the session ends and its entry goes |
| SessionSteps.AttachEndToEnd | crates/servers/web/src/sessions.rs:135-180 | from every reachable state with an idle forwarder, an attach that runs through leaves the new connection as owner and subscriber with the replay and its marker, and the previous subscriber told Replaced |
| SessionSteps.GraceStarts | crates/servers/web/src/sessions.rs:258-273 | when the owner leaves, a grace timer starts and nothing else changes |
| SessionSteps.GraceEnds | crates/servers/web/src/sessions.rs:269-272 | the timer of an entry is running, and when it ends the entry is removed |
| SessionSteps.ResetRemoves | crates/servers/web/src/sessions.rs:248-254 | a reset removes an entry exactly if it has no owner, also during the grace time, and otherwise changes nothing |
| SessionSteps.EntryGoes | crates/servers/web/src/sessions.rs:248-374 | no step brings an entry back, and exactly a timer, a reset without owner, the end of the forwarder, or its start over a lost creator removes it |
| SessionStore.Store.Create | crates/servers/web/src/sessions.rs:187-242 | a new session is the initial state of the protocol |
| SessionStore.Store.BeginAttach | crates/servers/web/src/sessions.rs:135-149 | the first lock region of an attach is the protocol's AttachStart; an unknown token changes nothing |
| SessionStore.Store.Detach | crates/servers/web/src/sessions.rs:258-273 | detach is the protocol's Detach |
| SessionStore.Store.Reset | crates/servers/web/src/sessions.rs:248-254 | reset is the protocol's Reset |
| SessionStore.Store.GraceElapsed | crates/servers/web/src/sessions.rs:269-272 | the grace timer is the protocol's TimerFires |
| SessionStore.Store.Open | crates/servers/web/src/sessions.rs:285-296 | the forwarder's start is the protocol's TaskOpen |
| SessionStore.Store.Replay | crates/servers/web/src/sessions.rs:300-322 | the loop over the scrollback's pieces, broken off at a dead receiver, is the protocol's TaskReplay |
| SessionStore.Store.Install | crates/servers/web/src/sessions.rs:324-343 | the takeover under the table lock is the protocol's TaskInstall |
| SessionStore.Store.Output | crates/servers/web/src/sessions.rs:347-368 | a chunk of PTY output is the protocol's TaskOutput, whose effect `SessionSteps.OutputDelivered` tells |
| SessionStore.Store.End | crates/servers/web/src/sessions.rs:369-374 | the end of the forwarder is the protocol's TaskEnd |
| Comments.VisibleComments | crates/servers/commentd/src/protocol.rs:147-192 | the loop succeeds exactly on lists with rising IDs whose replies have an earlier parent of the same target, and its result is the numbered view; the counter never overflows |
| Comments.VisibleAt | crates/servers/commentd/src/protocol.rs:153-190 | each comment is numbered by how many of its target came before it, and its reply by its parent's number and author |
| Comments.VisibleFields | crates/servers/commentd/src/protocol.rs:153-190 | field by field: the k-th view has target, author, text and date of the k-th comment, its number is its place among those of its target, and a reply shows place and author of the earlier comment with the parent's ID |
| Comments.CountFits | crates/servers/commentd/src/protocol.rs:153-163 | a list with rising IDs has at most 2^64-1 members |
| CommentReader.SnapshotLines | crates/servers/jaild/src/jail.rs:574-595 | the snapshot is the numbered view, line by line; it succeeds exactly when the list can be numbered and every timestamp has its ten characters, and says which of the two fails |
| CommentReader.Load | crates/tools/jailbin/src/blog/comments.rs:62-112 | the guest accepts exactly the files whose lines are well-formed, number each target 1, 2, ... and summarise earlier parents truly, and returns the target's lines |
| CommentReader.CheckSummary | crates/tools/jailbin/src/blog/comments.rs:94-105 | a reply summary passes exactly when its number and author are those of an earlier line of the target |
| CommentReader.ConsistentMeans | crates/tools/jailbin/src/blog/comments.rs:67-105 | in a file the guest accepts, a line's number is one more than the lines of its target before it, and a summary names number and author of an earlier line of the target |
| CommentReader.FilterThenNumber | crates/servers/commentd/src/store.rs:274-283 | numbering everything and then filtering by target equals filtering and then numbering |
| CommentReader.SnapshotConsistent | crates/tools/jailbin/src/blog/comments.rs:67-105 | every snapshot of storable comments passes the guest's checks |
| CommentReader.ReaderShowsPublicView | crates/tools/jailbin/src/blog/comments.rs:62-112 | what the guest reads from the snapshot for a target is the public projection of that target |
| CommentReader.SummaryFound | crates/servers/commentd/src/protocol.rs:165-181 | a reply's shown number and author lead back to its parent by ID |
| CommentReader.SnapshotCounts | crates/servers/jaild/src/jail.rs:597-610 | the per-target line counts of the snapshot are the approved counts |
| CommentReader.ApprovedCounts | crates/servers/jaild/src/jail.rs:597-609 | the counting loop succeeds exactly on lists that can be numbered, never overflows, and its map holds each target that has comments with their number |
| CommentLog.ApprovedProjectable | crates/servers/commentd/src/store.rs:274-284 | the approved part of a well-formed list can always be numbered, so "comment data unavailable" is unreachable |
| CommentLog.GuestAgreesWithPublic | crates/servers/commentd/src/store.rs:248-315 | for every well-formed list and target, the guest accepts the snapshot and shows from it exactly the public projection |
| CommentLog.ShownNumbers | crates/servers/commentd/src/protocol.rs:159-163 | the k-th approved comment of a target is shown as number k+1 |
| CommentLog.StepWellFormed | crates/servers/commentd/src/store.rs:517-571 | submit and moderate keep the list well-formed: storable records, rising IDs, replies to earlier approved comments of the same target |
| CommentLog.RunWellFormed | crates/servers/commentd/src/store.rs:104-143 | every list reachable from the empty store is well-formed, hence accepted when it is opened |
| CommentLog.RunEvolves | crates/servers/commentd/src/store.rs:361-393 | over any run records stay in place and only a pending one changes its status |
| CommentLog.RateHolds | crates/servers/commentd/src/store.rs:192-212 | whatever the clock does, any 3600-second window of recorded times holds at most 10 comments of one source |
| CommentLog.DuplicatesApart | crates/servers/commentd/src/store.rs:213-221 | no two comments of one source with equal target, text and parent are recorded within 300 seconds of each other, the later one behind the earlier |
| CommentLog.NumberShown | crates/servers/commentd/src/store.rs:503-515 | an approved comment's number is its place in its target's shown list |
| CommentLog.NumbersNeverDecrease | crates/servers/commentd/src/store.rs:361-393 | over any run a visible comment stays the same record and its number never decreases |
| CommentLog.NumbersOrdered | crates/servers/commentd/src/protocol.rs:153-163 | a later approved comment of a target has a larger number |
| CommentLog.ReplyPointsAtParent | crates/servers/commentd/src/protocol.rs:165-181 | the shown parent of a reply is its parent by ID, with that parent's current number, smaller than its own |
| CommentViews.RankIsNumber | crates/servers/commentd/src/protocol.rs:153-163 | a comment's number is how many approved records of its target there are up to it |
| CommentViews.ApprovedIsShown | crates/servers/commentd/src/store.rs:274-279 | an approved record is in the shown list of its target at its rank, field by field |
| CommentViews.ShownIsApproved | crates/servers/commentd/src/store.rs:274-279 | whatever is shown is an approved record of that target, at its rank |
| CommentViews.PublicShows | crates/servers/commentd/src/protocol.rs:147-192 | for every well-formed list, an approved record is shown publicly with its rank as number and its own author, text and date, and as a reply to the rank and author of the approved record it answers |
| CommentViews.GuestView | crates/tools/jailbin/src/blog/comments.rs:62-112 | end to end through the snapshot and the guest's file: a target has as many lines as approved records, and the line with a record's rank has that number and the record's author, text, date and parent |
| CommentViews.ApprovedStays | crates/servers/commentd/src/store.rs:361-393 | in every run, once approved a record is in the shown list of its target in every later state, field by field |
| CommentViews.RejectedStays | crates/servers/commentd/src/store.rs:361-393 | in every run, once rejected a record is shown to no target in any later state |
| CommentViews.NotApprovedHidden | crates/servers/commentd/src/store.rs:274-279 | a record that is not approved is in no shown list |
| CommentInput.NormalizeLine | crates/servers/commentd/src/store.rs:443-480 | every part of a parsed line comes from the cleaned input and is not empty |
| CommentInput.NormalizedIsStorable | crates/servers/commentd/src/store.rs:547-571 | whatever was typed, what would be stored passes the checks a file is opened with |
| CommentInput.ReplyNumberReadBack | crates/servers/commentd/src/store.rs:482-501 | answering a shown number reads back as that number and text |
| CommentInput.NameReadBack | crates/servers/commentd/src/store.rs:462-480 | a name, a colon and a text are read back as that name and text exactly when the name is not a number sign and digits |
| CommentInput.NamedReplyReadBack | crates/servers/commentd/src/store.rs:462-501 | a reply behind a name is read back as name, number and text |
| CommentInput.LaterColonIsText | crates/servers/commentd/src/store.rs:458-480 | a colon behind the first line makes no name: the whole text is a guest's |
| CommentInput.GuestReplyReadBack | crates/servers/commentd/src/store.rs:443-457 | number sign, number, colon and text are read as a guest's reply with exactly that number and text |
| CommentInput.PlainReadBack | crates/servers/commentd/src/store.rs:443-480 | a line without a colon is a guest's text, whole and as it is |
| CommentInput.NothingToSay | crates/servers/commentd/src/store.rs:443-448 | there is nothing to submit exactly when nothing is left behind the control characters and blanks |
| CommentStore.OpenFile | crates/servers/commentd/src/store.rs:104-143 | a file is opened exactly when it encodes a well-formed list, and gives that list |
| CommentStore.OpenStore | crates/servers/commentd/src/store.rs:104-143 | a store starts over an existing file exactly when the file encodes a well-formed list, and then holds that list in memory and on disk |
| CommentStore.ValidateRelations | crates/servers/commentd/src/store.rs:517-545 | the relation check accepts exactly the lists whose replies point to earlier approved comments of their target |
| CommentStore.ResolveReplyId | crates/servers/commentd/src/store.rs:503-515 | the walk finds the ID of the comment shown as the wanted number, and nothing for a number not shown |
| CommentStore.CountRecent | crates/servers/commentd/src/store.rs:194-212 | the count of a source's comments within the last hour of recorded time |
| CommentStore.Examine | crates/servers/commentd/src/store.rs:149-227 | the checks of submit, in their order, give the specified verdict |
| CommentStore.AdmittedIsStep | crates/servers/commentd/src/store.rs:149-246 | every admitted comment is a step of the store's history and keeps the list well-formed |
| CommentStore.ReplyBindsToShown | crates/servers/commentd/src/store.rs:503-515 | a reply to #n binds to the ID of exactly the comment shown as #n |
| CommentStore.ShownIsNumbered | crates/servers/commentd/src/store.rs:503-515 | every shown number belongs to an approved record of the target with that number |
| CommentPromises.AdmittedIff | crates/servers/commentd/src/store.rs:149-246 | a comment is admitted exactly when fewer than ten of its source came within the last hour, none of them said the same to the same within five minutes, and an ID is left; it is stored pending under the next ID with what was written; and which refusal it gets otherwise |
| CommentPromises.ReplyAdmittedIff | crates/servers/commentd/src/store.rs:149-246 | the same for a reply to a shown number: it is stored as a reply to the approved record that has this number |
| CommentPromises.UnknownRefused | crates/servers/commentd/src/store.rs:503-515 | a reply is refused for its number exactly when no approved record of the target has that number |
| CommentPromises.WeighedIff | crates/servers/commentd/src/store.rs:192-230 | the rate and duplicate checks admit exactly what they should, with the next ID |
| CommentPromises.RequestParsed | crates/servers/commentd/src/store.rs:149-183 | a request gets as far as these checks exactly when target, address, sizes and line are in order |
| CommentStore.JudgePending | crates/servers/commentd/src/store.rs:361-393 | approving makes exactly the pending records named Approved and rejecting makes them Deleted; every other record and every other field stays, and they are counted |
| CommentStore.Disk.Rename | crates/servers/commentd/src/store.rs:415-429 | a rename replaces the data file; until the directory is synced a crash may keep the old one, and torn data if the temporary file was not synced |
| CommentStore.Store.Init | crates/servers/commentd/src/store.rs:71-102 | a new store is empty, in memory and on disk |
| CommentStore.Store.Open | crates/servers/commentd/src/store.rs:104-143 | a store opened from a file holds that file's list |
| CommentStore.Store.Commit | crates/servers/commentd/src/store.rs:395-434 | whichever step fails, memory holds the list before or after, equals the disk unless poisoned, and every file a crash can leave at any point opens to the list before or after |
| CommentStore.Store.Submit | crates/servers/commentd/src/store.rs:149-246 | submit appends exactly the admitted comment, or changes nothing |
| CommentStore.Store.Moderate | crates/servers/commentd/src/store.rs:361-393 | without a fault exactly the pending records named become Approved when approving and Deleted when rejecting, every other record is equal, and the answer is their number; an empty request, a fault or a poisoned store changes nothing, and says so |
| CommentQueries.Page | crates/servers/commentd/src/store.rs:317-359 | one page: the first matches above the cursor, with a cursor exactly when more follow, bound to the revision |
| CommentQueries.MatchingContinues | crates/servers/commentd/src/store.rs:343-350 | asking again after a match's ID continues right behind that match |
| CommentQueries.MatchingAll | crates/servers/commentd/src/store.rs:317-359 | the approved comments above ID 0 are all approved comments |
| CommentQueries.Round | crates/servers/commentd/src/client.rs:58-91 | one attempt returns the complete list of the state it started at, or meets a changed state |
| CommentQueries.All | crates/servers/commentd/src/client.rs:56-94 | with arbitrary changes between any two calls, a list that is returned is the complete list of one single state; it gives up only after five changes |
| CommentQueries.PublicQueryOf | crates/servers/commentd/src/store.rs:248-315 | the public query answers with the page of the projection its cursor and revision ask for, and never fails to project |
| CommentQueries.TakeAbove | crates/servers/commentd/src/store.rs:298-304 | the loop takes the numbers after the cursor up to the limit, and says truly whether more follow |
| CommentQueries.PagesCoverAll | crates/servers/commentd/src/store.rs:298-315 | at one revision, following the number cursor yields the rest of the projection once each, in order, and ends |
| CommentPromises.RecordMatches | crates/servers/commentd/src/store.rs:317-359 | an approved (or pending) record above the cursor is listed at its place among those, field by field |
| CommentPromises.PageAnswered | crates/servers/commentd/src/store.rs:317-359 | which page requests are answered, and that the answer is the first of the matches up to the limit, with the cursor and whether more follow |
| CommentPromises.QueryAnswered | crates/servers/commentd/src/store.rs:248-273 | which public queries are answered |
| CommentPromises.TotalShown | crates/servers/commentd/src/store.rs:280-284 | every answer's total is the number of approved records of the target |
| CommentPromises.NewestShown | crates/servers/commentd/src/store.rs:285-297 | without a cursor the answer is the newest comments up to the limit, in order, and says how many came before |
| CommentPromises.NextShown | crates/servers/commentd/src/store.rs:298-315 | with a cursor the answer is the comments right behind it up to the limit, with the next cursor exactly if more follow |
| Wrap.RecomputeBreak | crates/tools/content-build/src/ansi.rs:703-716 | the scan from the end finds the specified break point |
| Wrap.RecomputeGrows | crates/tools/content-build/src/ansi.rs:675-683 | the break point tracked character by character is the one recomputed from the line |
| Wrap.BreakIsLast | crates/tools/content-build/src/ansi.rs:703-716 | that break point is the last break opportunity of the line |
| Wrap.BreakLine | crates/tools/content-build/src/ansi.rs:647-674 | an overflow emits exactly the line the layout prescribes and keeps the rest with width and break point restored |
| Wrap.Push | crates/tools/content-build/src/ansi.rs:675-683 | appending a character keeps width and break point true |
| Wrap.WrapSegments | crates/tools/content-build/src/ansi.rs:631-700 | the wrapper's output is the specified layout of its characters, each line merged into maximal runs of equal style and link |
| WrapQuality.LinesKeepText | crates/tools/content-build/src/ansi.rs:631-700 | the lines, joined, give back every character but the newlines, in order, with style and link |
| WrapQuality.LinesFit | crates/tools/content-build/src/ansi.rs:647-683 | for width 2 and more every line fits |
| WrapQuality.CutIsLongest | crates/tools/content-build/src/ansi.rs:647-674 | a broken line is the longest fitting prefix that ends at an opportunity; it is cut elsewhere only if no opportunity fits, and then it is the longest fitting prefix |
| WrapQuality.WrappingIsOptimal | crates/tools/content-build/src/ansi.rs:631-700 | if any layout that breaks only at opportunities fits, this one has no hard cut and no more lines |
| WrapQuality.ParagraphsApart | crates/tools/content-build/src/ansi.rs:639-645 | a newline ends its paragraph: the parts are laid out independently |
| Sgr.RenderLine | crates/tools/content-build/src/ansi.rs:753-812 | the printing loop prints, for each segment, the style changes from the one before, links closed and opened where they change, and an ending that switches everything off |
| Sgr.CodesLead | crates/tools/content-build/src/ansi.rs:763-793 | the codes printed between two styles turn the first into the second when they are read |
| Sgr.CodesOnlyWhereChanged | crates/tools/content-build/src/ansi.rs:763-793 | codes are printed between two styles exactly when they differ |
| Sgr.PrintedShows | crates/tools/content-build/src/ansi.rs:753-812 | a printed escape-free line shows its characters with their styles and links and leaves neither a style nor a link open |
| SgrReaders.ParseLine | crates/tools/jailbin/src/blog/reader.rs:174-225 | the reader's parser returns the shown characters with their styles, links dropped |
| SgrReaders.StylesComeBack | crates/tools/jailbin/src/blog/reader.rs:174-246 | parsing a printed line gives every character back with its style if and only if no link holds a BEL |
| SgrReaders.LinksShown | crates/tools/content-build/src/ansi.rs:753-812 | a terminal shows each character of a line without empty segments with its own link exactly when no link holds a BEL and none is empty |
| SgrReaders.MeasureWidth | crates/tools/content-build/src/ansi.rs:720-751 | the measuring loop computes the width of what is not an escape sequence |
| SgrReaders.PrintedWidth | crates/tools/content-build/src/ansi.rs:720-751 | without a BEL in a link the measured width of a printed line is the sum of its character widths |
| SgrReaders.BelLosesWidth | crates/tools/content-build/src/ansi.rs:720-751 | a line with a BEL in a link that is measured as empty although it shows a character |
| Boxes.Renderer.RenderBox | crates/tools/content-build/src/ansi.rs:578-609 | an image box is its top border, its wrapped alt text and URL and its bottom border, appended to the lines |
| Boxes.Renderer.RenderBlock | crates/tools/content-build/src/ansi.rs:502-626 | a block appends exactly its specified lines, whose contents `BoxReading.ArticleShown` tells from the tree, and one anchor for each of its processed images, in order, each delimiting the box drawn with the indent of the image's quotes and lists |
| Boxes.Renderer.RenderBlocks | crates/tools/content-build/src/ansi.rs:484-500 | the same for a list of blocks |
| Boxes.Renderer.RenderItems | crates/tools/content-build/src/ansi.rs:538-570 | the same for the items of a list |
| Boxes.Renderer.RenderAnsi | crates/tools/content-build/src/ansi.rs:153-179 | the text is the article's lines, without empty lines at the end, joined by line breaks and ended by one; the anchors are those of the tree's processed images, in order and apart, each delimiting its box |
| BoxReading.ArticleShown | crates/tools/content-build/src/ansi.rs:484-626 | the lines of an article are, in reading order, what each paragraph, heading, code block, table, rule and image of the tree shows at its place: behind the first prefix on its first line and the continuation prefix on all others, its own characters once and in order with their styles and links, no wider than allowed; the final blank lines are cut |
| BoxReading.ArticleIntervals | crates/tools/content-build/src/ansi.rs:484-626 | each of these occupies one interval of the lines, the intervals follow each other and leave no line out |
| BoxReading.RenderArticle | crates/tools/content-build/src/ansi.rs:153-179 | the rendered text and anchors are those of lines that show the article so |
| BoxReading.MarkIs | crates/tools/content-build/src/ansi.rs:542-556 | the mark drawn for an item is its number, right-aligned, and a full stop, or the bullet; `BoxReading.ArticleShown` counts the numbers from the list's start |
| BoxReading.CellsJoined | crates/tools/content-build/src/ansi.rs:571-577 | a table row shows its cells in order with a bar between two of them |
| BoxReading.LineRead | crates/tools/content-build/src/ansi.rs:753-800 | each such line is read back as exactly its characters with their styles |
| BoxReading.TextRead | crates/tools/content-build/src/ansi.rs:512-519 | behind the prefixes, the characters read from a paragraph's or heading's lines, joined, are its text without the line breaks |
| BoxGeometry.GeometryExact | crates/tools/content-build/src/ansi.rs:502-626 | for every tree, each image's anchor carries the columns of its quotes, lists and mark, and passes the geometry check exactly when the image is not empty and those columns are no more than its box's |
| BoxGeometry.QuotedImagePasses | crates/tools/jailbin/src/blog/reader.rs:132-141 | an article that is one image in n quotes passes exactly up to nineteen |
| BoxGeometry.ListedImagePasses | crates/tools/jailbin/src/blog/reader.rs:132-141 | one image in m lists in n quotes passes exactly while 4(n+m) and the columns of the mark make at most 76: eighteen levels with bullets, seventeen with numbers of up to six digits |
| BoxText.TextReadBack | crates/tools/content-build/src/ansi.rs:171-178 | splitting the joined text gives the lines back exactly when there is a line, none holds a line break and none ends in a carriage return |
| BoxText.Landing | crates/tools/jailbin/src/blog/reader.rs:111-115 | lines come out of the split where the lines before them end, which is at their own numbers exactly when no line up to them holds a line break |
| BoxText.LinesInPlace | crates/tools/jailbin/src/blog/reader.rs:111-115 | with no line break inside, an interval of the text is that interval of the lines exactly when none of them ends in a carriage return |
| BoxText.ArticleTorn | crates/tools/content-build/src/ansi.rs:502-626 | a rendered line holds a line break exactly when a shown character's link, a code line or a table cell of the tree does |
| BoxText.NumbersKept | crates/tools/jailbin/src/blog/reader.rs:111-115 | a non-empty article has as many text lines as rendered lines exactly when its tree has no such line break |
| BoxText.BoxesInText | crates/tools/jailbin/src/blog/reader.rs:111-131 | without such a line break each anchor's interval of the text is its image's box, exactly when no row of the box ends in a carriage return |
| BoxText.TornCellMovesBox | crates/tools/content-build/src/ansi.rs:571-577 | a table cell with a line break in front of an image makes the image's anchor start too early |
| BoxText.Preflight | crates/tools/jailbin/src/blog/reader.rs:105-142 | the reader's check of a text and its anchors accepts exactly non-empty text with ordered, disjoint, non-empty intervals in range, sound geometry and the assets there |
| BoxText.IntervalsInText | crates/tools/jailbin/src/blog/reader.rs:116-131 | the anchors of every rendered article pass the interval checks over its text |
| BoxText.ArticleAccepted | crates/tools/jailbin/src/blog/reader.rs:105-142 | the reader accepts a rendered article exactly when its images are not empty, have their assets and stand where the box is as wide as the indent |
| Viewport.RowsOf | crates/tools/jailbin/src/blog/reader.rs:321-338 | an image has the least number of cell rows that hold its height, at least one |
| Viewport.WidthFits | crates/tools/jailbin/src/blog/reader.rs:321-326 | an image is at least one column wide, no wider than its box and, behind its indent, than the terminal, and as wide as its box where that fits |
| Viewport.ProportionsKept | crates/tools/jailbin/src/blog/reader.rs:334-336 | its height in pixels is the largest that keeps the proportions of width and height, and at least one |
| Viewport.BuildModel | crates/tools/jailbin/src/blog/reader.rs:610-647 | the loop builds the specified rows and records where each image's rows lie; picture rows lie nowhere else |
| Viewport.EveryLineOnce | crates/tools/jailbin/src/blog/reader.rs:610-647 | the text rows are the rendered lines outside healthy image blocks, each once, in order |
| Viewport.ModelCovers | crates/tools/jailbin/src/blog/reader.rs:610-647 | the rows stand for ascending lines, and every line that is not hidden inside an image has a row |
| Viewport.ScrollToLine | crates/tools/jailbin/src/blog/reader.rs:660-673 | the search finds the first row standing for the line or a later one |
| Viewport.PositionKept | crates/tools/jailbin/src/blog/reader.rs:649-673 | going to a line and asking for the line gives it back if and only if it is not hidden inside an image |
| Viewport.RebuildKeepsPosition | crates/tools/jailbin/src/blog/reader.rs:997-1004 | rebuilding at another width, with images only ever degrading, keeps the reading position |
| Screen.SliceExact | crates/tools/jailbin/src/blog/reader.rs:342-352 | inside an image the pixel window of some rows is exact and as many rows high; the fallback is never taken |
| Screen.SliceRow | crates/tools/jailbin/src/blog/reader.rs:342-352 | slices tile the image: each row of a slice is the image's own row |
| Screen.PlaceImage | crates/tools/jailbin/src/blog/reader.rs:690-733 | an image is placed whole or as the slice of its visible rows, or not at all when none is visible |
| Screen.DrawImage | crates/tools/jailbin/src/blog/reader.rs:1247-1281 | drawing one image turns exactly its rows into what they should be |
| Screen.DrawFrame | crates/tools/jailbin/src/blog/reader.rs:1210-1286 | a full redraw shows exactly the frame of model and position |
| Screen.FrameText | crates/tools/jailbin/src/blog/reader.rs:1210-1246 | a screen row shows the text or alt text of its row of the model, and behind the last one nothing |
| Screen.FramePicture | crates/tools/jailbin/src/blog/reader.rs:1247-1281 | a screen row of an image shows the pixels of exactly its own row of that image |
| Screen.ImageLaid | crates/tools/jailbin/src/blog/reader.rs:610-647 | every image has its rows in the model one behind the other, and its alt text below |
| Screen.DrawExposed | crates/tools/jailbin/src/blog/reader.rs:1130-1205 | the newly exposed row is the model's row, and missing exactly when the model has none |
| Screen.ScrollIsRedraw | crates/tools/jailbin/src/blog/reader.rs:1091-1128 | moving the screen by one row and drawing the exposed one equals a full redraw |
| Screen.Reader.constructor | crates/tools/jailbin/src/blog/reader.rs:887-914 | the reader starts with the frame of position 0 |
| Screen.Reader.Press | crates/tools/jailbin/src/blog/reader.rs:918-988 | after any key press the screen is the full frame of the new position, which stays in range; the step by one row never runs off the model |
| Screen.Reader.Resize | crates/tools/jailbin/src/blog/reader.rs:990-1016 | after a resize the screen is the full frame of the new model at the old reading position, clamped; a window under 76 columns changes nothing and hands over |
| Link.BigEndianReadBack | crates/servers/proto/src/lib.rs:99-118 | the length field reads back modulo 2^32 |
| Link.EncodedShape | crates/servers/proto/src/lib.rs:99-108 | a frame is sent as its kind, four bytes of length, the most significant first, and its payload |
| Link.EncodeThenDecode | crates/servers/proto/src/lib.rs:99-118 | a frame is decoded from its encoding exactly when its payload is at most 1 MiB |
| Link.DecodeThenEncode | crates/servers/proto/src/lib.rs:109-118 | whatever decodes is the encoding of what it decodes to |
| Link.Send | crates/servers/core/src/link.rs:54-66 | for every pattern of short writes the loop ends having written the exact encoding, or stops at a write of nothing |
| Link.Receiver.Recv | crates/servers/core/src/link.rs:75-111 | the receive loop is the specified reassembly of the fragments that arrive |
| Link.FragmentsReassemble | crates/servers/core/src/link.rs:75-111 | every split of a frame into non-empty fragments gives that frame and leaves what follows |
| Link.FramesArrive | crates/servers/core/src/link.rs:54-111 | for every list of frames and every split of each, repeated receiving gives the frames in order |
| Link.OversizeRefused | crates/servers/core/src/link.rs:94-98 | a frame whose payload is too long is refused however it is split |
| Link.PartWaits | crates/servers/core/src/link.rs:75-111 | while only part of a frame has come the receive loop waits |
| Link.PartEnds | crates/servers/core/src/link.rs:75-93 | an empty fragment in the middle of a frame ends the stream |
| Link.PastRefused | crates/servers/core/src/link.rs:75-111 | a fragment that goes past the end of a frame is refused |
| Stats.Store.RecordBatch | crates/servers/statd/src/store.rs:73-96 | a batch is recorded whole or changes nothing |
| Stats.FailsForGood | crates/servers/statd/src/store.rs:82-95 | the first failing event decides the whole batch |
| Stats.SplitBatch | crates/servers/statd/src/store.rs:73-96 | recording two batches one after the other is recording their concatenation |
| Stats.NoArticleOverflow | crates/servers/statd/src/store.rs:234-295 | in a sound database the article counter never overflows: an event fails exactly when its target's counter is full |
| Stats.RecordedIsSound | crates/servers/statd/src/store.rs:73-96 | from an empty database, each target total is the sum of its article totals per source, and its visitors number no more than its two totals and are none only when both are zero |
| Stats.SumUpdated | crates/servers/statd/src/store.rs:268-295 | the sum over the articles changes by exactly what one counter changes by |
| Stats.TablesCount | crates/servers/statd/src/store.rs:73-96 | every counter is the number of recorded events it counts, and the visitors of a target are exactly those who came |
| StatsHandshake.ValidateIndex | crates/content-model/src/lib.rs:222-270 | the index check with its three sets accepts exactly the indexes of version 1 that map every source rightly, with a date and a title without controls, and name no source twice |
| StatsHandshake.ParseManifest | crates/content-model/src/lib.rs:146-174 | the loop over the manifest's lines, and the scopes it returns, sorted by their comment paths |
| StatsHandshake.ReadManifest | crates/content-model/src/lib.rs:146-174 | a manifest text is accepted exactly when its lines are the two fields, around one tab, of a sound manifest; its scopes are returned in ascending order of their comment paths |
| StatsHandshake.ManifestMeaning | crates/content-model/src/lib.rs:146-174 | a manifest is accepted exactly when each line is the mapping of its target and no target comes twice, and its scopes are sound |
| StatsHandshake.ArticlesByTarget | crates/servers/jaild/src/jail.rs:644-669 | every scope's group is the keys of the index that lie in its directory, sorted |
| StatsHandshake.KeysAre | crates/servers/jaild/src/jail.rs:644-669 | these keys are those of the entries that lie in the directory and no others |
| StatsAnswer.ValidateRequest | crates/servers/statd/src/store.rs:194-232 | statd accepts exactly the well-formed requests: at most 256 distinct targets, at most 1024 articles, and per target distinct keys of at most 512 bytes in its directory |
| StatsAnswer.BuiltRequestAccepted | crates/servers/jaild/src/jail.rs:671-691 | what jaild builds from a sound index and manifest passes statd's check if and only if every key has at most 512 bytes |
| StatsAnswer.Snapshot | crates/servers/statd/src/store.rs:98-158 | statd answers exactly the well-formed requests, successfully, with its time and the counters of every target and article asked for, targets and articles sorted; jaild accepts that answer |
| StatsAnswer.RequestReordered | crates/servers/statd/src/store.rs:225-232 | sorting the targets and each target's articles keeps which articles are asked for each target |
| StatsAnswer.ValidateResponse | crates/servers/jaild/src/jail.rs:743-789 | jaild accepts exactly the successful, timed answers that hold each target asked for once, with exactly its articles, each once |
| StatsAnswer.AnswerAccepted | crates/servers/jaild/src/jail.rs:743-789 | every answer statd gives to an accepted request, in whatever order, passes jaild's check |
| StatsAnswer.ArticleRows | crates/servers/jaild/src/jail.rs:846-861 | the rows printed for a scope, failing exactly when some key has none |
| StatsAnswer.RowsNeverMissing | crates/servers/jaild/src/jail.rs:791-864 | for any answer jaild accepted, every scope finds its answer and every article its row, so the lookup while printing cannot fail |
| StatsAnswer.PrintedFromTables | crates/servers/statd/src/store.rs:98-158 | for any database, an answer's totals are the target's two counters and its visitors, and a row's two numbers are the article's terminal and static counter |
| StatsAnswer.PrintedAreCounters | crates/servers/jaild/src/jail.rs:823-864 | end to end, over every batch of valid events: what is printed for an article of a scope is how many terminal and how many static events named it, what is printed for the scope is the same for its target, and its visitors are the distinct addresses that came |
| ContentModel.ScopeReadBack | crates/content-model/src/lib.rs:99-136 | directories and targets name each other |
| ContentModel.ScopeFields | crates/content-model/src/lib.rs:99-136 | a directory's target is its path between slashes, and its comments lie in a file there |
| ContentModel.ArticleParts | crates/content-model/src/lib.rs:51-76 | a file in a directory is an article exactly when both are made of segments; it lies in that directory, which is a scope exactly when its target is not too long |
| ContentModel.ArticleReadBack | crates/content-model/src/lib.rs:51-76 | every article is a file name of one segment in the directory it is said to lie in |
| Outputs.ClaimOutput | crates/tools/content-build/src/main.rs:399-418 | claiming a path gives one error for every claim it equals, lies below or lies above |
| Outputs.DirectoryClaim | crates/tools/content-build/src/main.rs:371-397 | an existing directory, claimed with a final slash, conflicts exactly with a file of its name or above it, never with a file inside it |
| Outputs.BuildWebClaims | crates/tools/content-build/src/main.rs:451-546 | a build is allowed exactly when its outputs and the nodes it must keep are pairwise apart and no path is reserved, and then wants exactly its outputs |
| Outputs.WantedIs | crates/tools/content-build/src/main.rs:476-546 | the outputs are the article list, robots.txt, with a site address the sitemap and the feed, one page for each article, and the assets |
| StageWalk.WalkRegularFiles | crates/tools/content-build/src/main.rs:347-367 | the walk is the specified depth-first list of files |
| StageWalk.WalkOrdered | crates/tools/content-build/src/main.rs:347-367 | over directories sorted by file name the walk meets files in ascending order of their paths, a slash counting as the least character |
| OutputCommit.NodesApart | crates/tools/content-build/src/main.rs:371-397 | the nodes of an existing tree never conflict with each other |
| OutputCommit.AllowedIff | crates/tools/content-build/src/main.rs:451-546 | in terms of the tree: the outputs are apart from each other, and none is, lies above or lies below something kept in its way |
| OutputCommit.Site.RemoveOld | crates/tools/content-build/src/main.rs:583-592 | the old outputs go, other files stay, and of the directories exactly those go that held a removed file and became empty; cut short, it has removed some of them |
| OutputCommit.Site.WriteAll | crates/tools/content-build/src/main.rs:594-611 | the outputs are put in place in the walk's order; cut short, the first of them are there and at most one temporary file |
| OutputCommit.Site.Write | crates/tools/content-build/src/main.rs:597-610 | one output is written unless a file stands where a directory is needed or a directory where the file goes |
| OutputCommit.Site.Commit | crates/tools/content-build/src/main.rs:568-612 | on a tree its outputs are free of, the commit fails only by a fault from outside, keeps every kept file as it was and leaves the new outputs and nothing else; cut short at any step it has removed some of the old outputs, or all of them and put in place the outputs up to some place of the walk, with at most one temporary file besides |
| OutputCommit.Site.Build | crates/tools/content-build/src/main.rs:989-1184 | a build is refused without touching anything, exactly when it is not allowed, or is committed with its manifest, or is cut short before the manifest with the outputs up to some place of the walk in place |
| OutputRuns.BuildKeepsUnowned | crates/tools/content-build/src/main.rs:568-612 | after a build the files the builder does not own are what they were |
| OutputRuns.UnownedIs | crates/tools/content-build/src/main.rs:462-467 | a file is not the builder's exactly if it is missing from the manifest or, without one, lies outside blog/ |
| OutputRuns.CutKeepsUnowned | crates/tools/content-build/src/main.rs:568-612 | a commit cut short at any step keeps every unowned file, and adds to them exactly the outputs it put where it owned nothing and its temporary file |
| OutputRuns.RepeatAllowedIff | crates/tools/content-build/src/main.rs:451-546 | after a commit cut short the same build is allowed exactly when every output put in place was owned before |
| OutputRuns.FirstBuildCutShort | crates/tools/content-build/src/main.rs:568-612 | a first build, in an empty tree, that is cut short after putting in place robots.txt and all outputs the walk meets before it, the article list among them, cannot be repeated |
| OutputRuns.UnownedSafe | crates/tools/content-build/src/main.rs:436-612 | over any sequence of builds, refused and interrupted ones among them, no file the builder did not own at the start is deleted or changed |
| OutputRuns.UnownedSame | crates/tools/content-build/src/main.rs:436-612 | over refused and complete builds the unowned files stay exactly what they were |
| OutputRuns.NoNewEmptyDirectory | crates/tools/content-build/src/main.rs:558-612 | over such builds no empty directory appears |
| OutputRuns.TreeIsLastBuild | crates/tools/content-build/src/main.rs:436-612 | after a committed build the tree holds what was never the builder's and that build's outputs, and of earlier builds neither a file nor an empty directory |
| OutputRuns.RebuildAllowed | crates/tools/content-build/src/main.rs:451-546 | a committed build is in no way of its own repetition |
| OutputRuns.StrayOutputRefused | crates/tools/content-build/src/main.rs:462-474 | an output that is there without being in the manifest refuses every build that wants it |

## Left out

- Timers and attaches: a replay is one step, since a receiver that goes between two pieces has the effect of one that went before the replay, and between the last piece and the marker of one that goes after it; a receiver that goes between the takeover and the return of the attach counts as the owner losing its receiver; taking a grace timer's handle cancels it at once; one attach token is modelled, and `create` only after the session has been opened.
- The close signal of a replaced connection is recorded; the WebSocket loop that acts on it is not modelled.
- CommentStore.OpenFile: the marker, the salt, ownership and modes of the files and the UTF-8 check before decoding.
- CommentStore.Store.Commit: the digest that makes the revision is the list itself, so two lists with one digest do not occur; JSON encoding and decoding are inverse.
- CommentStore.Store.Submit: timestamps are whole seconds of years 0 to 9999, the salted hash of a source is given as a digest, and the UTF-8 and wire checks before it are not modelled.
- CommentReader.SnapshotLines: a stored timestamp is a date in seconds or no date at all; the cut of its first ten bytes is exact for every date that exists.
- CommentQueries.All: answers that contradict themselves (a foreign revision inside a page, a cursor that does not move) are refused by the client; the store gives none, so those branches are folded away.
- Reading of comments for display: the pager's window of latest comments and its indentation.
- Sgr.PrintedShows: text and links are free of escape characters; the builder does not check this for text it is given.
- SgrReaders.PrintedWidth: what the width is when a link holds a BEL; the source measures indents only, which have no links.
- SgrReaders.ParseLine: an escape sequence that does not end makes the model stop. The source drops such an OSC sequence with the rest of the line, takes the last character of such a CSI sequence for its final byte, and panics on `ESC [` at the end of a line; no printed line has any of these.
- Wrap.WrapSegments: characters are code points with an arbitrary width of 0, 1 or 2; grapheme clusters are not joined, as in the source.
- Boxes.Renderer.RenderBlock: the block tree is given, inline parsing is not modelled; list prefixes are outside the wrapped width, so no bound of 76 columns is claimed for whole lines.
- BoxGeometry.GeometryExact: the marks of quotes and list items (`>`, the bullet, the digits and the full stop) take one column each, as in the Unicode width tables.
- BoxText.Preflight: whether an asset is well named and its file is there is a parameter.
- Screen.Reader.Press: every picture encodes; a picture that fails while it is drawn, and the caches of encoded pictures, are not modelled. In `build_model` a failed full picture is not remembered as failed, so a later frame may still try its slices; this is part of what is excluded.
- Screen.Reader.Resize: columns, rows and pixels are unbounded numbers, where the source has 16 and 32 bits; the product of width and height is taken to fit.
- The reader's terminal handling: querying the cell size, raw mode, the view left on exit, truncation of alt texts, the frame dump.
- Link.Send: cancelling a receive halfway is not modelled; a payload of 2^32 bytes and more would wrap in the length field (`Link.BigEndianReadBack`) and is not sent by any caller.
- Stats.Store.RecordBatch: SQLite is three tables with transactions that roll back; the visitor hash is injective per target; an address is given in canonical form or not at all.
- ContentModel.ArticleReadBack: the two passes over a path's segments are one equivalent predicate; backslashes and dots are excluded by the segment characters.
- OutputCommit.Site.Commit: which of the old outputs have gone when their removal is cut short; a fault in the middle of one system call, beyond a temporary file with any content; a file that happens to have the temporary file's name before the build.
- OutputCommit.Site.Build: changes of the tree by others between builds; a file put at a path of the manifest counts as the builder's. Staging, the rendered articles and the page contents are inputs.
- FreeBSD jails, resource limits, forks and terminals, TLS, SSH, HTTP routing, configuration and the frontend.
- Quotas per address and the session client's buffering: simple counters that would add only easy members.
