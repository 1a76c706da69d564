# Rellm: verified models of nine small protocols and algorithms

This project models nine self-contained pieces of the Rellm server and its tooling in Dafny and proves what they
are for. Each piece is a group of modules of its own:

| piece | modules | main results |
|---|---|---|
| HLS segmenting lock | `SegmentingLock`, `SegmentingInvariant`, `SegmentingPromises`, `SegmentingOutcomes`, `SegmentingEntries`, `SegmentingRuns` | over every interleaving of any number of requests: one `ffmpeg` pass at a time for each rendition, exact reference counts, a visible directory is complete unless an eviction has begun on it, `Ok` only after publication, and exactly which actions of a request make it fail; and exactly which entries of the map of locks are left behind |
| e-mail printer and its repair | `Text`, `EmailMessage`, `Segments`, `EmailRepair` | printed messages read back; the repair inverts the known corruption if and only if three conditions hold |
| collapse of duplicate synced events | `EventTables`, `EventCollapse`, `EventOutcome`, `EventGroups`, `EventDates`, `EventObstacles`, `EventSequence`, `EventRuns`, `EventLaws`, `FixDuplicateEvents` | what a committed collapse of a group, and a whole run of the tool, do to every row of eight tables: which occasions are merged into which, what follows them and what is lost, and what `media_merged` and `occasions_deleted` count; and exactly which groups are collapsed, wherever the order of loading does not matter |
| public ids | `Base58`, `ProtoId` | base58 is a bijection including leading zeros; exactly which ids survive the round trip, in both build modes |
| rename script | `Rename`, `RenamedTexts` | nine guarded passes are one tokenising pass if and only if the text is safe; rewriting is idempotent on all texts; the case of every name is kept |
| market join | `Market`, `MarketAnswers` | the batched join is the row-by-row join, and with the purchases that the server makes it always answers like single requests; what every answer holds, and that its payments minus refunds balance |
| heading tree | `HeadingTree` | the monotone stack finds every heading's parent and the tree reads in document order |
| preview cache | `LinkPreviewCache` | a bounded cache that answers like an unbounded one since its last clearing |
| configuration row, messaging groups | `ServerConfiguration`, `MessagingGroups` | versions and an in-place counter share a row without losing either; one group for each set of participants |

Code that changes state step by step is modelled by methods, loops and classes with fields, proved against
functions and predicates on values; the laws are lemmas about those. The lock protocol is a transition system whose
steps are the source's atomic actions. Database tables are values held in a field of a connection; one SQL statement
is one all-or-nothing change of them. `Wrappers` has the types for missing values and failures that all of them share.

## Where the code does not do what its comments say

* `rename_jonline_to_rellm.py`: two domains exactly a guard's name apart, such as
  `Jonline.ioRELLM_RENAME_GUARD_UPPERJonline.io`, come out wrong: the closing NUL of the first guard and the opening
  NUL of the second make a third (`Rename.RewriteBreaksText`). `Rename.RewriteIsRenamedIff` says exactly which texts
  are affected. Idempotence holds all the same, on every text.
* `fix_duplicate_synced_events.rs`: the branch that drops colliding rows, "rather than failing the whole collapse", does
  fail it (lines 311-334). In Postgres the failed `UPDATE` has aborted the enclosing transaction, so the
  `DELETE` after it fails as well and the whole group is rolled back (`backend/src/models/message_models.rs:120-125`
  describes the same behaviour of the same driver). The model's connection has a constant that says whether errors
  abort; the results are stated for both. Where they do, a group commits only if no two of its events share a
  group, a user or a destination, and no two of its occasions for one anchor a destination (the latter unless
  the keeper has some anchor twice); two events of one UID cross-posted to the same group are an example
  (`FixDuplicateEvents.CollapseSharedGroup`). Sync-out records stop a collapse too, abort or not: one of the post of an
  occasion that has to be merged, or one of an occasion without an anchor. Where no event has two occasions with one
  anchor, or the duplicates' occasions have no sync-out records, nothing else makes a sound connection fail
  (`FixDuplicateEvents.CollapseGroup`). Another constant says whether statements may also fail for
  reasons of their own.
* `fix_duplicate_synced_events.rs`: not everything that hangs on a duplicate is reassigned to the keeper. The RSVPs of
  an occasion without a recurrence anchor are deleted with their event (`EventOutcome.RsvpsKept` says that exactly these
  are lost). An occasion is merged if the keeper, or a duplicate collapsed before, had one with its anchor
  (`EventDates.SurvivesIff`); its cross-posts are then lost (`EventDates.CrossPostKeptIff`) and replies to it lose their
  parent (`EventDates.ReplyKeptIff`), since only RSVPs and sync-out records of occasions are moved (lines 170-181).
  `FixDuplicateEvents.CollapseSharedDate` has tables in which all three happen.
* `repair_email_messages.rs`: segments free of CRLFCRLF do not determine the cut; it is unique exactly when the data
  has no CRLFCRLFCRLF (`Segments.OnlyOneCutIff`). The repair is a no-op on a correct message only for messages of at
  most one header (`EmailRepair.RepairKeepsCorrectMessageIff`).
* `id_marshaling.rs`: the range of ids that survive depends on the build, since a release build wraps around where a
  debug build panics (`ProtoId.RoundTripsIff`).
* `media_hls.rs`: the map of locks need not empty, since two overlapping releases can both see a count of three
  (`SegmentingRuns.MapNeedNotEmpty`); it does if no two releases overlap. An eviction empties another version's directory
  file by file, not under that rendition's lock and ignoring errors (lines 212-224). So a request can be served a
  directory that is losing its segments (`SegmentingRuns.HalfEvictedIsServed`), and an eviction that stops behind the
  playlist leaves files that make every later `rename` for the rendition fail (`SegmentingRuns.HalfEvictedBlocks`) until
  another eviction comes by (`SegmentingPromises.BlockedUntilEvicted`). The evicted versions are all others, not only
  earlier ones.

## Model

| member | source | states |
|---|---|---|
| SegmentingInvariant.RunInv | backend/src/web/media_hls.rs:139-224 | the inductive invariant (exact counts, the map hands out the lock every unreleased handle has, one owner per lock, directories complete unless an eviction has begun on them) holds in every state of every run |
| SegmentingInvariant.InvKept | backend/src/web/media_hls.rs:139-224 | each single action of any request keeps that invariant, the removal of a single file by an eviction included |
| SegmentingPromises.MutualExclusion | backend/src/web/media_hls.rs:167-175 | two requests inside the critical section for the same path are the same request |
| SegmentingPromises.CountIsExact | backend/src/web/media_hls.rs:145-165 | a lock's count is the number of requests with a handle, released but not yet dropped ones included, plus one if the map refers to it |
| SegmentingInvariant.SmallCountMeansAlone | backend/src/web/media_hls.rs:156-163 | a count of at most 2 seen by an unreleased request is equivalent to no other request having a handle on its lock |
| SegmentingInvariant.TwoHoldersKeep | backend/src/web/media_hls.rs:160-165 | a release while another handle exists changes neither the map nor any count |
| SegmentingPromises.NewcomersJoin | backend/src/web/media_hls.rs:145-150 | a newcomer gets the very lock that any unreleased request for its path has: no waiter is orphaned |
| SegmentingPromises.ReleaseForgetsIff | backend/src/web/media_hls.rs:160-165 | after a release the map has no entry for the path exactly if no other request had a handle on that lock |
| SegmentingPromises.OnlyReleaseForgets | backend/src/web/media_hls.rs:160-165 | no other action removes an entry, and a release only its own path's |
| SegmentingPromises.NeverHalfMade | backend/src/web/media_hls.rs:186-224 | a visible directory has its playlist and all its segments, unless an eviction has begun on it since it was renamed into place |
| SegmentingPromises.PublishedOncePerEviction | backend/src/web/media_hls.rs:188-224 | renames into place equal begun evictions plus one if the directory is there untouched: leaving eviction aside, at most one rename |
| SegmentingPromises.RenameSucceedsIff | backend/src/web/media_hls.rs:188-192 | no other request's directory is ever in the way of the rename: it publishes a complete directory exactly unless an eviction has left files without a playlist |
| SegmentingPromises.ServedAfterPublished | backend/src/web/media_hls.rs:141-143 | a request that returned `Ok` did so after its directory was published, which is still there and complete if no eviction has begun on it |
| SegmentingPromises.BlockedUntilEvicted | backend/src/web/media_hls.rs:188-224 | files left without a playlist stay, and no request for the rendition is served any more, until an eviction comes by again |
| SegmentingPromises.NobodyIsStuck | backend/src/web/media_hls.rs:139-208 | every unfinished request can act, or waits for one that can |
| SegmentingOutcomes.FailedIff | backend/src/web/media_hls.rs:167-208 | over every run, a request has failed exactly if one of its own actions was a failure: its probe or download, its `ffmpeg`, or its rename where an eviction has left segments without their playlist |
| SegmentingOutcomes.SucceededIff | backend/src/web/media_hls.rs:139-208 | and succeeded exactly if it found the playlist, before the lock or with it, or renamed its directory into place |
| SegmentingOutcomes.AnswerIff | backend/src/web/media_hls.rs:139-208 | so the answer of a finished request is `Ok` or an error by exactly one of these |
| SegmentingOutcomes.ReadyMeansServed | backend/src/web/media_hls.rs:167-178 | a request that waited for the lock is answered `Ok` whenever it finishes, if the playlist is there until its re-check: one pass serves all who waited; likewise for the check before the lock |
| SegmentingOutcomes.OnePass | backend/src/web/media_hls.rs:139-224 | where all requests are for one rendition, it is published at most once, and its directory is there and complete exactly from then on |
| SegmentingOutcomes.VisibleIff | backend/src/web/media_hls.rs:186-224 | a rendition has a directory exactly from a rename that nothing was in the way of until an eviction removes it |
| SegmentingOutcomes.BackOnlyByPublishing | backend/src/web/media_hls.rs:188-224 | a playlist or a full set of segments that an eviction has taken is back only after another publication |
| SegmentingOutcomes.NotWholeBefore | backend/src/web/media_hls.rs:178-192 | while its `ffmpeg` runs a request's temporary directory lacks segments, playlist or not |
| SegmentingOutcomes.PlaylistBeforeSegments | backend/src/web/media_hls.rs:178-192 | an unfinished pass may have written the playlist already |
| SegmentingOutcomes.TemporaryIff | backend/src/web/media_hls.rs:178-192 | a temporary directory is there exactly from its request's first write until it is renamed or removed |
| SegmentingOutcomes.TempsAreRemoved | backend/src/web/media_hls.rs:178-192 | it outlives its request's pass only if that failed and removing it failed too |
| SegmentingEntries.NoOverlapNothingLeft | backend/src/web/media_hls.rs:160-165 | in runs where no two releases of one lock overlap, every entry of the map is some request's |
| SegmentingEntries.NoOverlapMapEmpties | backend/src/web/media_hls.rs:160-165 | in such runs the map is empty once all requests have finished |
| SegmentingEntries.OverlapLeavesEntry | backend/src/web/media_hls.rs:160-165 | if the last two requests for a path both test before either drops, the entry stays behind with no handle left |
| SegmentingEntries.EntryIff | backend/src/web/media_hls.rs:145-165 | in every state of every run the map has an entry for a path exactly if the last release for it found another handle on the lock, or a clone came after it |
| SegmentingEntries.LeftBehindIff | backend/src/web/media_hls.rs:160-165 | once all requests have finished, exactly if the last release found another handle |
| SegmentingRuns.MapNeedNotEmpty | backend/src/web/media_hls.rs:160-165 | a complete run from a fresh process that ends with all requests finished and an entry left |
| SegmentingRuns.HalfEvictedIsServed | backend/src/web/media_hls.rs:139-143 | a run in which a request is answered `Ok` with a directory that has lost segments to an eviction |
| SegmentingRuns.HalfEvictedBlocks | backend/src/web/media_hls.rs:186-224 | a run in which a request fails because an eviction has left files in the way of its rename |
| EmailMessage.SanitizedIsOneLine | backend/src/web/email.rs:364-375 | a sanitized value has no CR or LF and no outer whitespace |
| EmailMessage.SanitizeOneLine | backend/src/web/email.rs:364-375 | a value without CR and LF passes through but for its outer whitespace |
| EmailMessage.SanitizeConcat | backend/src/web/email.rs:364-375 | text before a CR or LF and text behind it come out in that order with one space between them, or the one that is not blank by itself; with the row above this determines the function |
| EmailMessage.FoldedValue | backend/src/bin/repair_email_messages.rs:328 | `from foo`, CRLF, tab, `by bar` comes out as `from foo by bar` |
| EmailMessage.TrimIsMiddle | backend/src/web/email.rs:364-375 | trimming takes whitespace off both ends, and nothing else, and leaves none there |
| EmailMessage.WhitespaceIs | backend/src/web/email.rs:371 | whitespace is exactly Unicode's White_Space, written out |
| EmailMessage.SanitizeIdempotent | backend/src/web/email.rs:364-375 | sanitizing twice is sanitizing once |
| EmailMessage.SanitizeAfterBreak | backend/src/web/email.rs:364-375 | text behind a terminator leaves the value unchanged exactly if it is blank |
| EmailMessage.BuildRawMessage | backend/src/web/email.rs:351-362 | the appending loop yields the specified text: a sanitized line per header, an empty line, the contents |
| EmailMessage.PrintedMessageReadsBack | backend/src/web/email.rs:345-362 | reading a printed message up to its first empty line gives the same names, the sanitized values and the contents unchanged |
| EmailMessage.FirstEmptyLine | backend/src/web/email.rs:345-362 | the first CRLFCRLF of a printed message is the header/body boundary |
| Segments.SplitOnDoubleCrlf | backend/src/bin/repair_email_messages.rs:202-218 | the index loop computes the leftmost cut at CRLFCRLF |
| Segments.SplitIsLeftmost | backend/src/bin/repair_email_messages.rs:202-218 | the segments join to the input, and no separator occurs earlier than where it was cut |
| Segments.LeftmostIsSplit | backend/src/bin/repair_email_messages.rs:202-218 | there is no other such cut |
| Segments.CleanIff | backend/src/bin/repair_email_messages.rs:202-218 | the separator behind a segment is the first one exactly if the segment has none and does not end in CRLF |
| Segments.SplitConcat | backend/src/bin/repair_email_messages.rs:202-218 | splitting distributes over a separator exactly if the last segment before it does not end in CRLF |
| Segments.OnlyOneCutIff | backend/src/bin/repair_email_messages.rs:202-218 | the cut into separator-free segments is unique exactly if CRLFCRLFCRLF does not occur |
| EmailRepair.RepairRawMessage | backend/src/bin/repair_email_messages.rs:220-276 | the buffer-filling procedure computes the specified repair for every input |
| EmailRepair.RecoveredIff | backend/src/bin/repair_email_messages.rs:247-296 | reassembling a corrupted message's segments gives the original exactly under the three conditions |
| EmailRepair.RepairUndoesCorruptionIff | backend/src/bin/repair_email_messages.rs:191-296 | for headers whose names are made of `!` to `~` without the colon, repairing the corrupted message gives `build_raw_message`'s output exactly if there is no header, or no value contains CRLFCRLF or ends in CRLF and the body does not start with CRLF |
| EmailRepair.LooksLikeHeaderLineIff | backend/src/bin/repair_email_messages.rs:176-183 | a segment passes for a header exactly if it starts with one or more such characters and a colon |
| EmailRepair.ResanitizedIs | backend/src/bin/repair_email_messages.rs:185-200 | of a segment what is behind its first colon and space is sanitized, and all of it where there is none |
| EmailRepair.OneHeaderRepaired | backend/src/bin/repair_email_messages.rs:220-276 | a corrupted message of one header, character by character, and what it is repaired to |
| EmailRepair.UncleanHeaderDiffers | backend/src/bin/repair_email_messages.rs:191-276 | a value that contains CRLFCRLF or ends in CRLF makes the result differ, whatever follows |
| EmailRepair.CorruptionSwallowsHeadersIff | backend/src/bin/repair_email_messages.rs:279-296 | the first empty line of a corrupted message is the one behind its first header, folded or not, exactly if that value has no CRLFCRLF and does not end in CRLF: all other headers are part of the body |
| EmailRepair.CorruptionReadsAsFirst | backend/src/bin/repair_email_messages.rs:279-296 | a corrupted message whose first value is one line reads as that header only |
| EmailRepair.RepairKeepsCorrectMessageIff | backend/src/bin/repair_email_messages.rs:247-276 | the repair is a no-op on a correct message exactly for no header, or one header and a body without a loose CRLF whose first paragraph does not look like a header |
| EmailRepair.BodyOfSplit | backend/src/bin/repair_email_messages.rs:247-276 | the body rejoined from the segments, in terms of the text behind the headers |
| EventTables.MoveLinksUniqueIff | backend/src/bin/fix_duplicate_synced_events.rs:310-334 | moving a post's rows keeps (other half, post) unique exactly if no row of the target has the same other half |
| EventTables.DeleteKeepsIntegrity | backend/src/bin/fix_duplicate_synced_events.rs:336-374 | a deletion that the restricting tables allow, with its cascades, keeps every foreign key and unique index |
| EventTables.Merged | backend/src/bin/fix_duplicate_synced_events.rs:356-363 | merged media start with the keeper's list, have the union's elements, and each added id is new and added once |
| EventTables.MergedInOrder | backend/src/bin/fix_duplicate_synced_events.rs:356-363 | additions keep the order of the list they come from |
| EventTables.MergedAll | backend/src/bin/fix_duplicate_synced_events.rs:356-363 | the same over any sequence of duplicates |
| EventTables.NewMedia | backend/src/bin/fix_duplicate_synced_events.rs:356-369 | the number of additions over any sequence of duplicates is the number of ids in the union that the keeper lacked |
| EventCollapse.RecombinedRows | backend/src/bin/fix_duplicate_synced_events.rs:310-334 | afterwards no row of the relation is on the duplicate, other rows are untouched, moved rows keep their other half and are the keeper's, and without a collision none is lost |
| EventCollapse.RecombinedUnique | backend/src/bin/fix_duplicate_synced_events.rs:310-334 | moved or dropped, (other half, post) stays unique |
| EventCollapse.Adopt | backend/src/bin/fix_duplicate_synced_events.rs:184-201 | adopting an occasion keeps the loop's invariant: every RSVP, row, date and list of media so far, `keeper_by_anchor`, and that a handled occasion is left only where the keeper had none for its anchor, one for each anchor |
| EventCollapse.Merge | backend/src/bin/fix_duplicate_synced_events.rs:169-183 | so does merging an occasion into the keeper's for the same anchor, if its deletion is allowed; the lists of media grow by as many places, and the occasions gone by as many, as are counted |
| EventCollapse.MergeShape | backend/src/bin/fix_duplicate_synced_events.rs:213-246 | what merging an occasion comes to, table by table; it goes through only if the post has no sync-out record of its own |
| EventOutcome.FinishShape | backend/src/bin/fix_duplicate_synced_events.rs:253-309 | what merging the event's own post comes to, table by table; it goes through only if no sync-out record is on an occasion that goes with it |
| EventOutcome.CollapsedOne | backend/src/bin/fix_duplicate_synced_events.rs:139-209 | with every anchored occasion handled, the last step leads to the stated outcome: an occasion is gone if the keeper had one for its anchor, of the others one is left for each anchor, no medium has come to an occasion but from duplicates' occasions for its anchor, and every RSVP, composite row, reply and list of media is as `EventOutcome.Outcome` says |
| EventGroups.Compose | backend/src/bin/fix_duplicate_synced_events.rs:80-113 | the outcomes of collapses in a row, within a group and across groups, add up to one outcome, merged occasions and their media included |
| EventGroups.ComposeFirst | backend/src/bin/fix_duplicate_synced_events.rs:93-99 | of the occasions that all events of a group have for one anchor, the first event's is left, over any collapses in a row |
| EventGroups.AddedAddsUp | backend/src/bin/fix_duplicate_synced_events.rs:350-369 | and so do the places added to lists of media, since what a later collapse deletes had got nothing |
| EventGroups.MergedAddUp | backend/src/bin/fix_duplicate_synced_events.rs:169-183 | and the numbers of occasions merged away |
| EventDates.OwnDatesOnly | backend/src/bin/fix_duplicate_synced_events.rs:148-156 | where the keeper had occasions for an anchor, exactly those are what it has for it afterwards |
| EventDates.OneDateLeft | backend/src/bin/fix_duplicate_synced_events.rs:184-201 | where it had none and a duplicate had one, it has exactly one afterwards |
| EventDates.StaysDistinct | backend/src/bin/fix_duplicate_synced_events.rs:139-209 | an event with at most one occasion for each anchor still has, whatever its duplicates brought |
| EventDates.DateMedia | backend/src/bin/fix_duplicate_synced_events.rs:336-374 | the only date of the keeper's for an anchor has exactly the media it had and those of all duplicates' occasions for that anchor |
| EventDates.SurvivesIff | backend/src/bin/fix_duplicate_synced_events.rs:164-203 | a duplicate's occasion is gone if the keeper or an earlier duplicate had one for its anchor; otherwise its event keeps exactly one for it, itself if it is the only one |
| EventDates.CrossPostKeptIff | backend/src/bin/fix_duplicate_synced_events.rs:336-374 | a cross-post of a duplicate's occasion, the only one of its event for its anchor, survives exactly if no event before it had one for the anchor |
| EventDates.ReplyKeptIff | backend/src/bin/fix_duplicate_synced_events.rs:336-374 | a reply to the post of such an occasion keeps its parent exactly then, and has none otherwise |
| EventObstacles.OtherCollisions | backend/src/bin/fix_duplicate_synced_events.rs:264-306 | looking after one relation neither makes nor removes a collision in another |
| EventObstacles.MergeIsSmooth | backend/src/bin/fix_duplicate_synced_events.rs:169-183 | if nothing of the keeper's is in the way of the duplicate (`Compatible`: no sync-out record of the post of an occasion to be merged and, where errors abort, no destination shared by two occasions of one anchor) and no anchor is twice in one event, or there are no sync-out records, no merging of an occasion is ever stopped |
| EventObstacles.FinishGoesThrough | backend/src/bin/fix_duplicate_synced_events.rs:205-206 | nor is the deletion of the event's post, if no sync-out record is on an occasion without an anchor |
| EventObstacles.StaysClashFree | backend/src/bin/fix_duplicate_synced_events.rs:253-309 | no statement of the last step meets a collision if the two events shared no group, user or destination to begin with |
| EventObstacles.SyncFreeGroup | backend/src/bin/fix_duplicate_synced_events.rs:139-209 | without sync-out records on the duplicates' occasions nothing but a clash of two events is in the way |
| EventObstacles.CommitMeansClashFree | backend/src/bin/fix_duplicate_synced_events.rs:253-334 | where nothing was lost, no two events of the group had a group, user or destination in common |
| EventObstacles.CommitMeansUnrestricted | backend/src/bin/fix_duplicate_synced_events.rs:139-209 | where a group was collapsed, no sync-out record was on an occasion without an anchor of a duplicate |
| EventObstacles.CommitMeansNoSharedDate | backend/src/bin/fix_duplicate_synced_events.rs:213-246 | where nothing was lost, and the keeper's anchors were distinct, no two occasions for one anchor had a destination in common |
| EventObstacles.CommitMeansCompatibleGroup | backend/src/bin/fix_duplicate_synced_events.rs:93-99 | a group that was collapsed had nothing in the way of any duplicate, of the keeper's or of an earlier duplicate's, whether errors abort or not |
| EventSequence.NextSmooth | backend/src/bin/fix_duplicate_synced_events.rs:93-99 | collapsing the first duplicates of a group puts nothing in the way of the next |
| EventSequence.OutsideView | backend/src/bin/fix_duplicate_synced_events.rs:80-113 | an event outside the collapsed groups has the same dates afterwards, and the same rows on its post and on theirs |
| EventSequence.CompatibleSeen | backend/src/bin/fix_duplicate_synced_events.rs:80-113 | what is in the way of one event with respect to another depends on nothing else |
| EventRuns.DuplicatesHaveElders | backend/src/bin/fix_duplicate_synced_events.rs:84-85 | the events to delete are exactly those with an older one of the same UID |
| EventRuns.ToOldestNext | backend/src/bin/fix_duplicate_synced_events.rs:80-113 | collapsing one more group, again every event with an elder of a collapsed UID has gone to the oldest of its UID, and no other |
| EventRuns.ComposeOldest | backend/src/bin/fix_duplicate_synced_events.rs:80-113 | over any groups collapsed in a row, of a group's occasions for one anchor the oldest event's is left |
| EventRuns.OldestIsFirst | backend/src/bin/fix_duplicate_synced_events.rs:80-113 | so what `EventDates` says of the order in which events are collapsed holds over a whole run of the order by age |
| EventRuns.ObstaclesStay | backend/src/bin/fix_duplicate_synced_events.rs:80-113 | collapsing one UID's group puts nothing in another's way and takes nothing out of it |
| FixDuplicateEvents.ReassignOrDropComposite | backend/src/bin/fix_duplicate_synced_events.rs:310-334 | on success the relation is recombined and the rows reassigned plus the rows dropped are the duplicate's rows; on an aborting connection success means there was no collision and nothing is ever counted as dropped; short of other faults it succeeds exactly otherwise |
| FixDuplicateEvents.ReassignOccasionRelations | backend/src/bin/fix_duplicate_synced_events.rs:211-246 | on success RSVPs and sync-out rows of the occasion have moved; short of faults it succeeds exactly unless a collision aborts it |
| FixDuplicateEvents.ReassignPostRelations | backend/src/bin/fix_duplicate_synced_events.rs:248-309 | on success replies, cross-posts and sync-out rows of the post have moved; short of faults it succeeds exactly unless a collision aborts it |
| FixDuplicateEvents.MergeMedia | backend/src/bin/fix_duplicate_synced_events.rs:356-363 | the loop computes the merged list and counts exactly the additions |
| FixDuplicateEvents.MergeAndDeletePost | backend/src/bin/fix_duplicate_synced_events.rs:336-374 | on success the media are merged, the post is gone with its cascades, and `media_merged` grew by the additions; short of faults it succeeds exactly if no sync-out record restricts the deletion |
| FixDuplicateEvents.IndexByAnchor | backend/src/bin/fix_duplicate_synced_events.rs:148-156 | `keeper_by_anchor` maps exactly the keeper's anchors, each to a live keeper occasion with that anchor |
| FixDuplicateEvents.CollapseOccasion | backend/src/bin/fix_duplicate_synced_events.rs:168-202 | one round of the loop keeps its invariant with one more occasion handled: the occasion is merged away exactly if its anchor is in `keeper_by_anchor`; `media_merged` and `occasions_deleted` grow by what the lists of media grow by and the occasions gone |
| FixDuplicateEvents.CollapseDuplicateEvent | backend/src/bin/fix_duplicate_synced_events.rs:139-209 | on success every table is as `EventOutcome.Collapsed` says, `media_merged` has grown by the places added to the lists of media and `occasions_deleted` by the occasions merged away; on an aborting connection only if the two events do not clash; and where no anchor is twice in one event, or there are no sync-out records, a sound connection succeeds exactly if nothing is in the way (`CompatibleGroup`) |
| FixDuplicateEvents.CollapseGroup | backend/src/bin/fix_duplicate_synced_events.rs:93-99 | a group is collapsed as a whole or leaves the tables as they were; when collapsed, which occasions are merged, every row, every list of media, `media_merged` and `occasions_deleted` are as stated, no sync-out record was on what had to go, and where errors abort no two of its events shared a group, user or destination; where no anchor is twice in one event, or there are no sync-out records, a sound connection collapses it exactly if nothing was in the way (`CompatibleGroup`) |
| FixDuplicateEvents.CollapseSharedGroup | backend/src/bin/fix_duplicate_synced_events.rs:310-334 | two events of one UID cross-posted to the same group: sure to be rolled back where errors abort, sure to be collapsed where they do not |
| FixDuplicateEvents.CollapseSharedDate | backend/src/bin/fix_duplicate_synced_events.rs:164-206 | two events with an occasion each for one anchor: on any sound connection the second's is merged away, its RSVP moves, its cross-post is lost and the reply to it loses its parent; the RSVP of an occasion without an anchor is lost |
| FixDuplicateEvents.LoadGroups | backend/src/bin/fix_duplicate_synced_events.rs:61-76 | synced events grouped by UID, each with exactly its events |
| FixDuplicateEvents.SortByAge | backend/src/bin/fix_duplicate_synced_events.rs:84-85 | the group in order of creation and id, so that the first is the oldest |
| EventLaws.RunKeepsEarliest | backend/src/bin/fix_duplicate_synced_events.rs:46-113 | in terms of the events as stored: gone after a run are exactly the synced events of collapsed UIDs that had a twin created earlier, or at the same time with a smaller id, each to the earliest of its UID; a UID is the one under the old key where there is one, and is under the new key afterwards |
| FixDuplicateEvents.RepairGroup | backend/src/bin/fix_duplicate_synced_events.rs:80-113 | one UID of the run: collapsed or untouched, exactly as what is in its way has it (`EventRuns.Judged`), and `events_deleted`, `groups_collapsed`, `media_merged` and `occasions_deleted` count what was done |
| FixDuplicateEvents.RepairAll | backend/src/bin/fix_duplicate_synced_events.rs:46-113 | after the run the events with an elder of a collapsed UID are gone, each to the oldest of its UID, and no others; of a group's occasions for one anchor the oldest event's is left; every RSVP, occasion, cross-post, sync-out record, reply and list of media is as `EventOutcome.Outcome` says for that; all keys and references are whole; `events_deleted`, `groups_collapsed` and, if every group was collapsed, `media_merged` and `occasions_deleted` are the numbers of events gone, groups collapsed, places added and occasions merged away; a UID is collapsed only if nothing was in its way in the original tables and, on a sound connection and where no anchor is twice in one event or there are no sync-out records, exactly then |
| Base58.ValueOfDigits | backend/src/marshaling/id_marshaling.rs:10-28 | digits of a number, in any base, have that value |
| Base58.DigitsOfValue | backend/src/marshaling/id_marshaling.rs:10-28 | digits without a leading zero are those of their value |
| Base58.RebaseRoundTrip | backend/src/marshaling/id_marshaling.rs:10-28 | changing the base and back, leading zeros kept apart, is the identity |
| Base58.DecodeOfEncode | backend/src/marshaling/id_marshaling.rs:45-49 | base58 decodes what it encoded, for every byte sequence with any number of leading zero bytes |
| Base58.EncodeOfDecode | backend/src/marshaling/id_marshaling.rs:45-49 | and encodes what it decoded |
| Base58.AlphabetIs | backend/src/marshaling/id_marshaling.rs:10-28 | digit by digit the characters are those of the Bitcoin alphabet, written out |
| Base58.EncodeIs | backend/src/marshaling/id_marshaling.rs:10-28 | the string spells, in that alphabet and most significant digit first, the number that the bytes make, behind one `1` for each leading zero byte |
| ProtoId.ProtoIdBytes | backend/src/marshaling/id_marshaling.rs:10-28 | the string of an id decodes to bytes that make the id plus 7, least significant first: eight, modulo 2^64, where that is above i32::MAX and fits in an i64, and four, modulo 2^32, otherwise |
| ProtoId.FirstId | backend/src/marshaling/id_marshaling.rs:14 | id 1 is shown as `CruFm` |
| ProtoId.ShowingPanicsIff | backend/src/marshaling/id_marshaling.rs:10-28 | exactly which ids a checked build panics on |
| ProtoId.RefusedIff | backend/src/marshaling/id_marshaling.rs:45-64 | which strings are refused, and with which error: a character outside the alphabet, a length other than four and eight bytes, or a stored zero |
| ProtoId.RoundTripsIff | backend/src/marshaling/id_marshaling.rs:10-64 | for every i64: encoding and decoding give it back exactly if it is at least i32::MIN (i32::MIN - 7 where overflow wraps), at most i64::MAX - 7, and not -7 |
| ProtoId.ProtoIdsAreDistinct | backend/src/marshaling/id_marshaling.rs:18-28 | ids that survive have different strings, across the 4- and 8-byte forms |
| ProtoId.CanonicalIff | backend/src/marshaling/id_marshaling.rs:45-64 | in either build, a decodable string is the one its id is shown as, exactly unless it spells in eight bytes what fits in four, or a checked build panics on showing it |
| ProtoId.FourBytesCanonicalIff | backend/src/marshaling/id_marshaling.rs:45-64 | four-byte strings always are where overflow wraps, and exactly from i32::MIN + 7 on where it panics |
| ProtoId.EightBytesCanonicalIff | backend/src/marshaling/id_marshaling.rs:45-64 | eight-byte strings are exactly if the stored number exceeds i32::MAX, in either build; decoding one panics only in a checked build, below i64::MIN + 7 |
| Rename.Rewrite | deploys/one_off_scripts/rename_jonline_to_rellm.py:25-32 | the three loops are the nine passes in order |
| Rename.TokensRender | deploys/one_off_scripts/rename_jonline_to_rellm.py:12-22 | reading a text left to right, domains before names before characters, loses nothing and misses no name |
| Rename.RenamePass | deploys/one_off_scripts/rename_jonline_to_rellm.py:26-29 | each guarding or renaming pass changes exactly the tokens it is for |
| Rename.ContinuesIff | deploys/one_off_scripts/rename_jonline_to_rellm.py:30-31 | the text behind a guard continues a false one exactly if its tokens clash |
| Rename.RestoringExact | deploys/one_off_scripts/rename_jonline_to_rellm.py:30-31 | without a clash a restoring pass restores exactly its own guards |
| Rename.RestoringBreaks | deploys/one_off_scripts/rename_jonline_to_rellm.py:30-31 | with one it leaves an unpaired NUL before a restored domain |
| Rename.RewriteIsRenamedIff | deploys/one_off_scripts/rename_jonline_to_rellm.py:25-32 | for every NUL-free text the nine passes equal the one left-to-right pass exactly if no two domains are a rewritten guard name apart, of a casing before the first's and not after the second's |
| Rename.RewriteIdempotent | deploys/one_off_scripts/rename_jonline_to_rellm.py:25-32 | rewriting twice is rewriting once, for every text, NULs or not |
| Rename.RewriteBreaksText | deploys/one_off_scripts/rename_jonline_to_rellm.py:25-32 | texts of two domains and a guard name, with nothing to rename, that the script nevertheless changes, for each clashing choice of casings |
| RenamedTexts.NamesKeepCase | deploys/one_off_scripts/rename_jonline_to_rellm.py:13-23 | lowered, every old name is `jonline`, every new one `rellm` and every domain `jonline.io`; old and new have upper case at the same places: all, the first or none |
| RenamedTexts.NamesAreReplaced | deploys/one_off_scripts/rename_jonline_to_rellm.py:13-17 | in the intended result `JONLINE`, `Jonline` and `jonline` become `RELLM`, `Rellm` and `rellm` where no domain suffix follows |
| RenamedTexts.DomainsAreKept | deploys/one_off_scripts/rename_jonline_to_rellm.py:19-23 | `JONLINE.IO`, `Jonline.io` and `jonline.io` stay |
| RenamedTexts.OthersAreKept | deploys/one_off_scripts/rename_jonline_to_rellm.py:25-32 | and so does every other character; the three rows determine the result |
| RenamedTexts.RewriteIsRenamed | deploys/one_off_scripts/rename_jonline_to_rellm.py:25-32 | the script does exactly that on every text without NULs in which `_RENAME_GUARD_` does not occur |
| RenamedTexts.CaseIsKept | deploys/one_off_scripts/rename_jonline_to_rellm.py:25-32 | the script's nine passes on the six words it is about |
| RenamedTexts.UnrelatedTextStays | deploys/one_off_scripts/rename_jonline_to_rellm.py:25-32 | a text with none of the three names, and no NUL, is left alone |
| RenamedTexts.GuardsBecomeDomains | deploys/one_off_scripts/rename_jonline_to_rellm.py:30-31 | a guard that is in the text already comes out as its domain |
| RenamedTexts.ScriptBreaks | deploys/one_off_scripts/rename_jonline_to_rellm.py:25-32 | `Jonline.ioRELLM_RENAME_GUARD_UPPERJonline.io` is changed |
| Market.PaymentsMinusRefunds | backend/src/marshaling/market_marshaling.rs:77-98 | every row becomes a payment or a refund, and in each currency payments minus refunds are the sum of the signed amounts, for all i32 |
| Market.GroupPayments | backend/src/marshaling/market_marshaling.rs:236-243 | the grouping loop gives each purchase its own payment rows in load order |
| Market.GroupPurchases | backend/src/marshaling/market_marshaling.rs:250-271 | the draining loop gives each subscription its own purchases in load order, those with a loaded product and buyer, each with exactly its payments |
| Market.Assemble | backend/src/marshaling/market_marshaling.rs:273-295 | subscriptions in input order, each with its history |
| Market.BuildSubscriptions | backend/src/marshaling/market_marshaling.rs:214-296 | with unique ids the batched loads and maps answer as the row-by-row join over the tables, including every failing query; a failing authors query is answered with nothing |
| MarketAnswers.AnswerListed | backend/src/marshaling/market_marshaling.rs:214-296 | the answer, row by row of the tables: the subscriptions whose product and buyer are there, in order, under their buyers; each with the purchases billed to it, in order, with their own products and buyers; each of these with, as payments, exactly its rows of amount 0 or more and, as refunds, exactly the others, in load order, amount, currency modulo 2^32 and time each |
| MarketAnswers.AnswerBalances | backend/src/marshaling/market_marshaling.rs:77-112 | for every purchase answered and every currency, the payments shown less the refunds shown are what the table's rows for that purchase come to |
| MarketAnswers.AnswerFailsIff | backend/src/marshaling/market_marshaling.rs:229-236 | exactly which failing queries make it fail, and with which message |
| MarketAnswers.OnePaymentShown | backend/src/marshaling/market_marshaling.rs:77-98 | one row of 500 is one payment of 500 and no refund |
| Market.KeepLoaded | backend/src/models/market_models.rs:392-440 | narrowing a batched load to one key gives what a query for that key would |
| Market.BatchIsPerRowIff | backend/src/marshaling/market_marshaling.rs:220-232 | a batch answers like one request for each subscription exactly if no shown subscription is visibly billed for a product or to a buyer that only others in the batch name |
| Market.OthersShowUp | backend/src/marshaling/market_marshaling.rs:220-232 | tables in which it does not: a purchase of what the second subscription is for, billed to the first |
| Market.OwnPurchasesAnswerPerRow | backend/src/marshaling/market_marshaling.rs:214-232 | it always does if every purchase is for its own subscription's product and buyer |
| Market.SalesKeepOwn | backend/src/web/stripe_webhook.rs:243-271 | which is what any run of checkouts and renewals leaves |
| MarketAnswers.SalesAreRecorded | backend/src/web/stripe_webhook.rs:243-271 | in every such run each checkout leaves its subscription and purchase, and each renewal a purchase like its subscription, which no later sale takes away |
| Market.SalesAnswerPerRow | backend/src/logic/market/market_renewal.rs:107-118 | so in a database that they have filled every batch answers like single requests |
| Market.ViewsAreOwn | backend/src/marshaling/market_marshaling.rs:180-184 | a buyer's share of a batch is the answer for the buyer's own rows |
| MarketAnswers.ViewsListed | backend/src/marshaling/market_marshaling.rs:180-184 | a buyer's list is exactly the buyer's pairs, in their order |
| Market.BuildSubscriptionsForBuyers | backend/src/marshaling/market_marshaling.rs:170-185 | every requested buyer is a key, no other is, and has exactly its subscriptions in order; no buyers, no query |
| HeadingTree.NearestIs | docs/toc-sidebar.js:90-94 | the nearest preceding heading of smaller level is unique |
| HeadingTree.LevelsConcat | docs/toc-sidebar.js:98-103 | the headings walked are those before the first of level 1 or 2, in order, whatever else is between them |
| HeadingTree.PopKeepsNearest | docs/toc-sidebar.js:102-104 | popping an entry that is not of smaller level loses no candidate parent |
| HeadingTree.Unwind | docs/toc-sidebar.js:102-105 | the inner loop stops at the nearest preceding heading of strictly smaller level, or at the root list |
| HeadingTree.Sidebar.Append | docs/toc-sidebar.js:106-115 | an item goes to the end of its parent's list, which is made when first needed |
| HeadingTree.Sidebar.Walk | docs/toc-sidebar.js:95-122 | the walk up to the next top-level section puts every heading under its parent, after what the root list held, makes no empty list and pops at most once for each heading |
| HeadingTree.InDocumentOrder | docs/toc-sidebar.js:90-122 | read depth first, the finished lists are the headings in document order, each once |
| LinkPreviewCache.TtlCache.Get | backend/src/web/federated_preview.rs:215-220 | a hit is the unexpired value last put for the key; with a clock that does not run backwards there is one exactly if an unbounded map of the puts since the last clearing has one |
| LinkPreviewCache.TtlCache.Put | backend/src/web/federated_preview.rs:222-230 | the entry put is there; of the others exactly those stay that were in a cache of fewer than 500, or have not expired where fewer than 500 have not; it has at most 500 entries afterwards |
| LinkPreviewCache.NeverTooLarge | backend/src/web/federated_preview.rs:201-230 | no run of puts makes it exceed 500 entries |
| LinkPreviewCache.HitIsLastPut | backend/src/web/federated_preview.rs:215-230 | a hit is the value of the last put for its key and has not expired |
| LinkPreviewCache.AnswersAsUnbounded | backend/src/web/federated_preview.rs:215-230 | with a clock that does not run backwards it answers as an unbounded map of last puts since the last clearing, hence since ever if there was none |
| LinkPreviewCache.ClearsIff | backend/src/web/federated_preview.rs:222-229 | a put clears the cache exactly if that map has 500 unexpired entries |
| ServerConfiguration.ReadsBackIff | backend/src/marshaling/configuration_marshaling.rs:113-132 | settings read back as written exactly if both allocations are set (or they are the fallback), as normalized ones always do |
| ServerConfiguration.UsageIsLostIff | backend/src/marshaling/configuration_marshaling.rs:103-126 | a counter written beside an unset allocation is lost on reading, unless it is zero |
| ServerConfiguration.NormalizedIs | backend/src/marshaling/configuration_marshaling.rs:103-132 | what a reader gets for anything stored, field by field: unreadable or without an allocation per user, the fallback; without one for the server, that one alone put in |
| ServerConfiguration.AdjustedUsageIs | backend/src/logic/server_storage_usage.rs:93-112 | an adjustment for every counter and delta, wrap-around included |
| ServerConfiguration.SavedVersions | backend/src/logic/custom_css.rs:188-225 | a save keeps every version, media settings included, but for its mark, and the new one carries on what it does not set |
| ServerConfiguration.MediaWritten | backend/src/logic/server_storage_usage.rs:57-132 | the other writers change only the newest version's own counter and when it was written, beside normalizing |
| ServerConfiguration.ConfigurationTable.GetModel | backend/src/rpcs/server_configuration/get_server_configuration.rs:53-98 | returns the active row, making the default one if there is none |
| ServerConfiguration.ConfigurationTable.UpdateMediaSettings | backend/src/logic/server_storage_usage.rs:57-78 | changes the media settings of the active row in place, normalized first, or fails without one |
| ServerConfiguration.ConfigurationTable.AdjustUsage | backend/src/logic/server_storage_usage.rs:93-112 | the clamped adjustment, or nothing for a zero delta |
| ServerConfiguration.ConfigurationTable.RecomputeUsage | backend/src/logic/server_storage_usage.rs:81-91 | sets the counter to the total |
| ServerConfiguration.ConfigurationTable.RecomputeObjectUsage | backend/src/logic/server_storage_usage.rs:121-132 | sets the other counter only |
| ServerConfiguration.ConfigurationTable.SaveCustomCss | backend/src/logic/custom_css.rs:188-225 | deactivates every version and adds one with the given stylesheet, or the active one's, and the rest carried forward |
| ServerConfiguration.ConfigurationTable.GetCustomCssText | backend/src/logic/custom_css.rs:20-31 | the active version's stylesheet |
| ServerConfiguration.RunKeeps | backend/src/models/server_configuration_models.rs:169-203 | in every reachable state exactly the newest version is active, superseded versions never change again, and untouched settings are carried forward |
| ServerConfiguration.ReadsLastWritten | backend/src/logic/custom_css.rs:188-225 | the stylesheet read is the last one explicitly written, whatever was saved since |
| ServerConfiguration.UsageIsKept | backend/src/logic/server_storage_usage.rs:57-112 | over any run the counter is what adjustments and recomputations alone make it: no save or reading changes it |
| ServerConfiguration.AdjustmentsAddUp | backend/src/logic/server_storage_usage.rs:93-112 | after any adjustments the counter is the sum minus the lowest partial sum where that is negative, as long as that fits in an i64 |
| ServerConfiguration.LowestIs | backend/src/logic/server_storage_usage.rs:93-112 | the lowest partial sum is a lower bound of them all and one of them |
| ServerConfiguration.StaysInSync | backend/src/logic/server_storage_usage.rs:14-18 | through any run of saves, readings, adjustments and recomputations, a counter told of every change is the true total, if it was at the start or was recomputed since |
| MessagingGroups.MessagingGroupTable.FindOrCreate | backend/src/models/message_models.rs:113-144 | returns a group with exactly the given participants; the table is unchanged exactly if there was one, and otherwise has one row more |
| MessagingGroups.MessagingGroupTable.SameGroupIff | backend/src/models/message_models.rs:99-118 | two answers are the same group exactly if the participants are the same set |
| MessagingGroups.Dedup | backend/src/models/message_models.rs:117-118 | a sorted list becomes strictly sorted with the same members |
| MessagingGroups.StrictIsCanonical | backend/src/models/message_models.rs:117-118 | a set has one strictly sorted list |

## Left out

- SegmentingLock: request cancellation (a dropped future releases its guard and its handle without the count test), the probe cache, and how `ffmpeg`, downloads and `hls::is_superseded_hls_dir` work; the pass is a sequence of steps that may fail at any point. An eviction may empty the directories of any other paths, file by file, and stop anywhere; a directory is its playlist and how many of its segments are there. Fairness of the lock's queue is not modelled.
- EmailMessage, EmailRepair: bytes and UTF-8 decoding; text has one character type, with Unicode's White_Space as its whitespace. The reader of printed messages stands for `mail_parser`, which is not part of this model.
- Base58, ProtoId: `to_db_id_or_err` and the optional forms, which only wrap the results.
- Rename.RewriteIsRenamedIff: is stated for texts without NUL characters, which is what the script's guards presuppose; idempotence is stated for all. File walking and encodings are left out.
- EventTables: columns no step reads or writes, and tables that only refer to users, groups or destinations. Events and occasions are taken to have posts of their own, as the code that creates them sees to.
- FixDuplicateEvents: the counters of a group that was rolled back, which are not restored, so that `media_merged` and `occasions_deleted` are only bounded below if some group was; what `relations_reassigned` and `relations_dropped_as_duplicate` add up to beyond one relation, except that nothing is counted as dropped where errors abort.
- FixDuplicateEvents.CollapseGroup: where one event has two occasions with the same anchor, and there are sync-out records, it depends on the order in which occasions are loaded whether the group commits; there only what a commit implies is stated.
- Market: the order of a table stands for the `ORDER BY` of its query; `details`, product types and the fields that are only copied; the sorting in `build_fulfillment_subscriptions`; the panic of a debug build on the refund of i32::MIN.
- HeadingTree: the page's elements are nodes of six heading levels or none; texts, links, layout and the entries for the gRPC table are left out.
- LinkPreviewCache: the mutex around the cache and the lookups behind it; overflow of time stamps.
- ServerConfiguration: JSON encoding (what is written reads back as written), `ConfigureServer`, the choice between debug and release overflow (the counter wraps), and concurrent transactions: only serial runs are modelled. Adjustments lock the row, but two first readers at once can each insert a default row (`backend/src/rpcs/server_configuration/get_server_configuration.rs:53-98`).
- MessagingGroups: other failures of the insertion, and deletions.
