# Proofs about the mail server

A Dafny model of the parts of the mail server that keep state over long runs: the three copies of an
IMAP folder (files, SQL rows, list in memory), the outbound spool and its retries, the failed-login
limiter, DMARC discovery, and the smaller algorithms around them. `dafny verify dfyconfig.toml` checks
all of it.

## How it is laid out

| file | subject |
|---|---|
| `UidTable.dfy`, `Reload.dfy`, `Expunging.dfy` | rows and `uid_next` of one mailbox, reconciling them with the disk, dropping messages and announcing it |
| `Folders.dfy`, `DeliveryOrder.dfy`, `Agreement.dfy` | one folder over arbitrary runs: deliveries, vanishing files, reloads that fail at any insert, restarts, appends and expunges cut short at any operation |
| `Moves.dfy` | copying and moving between folders, stopped after any number of single disk and SQL operations |
| `Keys.dfy`, `Maildir.dfy` | key order, file names, and the directory object |
| `Mailbox.dfy` | the index table and the mailbox object, whose methods are proved to do what the functions of the files above say |
| `NumSets.dfy` | "*", "$" and SEARCH criteria |
| `Spool.dfy` | the spool one file operation at a time, with crashes and concurrent submissions |
| `HandOvers.dfy` | how often one mail is handed over, crashes included |
| `Retries.dfy`, `Queue.dfy` | whole attempts: counts, outcomes and backoff over any run; the queue object |
| `Mirror.dfy` | every run of whole attempts is a run of single file operations |
| `Relay.dfy` | the conversation with one host, the list of hosts and the loop over them |
| `RateLimit.dfy`, `Login.dfy` | the limiter against a reference that reads the full history, and how LOGIN uses it |
| `Dmarc.dfy` | discovery, alignment and the quarantine decision |
| `Paging.dfy` | webmail's message list |
| `Sequences.dfy`, `Wrappers.dfy` | sequences without repeats, reversal, optional values |

Objects that the program updates in place are classes whose methods are proved equal to functions on
values; the long-run claims are lemmas about those functions. What the outside world does (the clock,
DNS, the public-suffix list, remote hosts, which operation fails, the names `uniqueName` returns, the
order Go visits a map in) is a parameter and arbitrary within the stated bounds.

## What the proofs found

- A mail whose metadata is being rewritten when the process dies is stranded: the file is truncated
  first, cannot be parsed afterwards, and nothing ever sends, reports or removes that mail again
  (`StuckForGood`); it can happen exactly when the configuration retries at all (`StrandingIff`).
  Between sweeps an accepted, unfinished mail can still be delivered exactly when its metadata is
  whole (`DeliverableIffMetadataWhole`).
- `internal/maildir/maildir.go:57-65` calls the counter the tiebreaker among deliveries of one
  nanosecond. The random part comes first in the name, so it decides (`SameInstantSortsByRandomPart`).
- `internal/inboundauth/verify.go:198-205` describes the lookup of section 6.6.3 of RFC 7489. The code
  asks every label in between as well; the two agree exactly when the sender's own domain answers or
  no name in between does (`WalkIsTwoStepIff`), and they do differ (`WalkUsesIntermediateRecord`).
- Cleanup of the limiter shows in one place only: a question put at the very instant a ban ends
  (`CleanupVisibleOnlyAtBanEnd`, `CleanupSeenAtBanEnd`).
- UID order is the order of the names' times as long as no file arrives after one named later has been
  indexed (`UidOrderIsClockOrder`). A delivery makes its name before it writes the file, so two that
  overlap can break the order (`OvertakingHappens`), and an arrival breaks it exactly then
  (`ArrivalKeepsClockIff`). An append breaks it exactly when its file is earlier than an indexed one or
  later than one no reload has seen (`AppendKeepsOrderIff`).
- When two files share a key (one in new/, one in cur/) that has no row, a reload fails, but gives the
  key a row; the next one succeeds and lists the key twice under one UID (`TwoFilesOneKey`). In
  general no more undisturbed reloads fail than there are such keys (`SucceedsAfterRepeats`), a
  successful list has one message a UID exactly when no key is listed twice (`ReloadBringsInStep`), and
  a failed reload is harmless exactly when no such key is (`HarmlessIff`).
- Replacing "*" by a number in place can leave the ranges of a set out of order, and then the
  library's search misses the last message: 5:9,* in a mailbox of three does not find message 3
  (`StarCanBeHidden`). That message is all that can be missed, and it is missed exactly when the first
  range that reaches the largest number starts above it (`ResolvingKeepsAnswersIff`). A search for NOT
  5:9,* accordingly finds message 3, which it should not (`SearchCanGoWrong`).
- Logins of one address that overlap are all let through before any is counted: with at most k at once,
  up to k - 1 wrong passwords get past the limit in one window, and no more (`GuessesAreBounded`,
  `BoundIsReached`); so the limit holds exactly when k is at most 1 (`LimitHoldsIff`). A ban shorter
  than the window breaks it even for callers that try one at a time, and only that does
  (`AttemptBoundIff`).
- The UID counter wraps to 0 after 2^32 - 1 messages; UID 0 is given next, and the first UID to be
  given twice is 1, after that (`BelowCounterIff`, `GivenOnceIff`).
- An error from a delivery does not mean that no host has the mail: when only QUIT fails, the mail is
  taken and will be offered again, or bounced (`SuccessMeansTaken`, `TakersAndQuits`).
- A mail is taken a second time only after a failed QUIT, or after a crash or the failure of both
  removals (`SecondTakeHasACause`, `TakersAndSlipsBalance`).

## Model

| member | source | states |
|---|---|---|
| UidTable.InsertedShaped | internal/store/mailbox.go:174-203 | an insert gives out the value of the counter, advances it modulo 2^32 and records the row; the whole history of UIDs stays the sequence 1, 2, 3, ... |
| UidTable.BelowCounterIff | internal/store/mailbox.go:180-197 | the counter is above every UID given exactly as long as fewer than 2^32 - 1 were |
| UidTable.GivenOnceIff | internal/store/mailbox.go:180-197 | no UID was given twice exactly as long as at most 2^32 were given |
| UidTable.RowsAreSound | internal/store/mailbox.go:50-60 | rows have distinct UIDs below the counter, and inserting an unindexed key violates neither UNIQUE constraint |
| Reload.SortIsSorted | internal/imapbackend/mailbox.go:140 | sorting by UID gives ascending UIDs |
| Reload.SortIsStrict | internal/imapbackend/mailbox.go:140 | strictly ascending when no UID occurs twice |
| Reload.WalkShape | internal/imapbackend/mailbox.go:107-138 | a walk over the files gives one entry per file in listing order: cached UID first, then the row's, otherwise one not below the counter |
| Reload.WalkExtends | internal/imapbackend/mailbox.go:107-138 | wherever the walk stops, existing rows keep their UIDs and only listed files gain rows |
| Reload.ReloadSucceedsIff | internal/imapbackend/mailbox.go:107-147 | without a failure outside, one reload succeeds exactly when no unindexed key is listed twice |
| Reload.FailureIndexesARepeat | internal/imapbackend/mailbox.go:107-138 | an undisturbed reload that fails has given a row to a key listed twice that had none, so fewer of those are left |
| Reload.SucceedsAfterRepeats | internal/imapbackend/mailbox.go:107-147 | no more undisturbed reloads in a row fail than there were such keys, and none exactly when there were none |
| Reload.TwoFilesOneKey | internal/imapbackend/mailbox.go:107-138 | one key in two files: the first reload fails, the second lists the key twice under one UID |
| Reload.WarmEqualsColdIff | internal/imapbackend/mailbox.go:102-145 | a reload with the cached list does what one with an empty list does when every cached message still on disk has its row with its UID; if the latter succeeds, their lists agree only then |
| Reload.ReloadBringsInStep | internal/imapbackend/mailbox.go:79-148 | after a successful reload list, rows and files hold the same keys, listed UIDs are the rows', in UID order, and strictly so exactly when no key is listed twice |
| Reload.InterruptedReloadIsHarmless | internal/imapbackend/mailbox.go:98-145 | with no unindexed key listed twice, a failed reload leaves the list alone, and the one after it gives the index and list of a single uninterrupted one |
| Reload.HarmlessIff | internal/imapbackend/mailbox.go:98-145 | and that holds of every failure only then |
| Reload.AnyNumberOfInterruptions | internal/imapbackend/mailbox.go:98-145 | the same for any series of failed reloads |
| Expunging.ReplayGivesSurvivors | internal/imapbackend/mailbox.go:564-582 | the reported sequence numbers, applied one by one with renumbering, are always in range and end at exactly the new list (section 7.4.1 of RFC 3501) |
| Expunging.KeepMembers | internal/imapbackend/mailbox.go:564-582 | the survivors are the listed messages that were not expunged |
| Expunging.KeepAscending | internal/imapbackend/mailbox.go:564-582 | and they stay in ascending UID order |
| Folders.StepExtendsLog | internal/store/mailbox.go:174-203 | every event, finished or cut short, only extends the history of assigned UIDs |
| Folders.StepKeepsInv | internal/imapbackend/mailbox.go:79-148 | every event keeps the list ascending, made of assigned UIDs only, and in agreement with the rows for every file still on disk |
| Folders.AppendKeepsInv | internal/imapbackend/mailbox.go:321-359 | the same for an append stopped after any operation |
| Folders.ExpungeKeepsInv | internal/imapbackend/mailbox.go:520-562 | the same for an expunge stopped after any operation |
| Folders.AppendSucceedsIff | internal/imapbackend/mailbox.go:321-359 | an append goes through exactly when no operation of it fails and the key has no row; file, row and list entry then carry the next UID, and otherwise the list is as it was |
| Folders.RemovalReaches | internal/imapbackend/mailbox.go:539-546 | a removal that ignores missing files, stopped anywhere: which files and which rows are gone, and that it fails only where an operation does |
| Folders.ExpungeSucceedsIff | internal/imapbackend/mailbox.go:539-551 | an expunge goes through whichever files are already missing, exactly when no operation of it fails; disk and rows then lose exactly its keys and the list its messages, and otherwise the list is untouched |
| Folders.RunKeepsInv | internal/imapbackend/mailbox.go:79-148 | so does every run during which the 32-bit counter lasts |
| Folders.UidsNeverReused | internal/store/mailbox.go:174-203 | in every reachable folder no UID was given twice exactly if at most 2^32 were given (section 2.3.1.1 of RFC 3501), the counter is above all exactly if fewer than 2^32 - 1 were; rows only repeat assignments that were made |
| Folders.CounterNeverFalls | internal/store/mailbox.go:174-203 | over any further run `uid_next` does not fall and a UID once bound to a key is never bound to another, deleted or not |
| Folders.UidStable | internal/imapbackend/mailbox.go:98-138 | a key keeps its UID through any run in which its file stays on disk |
| Folders.WarmAndColdAgree | internal/imapbackend/mailbox.go:79-148 | from every reachable state a reload gives the same folder with the cached list and after a restart, with list, rows and directory in step |
| Agreement.AppendStaysInStep | internal/imapbackend/mailbox.go:321-359 | a successful append leaves directory, rows and list in step |
| Agreement.ExpungeStaysInStep | internal/imapbackend/mailbox.go:535-550 | so does a successful expunge |
| Agreement.MoveStaysInStep | internal/imapbackend/session.go:97-133 | so does a successful move, on both sides |
| Agreement.InterruptionsLeaveNoMark | internal/imapbackend/mailbox.go:79-148 | any number of failed reloads of a folder leaves its list as it was and the next success as if they had not been |
| Keys.LessTotal | internal/maildir/maildir.go:156 | byte-wise order of keys is a strict total order |
| Keys.Sorted | internal/maildir/maildir.go:129-158 | the sorted listing holds every key once, ascending |
| Keys.PaddedOrder | internal/maildir/maildir.go:57-66 | zero-padded decimals of one width sort exactly as the numbers do |
| Keys.NamesSortByTime | internal/maildir/maildir.go:44-67 | names made at different nanoseconds sort by time, whatever follows |
| Keys.SameInstantSortsByRandomPart | internal/maildir/maildir.go:57-66 | names of one nanosecond sort by their random parts, not by the counter |
| DeliveryOrder.UidOrderIsDeliveryOrder | internal/imapbackend/mailbox.go:107-140 | when every file is later than those indexed before it arrives and only reloads index, the list sorted by UID is sorted by key after any such run |
| DeliveryOrder.RunKeepsOrder | internal/imapbackend/mailbox.go:107-140 | at every point of such a run indexed files have UIDs in key order and unindexed ones come later |
| DeliveryOrder.DeliveryKeepsOrderIff | internal/maildir/maildir.go:71-106 | a file that arrives keeps that order exactly when no indexed file has a later key |
| DeliveryOrder.UidOrderIsClockOrder | internal/maildir/maildir.go:57-106 | end to end, with naming and arriving apart and deliveries side by side: the listed messages are in the order of their names' times, as long as none arrives after one named later has been indexed |
| DeliveryOrder.ArrivalKeepsClockIff | internal/maildir/maildir.go:71-106 | one arrival leaves the next reload's list in that order exactly when it was not so overtaken |
| DeliveryOrder.OvertakingHappens | internal/maildir/maildir.go:71-106 | any two overlapping deliveries have a run in which the order fails |
| DeliveryOrder.AppendKeepsOrderIff | internal/imapbackend/mailbox.go:321-356 | an append that indexed its file, finished or not, keeps the order exactly when the file is later than those indexed and earlier than those unseen |
| DeliveryOrder.LatestAppendKeepsOrderIff | internal/imapbackend/mailbox.go:321-356 | under the latest name so far, exactly when no file was unseen |
| Moves.ChosenMembers | internal/imapbackend/mailbox.go:622-641 | exactly the listed messages of the set are chosen |
| Moves.ChosenAscending | internal/imapbackend/mailbox.go:622-641 | messages of a set are visited in ascending UID order |
| Moves.CopyKeepsBodies | internal/imapbackend/session.go:62-83 | copying takes no body away from the destination, wherever it stops |
| Moves.CopyAddsBodies | internal/imapbackend/session.go:62-85 | a copy that succeeds adds exactly the chosen bodies |
| Moves.NoMailLostByMove | internal/imapbackend/session.go:97-133 | after any number of operations and on every error each body is on disk in at least as many files as before; on success the bodies of the two folders are conserved exactly |
| Moves.NoMailLostWithinFolder | internal/imapbackend/webapi.go:527-557 | the same for a webmail move into the folder the message is in |
| Moves.MoveSucceedsIff | internal/imapbackend/session.go:100-133 | an undisturbed move goes through exactly when every chosen message has its file; otherwise the source is untouched |
| Moves.StrictRemovalSucceedsIff | internal/imapbackend/session.go:125-132 | the removal half of an undisturbed move goes through exactly when each file is there when its turn comes |
| Moves.MoveWithinSucceedsIff | internal/imapbackend/webapi.go:517-558 | an undisturbed move inside one folder goes through exactly when the message has its file; the body is then under the new name and UID alone, and otherwise nothing has changed |
| Moves.MoveKeepsInvariants | internal/imapbackend/session.go:97-133 | a move, finished or not, keeps the invariant of both folders |
| Moves.CopyUidsIncrease | internal/imapbackend/session.go:73-79 | copies get strictly increasing UIDs |
| Moves.CopyCorresponds | internal/imapbackend/session.go:62-85 | the i-th UID is that of a row whose file holds the i-th chosen body |
| Moves.CopyUidSetsSuffice | internal/imapbackend/session.go:62-85 | reporting two unordered UID sets is enough: the i-th smallest source UID was copied to the i-th smallest destination UID (section 3 of RFC 4315) |
| Maildir.SplitJoined | internal/maildir/maildir.go:115-121 | a key and flags joined by the flag mark are split again into the same two |
| Maildir.CutAtFirstMark | internal/maildir/maildir.go:115-121 | a name is cut at the first ":2," in it, or not at all |
| Maildir.NamesRoundTrip | internal/maildir/maildir.go:115-121 | every file name is read without loss, and every name made of a plain key is read back as made |
| Maildir.NormalizedLetters | internal/maildir/maildir.go:208-215 | the written suffix has exactly the known letters asked for |
| Maildir.SuffixIsStandard | internal/maildir/maildir.go:20-22 | the suffix holds the letters D, F, R, S and T asked for, each once, in ASCII order, and no other |
| Maildir.OneFilePerKey | internal/maildir/maildir.go:162-179 | in a directory in which no key names two files, every key has one place and every file is one of them |
| Maildir.RenameKeepsContents | internal/maildir/maildir.go:199-223 | changing flags leaves every key with its body |
| Maildir.RemovedIsGoneIff | internal/maildir/maildir.go:226-232 | a removal leaves no file of the key exactly when the file removed was the only one |
| Maildir.Directory.Locate | internal/maildir/maildir.go:162-179 | finds the one file of a key, and fails exactly when there is none |
| Maildir.Directory.Open | internal/maildir/maildir.go:182-188 | returns the body of the key |
| Maildir.Directory.Deliver | internal/maildir/maildir.go:100-106 | puts the file into new/ under its bare key; adds one key and changes no other |
| Maildir.Directory.SetFlags | internal/maildir/maildir.go:202-223 | moves the file into cur/ under the normalized letters and no other file; every key keeps its body; fails exactly when the key is missing |
| Maildir.Directory.Remove | internal/maildir/maildir.go:226-232 | takes exactly the one key away; fails exactly when it is missing |
| Maildir.Directory.List | internal/maildir/maildir.go:129-158 | the keys of new/ and cur/, each once, in ascending order |
| Mailboxes.MessageTable.InsertMessage | internal/store/mailbox.go:174-203 | assigns the next UID and records it, or changes nothing |
| Mailboxes.MessageTable.DeleteMessageByKey | internal/store/mailbox.go:212-217 | drops the row of the key, keeps the counter |
| Mailboxes.MessageTable.DeleteMessagesNotIn | internal/store/mailbox.go:222-234 | keeps exactly the rows of the given keys, none when there are none |
| Mailboxes.MessageTable.ListMessages | internal/store/mailbox.go:161-167 | exactly the rows, ordered by UID |
| Mailboxes.ListedRowsAreRows | internal/imapbackend/mailbox.go:85-92 | rows listed and put in a map by key are the rows again |
| Mailboxes.Mailbox.IndexFiles | internal/imapbackend/mailbox.go:107-138 | the loop of a reload does what the walk of `Reload` does, success or failure |
| Mailboxes.Mailbox.ReloadLocked | internal/imapbackend/mailbox.go:79-148 | index, list and result are those of `Reloaded` for the files on disk; the files are not touched |
| Mailboxes.Mailbox.AppendBytes | internal/imapbackend/mailbox.go:321-359 | the append of `Folders`, stopped after any operation; one that succeeds leaves the file in cur/ under its flags if it comes with any, and in new/ otherwise, and moves no other file |
| Mailboxes.Mailbox.RemoveMessages | internal/imapbackend/session.go:125-132 | removes file, then row, message by message, up to the first failure, as `RemovalReaches` and `StrictRemovalSucceedsIff` describe |
| Mailboxes.Mailbox.ExpungeLocked | internal/imapbackend/mailbox.go:564-582 | the list becomes the survivors in order, and the numbers reported are those `ReplayGivesSurvivors` speaks of |
| Mailboxes.Mailbox.Expunge | internal/imapbackend/mailbox.go:520-562 | removes exactly the messages marked deleted (within the given UIDs), each once, in some order; succeeds exactly when no operation fails, missing files being no failure; files, rows and list then lose exactly those, and otherwise the list is untouched |
| Mailboxes.ReverseInPlace | internal/imapbackend/mailbox.go:576-579 | swapping the ends inward reverses the list |
| Mailboxes.CopyMessages | internal/imapbackend/session.go:62-83 | the copying of `Moves`; every copy carries the flags of its original; the source is untouched |
| Mailboxes.Move | internal/imapbackend/session.go:88-133 | the move of `Moves` with each original removed once, flags carried over, the UID sets of both sides and the sequence numbers; refused between a mailbox and itself |
| Mailboxes.MoveAcross | internal/imapbackend/webapi.go:517-558 | copy with its flags, remove, shorten, between two folders |
| Mailboxes.MoveInside | internal/imapbackend/webapi.go:517-558 | the same within one folder |
| Mailboxes.OneMessageMove | internal/imapbackend/webapi.go:527-557 | webmail's move is the general move of one message, so all that is proved of moves holds of it |
| Mailboxes.FindByUid | internal/imapbackend/mailbox.go:171-178 | finds a message with the UID, or there is none |
| NumSets.ResolveMeansReadsIff | internal/imapbackend/mailbox.go:668-681 | resolving "*" in a range preserves its meaning, exactly when it is not a fixed range written backwards |
| NumSets.ResolveOnceIff | internal/imapbackend/mailbox.go:668-681 | a resolved range never changes again, exactly when the mailbox was not empty or there was nothing to resolve |
| NumSets.StaticRanges | internal/imapbackend/mailbox.go:651-664 | the loop that writes into the caller's set resolves every range |
| NumSets.ReportedUidNext | internal/imapbackend/mailbox.go:274-282 | the UIDNEXT told to clients is above every listed UID and at most the stored counter |
| NumSets.TidyHasItsMembers | internal/imapbackend/mailbox.go:630-635 | the binary search finds every member of an ordered set |
| NumSets.ResolvingKeepsAnswersIff | internal/imapbackend/mailbox.go:651-664 | resolving "*" in a parsed set keeps every answer up to the largest number in use, but loses that number exactly when an earlier range hides it |
| NumSets.VisitsWhatIsMeant | internal/imapbackend/mailbox.go:643-666 | after "*" and "$" are resolved a set finds exactly the messages it has as written, except the last one exactly when "*" is hidden |
| NumSets.StarIncludesLast | internal/imapbackend/mailbox.go:668-681 | a set ending in n:* or * includes the last message, however large n is (section 6.4.8 of RFC 3501), exactly when no earlier range hides it; a single range always does |
| NumSets.StarCanBeHidden | internal/imapbackend/mailbox.go:651-664 | 5:9,* in a mailbox of three means the last message and misses it |
| NumSets.StaticOnce | internal/imapbackend/mailbox.go:497-518 | in a mailbox that is not empty a set resolved once stays as it is against any later state, which STORE followed by FETCH relies on |
| NumSets.ForEachLocked | internal/imapbackend/mailbox.go:622-641 | visits, in list order and once each, exactly the messages of the set as written, but for a hidden last one |
| NumSets.LevelFinds | internal/imapbackend/mailbox.go:470-485 | moving "$" from the sequence sets to the UID sets keeps the meaning of one level of criteria, each set less the message it misses |
| NumSets.SearchFinds | internal/imapbackend/message.go:161-234 | through any nesting of Not and Or, the resolved criteria match exactly the messages the criteria as written pick when each set is read less the message it misses |
| NumSets.SearchIsConjunction | internal/imapbackend/message.go:161-234 | every further set, NOT and OR among the criteria narrows the answer by exactly what it says |
| NumSets.SearchFindsWhatIsMeant | internal/imapbackend/message.go:161-234 | so every message that no set in the criteria misses is answered as written |
| NumSets.NoneHiddenMissesNone | internal/imapbackend/mailbox.go:668-681 | which are all messages when no set hides its "*" |
| NumSets.OnlyLastIsMissed | internal/imapbackend/mailbox.go:668-681 | and all but the last one always |
| NumSets.NotOfSetIsRightIff | internal/imapbackend/message.go:222-226 | NOT of a set is answered rightly for a message exactly unless the set means and misses it |
| NumSets.SearchCanGoWrong | internal/imapbackend/message.go:222-226 | NOT 5:9,* in a mailbox of three finds the last message |
| Spool.ClientStepKeepsInv | internal/queue/queue.go:71-94 | every file operation of a submission keeps the invariant of all mails |
| Spool.WorkerStepKeepsInv | internal/queue/queue.go:106-197 | so does every operation of the worker, and a crash |
| Spool.RunKeepsInv | internal/queue/queue.go:71-197 | so does every interleaving of submissions, sweeps, failures and crashes |
| Spool.AcceptedMailIsSafe | internal/queue/queue.go:71-109 | in every reachable state an accepted mail has its whole body on disk, or was accepted by a host, or was given up on with the callback run; and the callback is run for no other |
| Spool.DropLosesNothing | internal/queue/queue.go:157-162 | when the worker finds no body, the mail was finished before |
| Spool.NoBodyIsForgotten | internal/queue/queue.go:106-109 | as long as no removal of a body fails, an accepted mail whose body is on disk has its metadata too, whatever crashes or fails besides |
| Spool.SentAsSubmitted | internal/queue/queue.go:156-164 | a host is only ever given the whole mail as submitted, for its own recipient |
| Spool.StuckForGood | internal/queue/queue.go:88-104 | a mail whose metadata was cut short is never sent, reported or removed in any run that follows |
| Spool.DeliverableIffMetadataWhole | internal/queue/queue.go:88-154 | between sweeps an accepted unfinished mail can still be delivered, by a sweep over the whole directory in the order of its names, exactly when its metadata is whole |
| Spool.CrashInRewriteStrands | internal/queue/queue.go:190-196 | with a schedule and at least one retry there is a run with one crash that strands an accepted mail |
| Spool.StrandingIff | internal/queue/queue.go:175-196 | a mail can be stranded exactly under such a configuration |
| HandOvers.DeliveryCounts | internal/queue/relay.go:57-68 | the takers and failed QUITs counted for a step are those of the delivery |
| HandOvers.SlipIsCrashOrTwoFailures | internal/queue/queue.go:106-109 | a mail being cleared away stays whole exactly through a crash or the failure of both removals |
| HandOvers.TakersAndSlipsBalance | internal/queue/queue.go:156-182 | over any run the hosts that took a mail and the times it was given up on are the failed QUITs, those slips, and one more if it is gone or going |
| HandOvers.SecondTakeHasACause | internal/queue/queue.go:156-182 | once a host took a mail, another takes it only if the first broke off at QUIT or a slip fell in between |
| HandOvers.AtMostOnceWithoutMishap | internal/queue/queue.go:156-182 | without either no mail is taken twice, nor taken and given up on |
| HandOvers.TakenAgainIff | internal/queue/queue.go:127-182 | between sweeps a mail that some host took can be taken again exactly when its takers and giving-ups are all accounted for by failed QUITs and slips and its metadata is whole |
| Retries.EventKeepsInv | internal/queue/queue.go:156-197 | every submission and attempt keeps the books of all mails balanced |
| Retries.OutcomeOfAttempt | internal/queue/queue.go:164-185 | a definitive rejection ends a mail in that very attempt; a temporary one, or any other trouble, exactly when the retries have run out; a success counts as relayed and nothing else does |
| Retries.FilesAfterAttempt | internal/queue/queue.go:156-197 | a mail that is finished or has no body loses both files, as far as removing works; one to be retried keeps its body, and its metadata counts the attempt and is due one delay later |
| Retries.RetriedWhenDue | internal/queue/queue.go:147-194 | a mail put off is tried again by the first visit at or after the end of its delay, and no earlier |
| Retries.OneFateEach | internal/queue/queue.go:127-197 | after any run an accepted mail is pending, stranded, or has had exactly one outcome, but for removals that got rid of neither file |
| Retries.CallsAreBounded | internal/queue/queue.go:172-182 | at most MaxRetries + 1 delivery calls for a mail, plus one for each attempt or outcome the disk does not show |
| Retries.BackoffIsHonoured | internal/queue/queue.go:186-194 | attempt k of a mail that had no bad luck with its files starts no earlier than the first attempt plus the k delays of the schedule, its last one repeated |
| Retries.DueOnlyAfterBackoff | internal/queue/queue.go:134-152 | any mail, whatever its luck, is due only after its first attempt and the delays for all failures the disk remembers; those are its attempts less the unsaved and the uncleared ones |
| Retries.EveryAttemptUsesUp | internal/queue/queue.go:172-196 | the attempts left to all mails together fall with each attempt the disk shows, and with no other |
| Retries.RunsDry | internal/queue/queue.go:127-196 | with nothing added, no more attempts leave a trace, however the spool is swept, than were left at the start |
| Retries.SweepOffersTheDueOnce | internal/queue/queue.go:134-152 | one sweep offers every pending mail that is due exactly once and no other |
| Mirror.AttemptIsARun | internal/queue/queue.go:156-197 | a whole attempt is a possible run of single file operations of `Spool`, with the same files, the same outcome and the same callback |
| Mirror.RunIsMirrored | internal/queue/queue.go:71-197 | so is every run of submissions and attempts: the same files, accepted mails, relayed mails, mails given up on and callbacks |
| Mirror.ReachableIsMirrored | internal/queue/queue.go:71-197 | hence what holds of every reachable spool holds of every reachable ledger |
| Mirror.UnfinishedMailHasItsBody | internal/queue/queue.go:71-109 | for one, a mail neither relayed nor given up on has its whole body on disk |
| Queues.Queue.Save | internal/queue/queue.go:88-94 | writes the metadata, leaves it, or leaves it cut short |
| Queues.Queue.Load | internal/queue/queue.go:96-104 | returns metadata exactly when it is there and whole |
| Queues.Queue.Remove | internal/queue/queue.go:106-109 | tries both files whatever comes of the first |
| Queues.Queue.Enqueue | internal/queue/queue.go:71-86 | success means that both files are there, whole, and due at once |
| Queues.Queue.Attempt | internal/queue/queue.go:156-197 | one attempt, delivery included, does what `Retries` says (`OutcomeOfAttempt`, `FilesAfterAttempt`), and panics exactly when a retry meets an empty schedule |
| Queues.OutcomesComeFromHosts | internal/queue/queue.go:164-182 | a mail counts as relayed only when a host it was offered to took it, and is given up on only when one rejected it for good or the retries ran out |
| Queues.Queue.Visit | internal/queue/queue.go:141-151 | what can be loaded and is due is attempted, anything else is left alone |
| Queues.Queue.ProcessAll | internal/queue/queue.go:127-154 | a sweep visits every metadata file once, reports their number, and stops early only by a panic |
| Relay.SuccessMeansTaken | internal/queue/relay.go:158-188 | a conversation succeeds exactly when the host took the mail and QUIT went well; once the mail is taken the result is that of QUIT alone |
| Relay.TryAddr | internal/queue/relay.go:158-188 | none exactly when a connection was had, encrypted or else plain, and every stage up to QUIT went well; otherwise the failure of the first stage that failed, stage by stage |
| Relay.TrySmartHost | internal/queue/relay.go:84-116 | the same with encryption mandatory and a login after the greeting |
| Relay.MxHosts | internal/queue/relay.go:128-145 | the exchangers in order, each less a final dot, else the domain itself, never an empty list; fails exactly when there is neither |
| Relay.TryInTurn | internal/queue/relay.go:57-68 | hosts are asked in order up to the first that accepts or rejects for good, and the last one asked is answered for |
| Relay.AskedInTurn | internal/queue/relay.go:57-68 | those are an initial part of the list, all but the last of them undecided, and the whole list if the last is too |
| Relay.InTurnIsUnique | internal/queue/relay.go:57-68 | which determines who is asked and what is answered |
| Relay.AnswerOfFirstDecisive | internal/queue/relay.go:57-68 | the answer is that of the first host to accept or reject for good |
| Relay.RetriedIffNoneDecisive | internal/queue/relay.go:57-68 | the mail is retried exactly when no host did either |
| Relay.TakenTwiceOnlyAfterFailedQuit | internal/queue/relay.go:57-68 | two hosts take one mail only when the first broke off at QUIT |
| Relay.TakersAndQuits | internal/queue/relay.go:57-68 | in one delivery the hosts that take the mail are those that break off at QUIT, and one more exactly when the delivery succeeds |
| Relay.OutcomeIsAHostsWord | internal/queue/relay.go:36-69 | relayed means that the last host asked (or the smart host) took the mail; nothing but a host's reply is a permanent failure |
| Relay.OffersInTurn | internal/queue/relay.go:36-69 | smart host and exchangers are never mixed; settings that cannot be read stop the delivery with a failure that is retried; otherwise the exchangers are asked in order whenever there are any |
| Relay.Deliver | internal/queue/relay.go:36-69 | the delivery makes those offers and returns that outcome |
| RateLimit.RunRefines | internal/ratelimit/ratelimit.go:60-119 | after any run the pruned list holds the same failures in every window to come as the full history |
| RateLimit.BanExactlyOnFullHistory | internal/ratelimit/ratelimit.go:71-83 | a failure starts a ban exactly when the full history since the last success or ban says so |
| RateLimit.BanExactlyOnWindowCount | internal/ratelimit/ratelimit.go:71-83 | that is when at least MaxAttempts failures lie in (f - Window, f] |
| RateLimit.BanTakesEffect | internal/ratelimit/ratelimit.go:80-83 | such a failure bans for BanDuration and clears the count |
| RateLimit.AllowedFollowsHistory | internal/ratelimit/ratelimit.go:47-56 | past the last sweep, `Allowed` answers from the full history |
| RateLimit.CleanupChangesNoBan | internal/ratelimit/ratelimit.go:98-119 | any number of sweeps anywhere in a run changes no later ban |
| RateLimit.CleanupIsInvisible | internal/ratelimit/ratelimit.go:98-119 | nor an answer of `Allowed` strictly after the last sweep |
| RateLimit.CleanupVisibleOnlyAtBanEnd | internal/ratelimit/ratelimit.go:98-119 | a sweep shows exactly in a question at the instant a dropped ban ends |
| RateLimit.CleanupSeenAtBanEnd | internal/ratelimit/ratelimit.go:55-105 | and there it does show |
| RateLimit.SweepLeavesIff | internal/ratelimit/ratelimit.go:98-119 | a sweep leaves an entry exactly when its ban still runs or a failure of it is inside the window |
| RateLimit.KeysAreIndependent | internal/ratelimit/ratelimit.go:60-93 | what is kept for a key is what would be kept had no other key been seen |
| RateLimit.GuardWaitsOutTheBan | internal/imapbackend/server.go:86-108 | between a ban and the next attempt let through lies the whole ban |
| RateLimit.AttemptBound | internal/imapbackend/server.go:86-108 | callers that ask first record at most MaxAttempts failures in any window without a success, if a ban lasts at least a window |
| RateLimit.ShortBanLetsOneMore | internal/ratelimit/ratelimit.go:47-119 | with a shorter ban some run of such callers records one more |
| RateLimit.AttemptBoundIff | internal/ratelimit/ratelimit.go:47-119 | so the bound holds of all their runs exactly when a ban lasts at least a window, or the window is empty |
| Logins.LoginsAreGuarded | internal/imapbackend/server.go:86-108 | while no address has two logins under way, every failure recorded was let through first, however logins of different addresses and sweeps interleave |
| Logins.SequentialIsWithinOne | internal/imapbackend/server.go:86-108 | such logins are those of which at most one of an address is unfinished |
| Logins.GuessesAreBounded | internal/imapbackend/server.go:86-108 | with at most k admitted logins of an address unfinished at once and a ban of at least a window, any window without a successful login has at most MaxAttempts + k - 1 wrong passwords recorded |
| Logins.BoundIsReached | internal/imapbackend/server.go:86-108 | every configuration and every k have a run with exactly that many |
| Logins.LimitHoldsIff | internal/imapbackend/server.go:86-108 | so the limit itself holds of all runs with at most k at once exactly when k is at most 1 |
| Logins.LimiterHears | internal/imapbackend/server.go:86-108 | in any interleaving: a right password clears its address, a wrong one counts one failure at that time, and nothing else changes what the limiter holds |
| Logins.BeginIsAdmittedIff | internal/imapbackend/server.go:86-92 | a password is looked at exactly when the address is unknown or not banned at the time |
| Logins.Consult | internal/imapbackend/server.go:86-92 | the first half of a login: asks, and admits by the model |
| Logins.Conclude | internal/imapbackend/server.go:97-112 | the second half: a right password makes the limiter forget the address, a wrong one counts one failure against it, and other addresses keep what they had |
| Logins.TryLogin | internal/imapbackend/server.go:86-112 | a login is let in exactly when its address is unknown or not banned and the password is right; the limiter then forgets the address, counts one failure for a wrong password, and hears nothing of a login it refused |
| RateLimit.Cell.Prune | internal/ratelimit/ratelimit.go:71-77 | compacting in place keeps exactly the failures after the cutoff, in order |
| RateLimit.AfterKeeps | internal/ratelimit/ratelimit.go:71-77 | what is kept are the failures after the cutoff, each as often as it occurred |
| RateLimit.Limiter.Allowed | internal/ratelimit/ratelimit.go:47-56 | the answer of the table of the model |
| RateLimit.Limiter.RecordFailure | internal/ratelimit/ratelimit.go:60-84 | the limiter goes where the model goes |
| RateLimit.Limiter.RecordSuccess | internal/ratelimit/ratelimit.go:89-93 | the same |
| RateLimit.Limiter.Cleanup | internal/ratelimit/ratelimit.go:98-119 | the same |
| Dmarc.LookupDmarcRecord | internal/inboundauth/verify.go:206-237 | terminates and returns the answer of the nearest name from the sender's domain up that publishes a record or fails, with the policy `DiscoveryDecides` says |
| Dmarc.LabelSuffixIsTextual | internal/inboundauth/verify.go:231-235 | dropping labels reaches exactly the text suffixes that start at a label |
| Dmarc.ChainStaysBelowOrg | internal/inboundauth/verify.go:214-236 | no name above the organizational domain or off the line to it is asked, and that domain is the last |
| Dmarc.ChainIsWholeLine | internal/inboundauth/verify.go:214-236 | and no label in between is skipped |
| Dmarc.DiscoveryDecides | internal/inboundauth/verify.go:206-237 | the first name to answer decides: for a record the policy is its p at the sender's own domain, and from above its sp where it has one and its p where not; an error is reported with its kind |
| Dmarc.WithoutOrgOneIsAsked | internal/inboundauth/verify.go:209-212 | without an organizational domain the sender's domain alone is asked |
| Dmarc.LowerFolds | internal/inboundauth/verify.go:207 | names are folded to small letters and otherwise left as they are |
| Dmarc.NearestIsFirst | internal/inboundauth/verify.go:214-236 | the answer used is the first in that line, and there is none exactly when no name publishes |
| Dmarc.OutsideCannotMatter | internal/inboundauth/verify.go:214-236 | what other names publish changes nothing |
| Dmarc.WalkIsTwoStepIff | internal/inboundauth/verify.go:198-237 | the walk is the lookup of section 6.6.3 of RFC 7489 exactly when the sender's domain answers or the names between are silent |
| Dmarc.WalkUsesIntermediateRecord | internal/inboundauth/verify.go:198-237 | a sender two labels below its organizational domain for whom the two differ |
| Dmarc.AlignedIsEquivalence | internal/inboundauth/verify.go:243-260 | alignment is reflexive, symmetric and transitive on names that are not empty, and strict implies relaxed |
| Dmarc.AlignedIff | internal/inboundauth/verify.go:243-260 | strict alignment is equality of names, relaxed alignment also that of their organizational domains |
| Dmarc.ModesAreApart | internal/inboundauth/verify.go:176-190 | the SPF mode governs SPF and the DKIM mode DKIM, and only results that passed count |
| Dmarc.CheckDmarc | internal/inboundauth/verify.go:159-196 | quarantine exactly when the first name to answer publishes a record, neither SPF nor a passing DKIM signature aligns under it, and its p (at the sender's domain), or its sp if any and else its p (from above), is quarantine or reject; and the reported result in every case |
| Paging.ListMessages | internal/imapbackend/webapi.go:203-224 | returns message by message what the page stands for, newest first, 25 a page unless a size of at least 1 is asked for |
| Paging.PagesPartition | internal/webmail/mail_handlers.go:60-63 | pages 1 to totalPages, one after the other, are the whole folder newest first |
| Paging.PageLengths | internal/imapbackend/webapi.go:203-224 | no page is longer than the page size, all but the last are full, and pages beyond the last are empty |

## Left out

- The go-imap library is not part of this model: its trackers, session queues and writers are absent, and `EncodeSeqNum` is the identity. Its number sets are taken to be kept as ascending, disjoint ranges with "*" in the last one only, and to be searched by bisection on the upper ends.
- Interleaving inside one mailbox operation: an operation runs to its end or to its first failure before the next one starts. `Spool.dfy` is the exception, where single file operations of the worker and of all submissions interleave.
- Aliasing of Go references and slices: messages are told apart by UID and key, lists are values of a field, and only `StaticRanges` and `Prune` write in place.
- Agreement of flags between memory, the flags column and the file name; to the folder model flags only matter as two more operations of an append, and `CopyMessages` carries their letters over.
- Maildir.Directory.Deliver: starts at the rename out of tmp/; a failure before it leaves nothing that is ever listed.
- Maildir.Directory.Locate: assumes that no key names two files; `RemovedIsGoneIff`, `ReloadBringsInStep` and `SucceedsAfterRepeats` say what happens otherwise.
- Moves.NoMailLostByMove: supposes that the names made by `uniqueName` are unused in the destination.
- Mailboxes.Move: takes the chosen messages as a set of UIDs; which messages a sequence set or UID set chooses is the subject of `NumSets`.
- Folders.RunKeepsInv: speaks of runs in which fewer than 2^32 - 1 UIDs are assigned; `UidsNeverReused` says what happens beyond.
- NumSets.SearchFinds: supposes UIDs above 0; date, flag, size, header and text tests of one level are one opaque test.
- NumSets.ReportedUidNext: does not say that the reported value never falls; it may, when the newest message is removed.
- Spool.AcceptedMailIsSafe: a directory is listed at one instant, in any order; a body read is taken to fail only when the file is absent, and ids never repeat.
- Retries.BackoffIsHonoured: speaks of mails all of whose metadata writes and removals worked; a retry that could not be saved is due again at once. `DueOnlyAfterBackoff` covers all mails, counting the failures that were saved.
- Relay.Deliver: what a remote host answers, DNS and the smart host's settings are parameters; `address.Split` is the parameter `domain`.
- RateLimit.AttemptBound: supposes that one address has one login under way at a time; `GuessesAreBounded` says what more of them come to.
- Dmarc.Discover: case folding is ASCII, and the public-suffix list is any function.
- Paging.ListMessages: mathematical integers, so no overflow in `(page-1)*pageSize`.
- SQL isolation and dialects: transactions are taken to be serial. The uint32 counter wraps as in Go.
- SMTP, IMAP, HTTP, TLS and DNS traffic, DKIM and SPF evaluation, MIME parsing, metrics, logging, templates, configuration, password hashing and certificates.
- Creating, renaming and deleting folders, forwarding, real-IP handling: short or single-loop code with easy claims.
