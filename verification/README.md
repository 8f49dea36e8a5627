# Commonwealth: verified models

Dafny models of the parts of Commonwealth that compute something or keep an invariant, with
proofs of what they promise. Database tables are sequences or maps, held in classes where the
routes and migrations update them in place; a route handler is one atomic step. Clock readings,
random tokens, balances, signature checks and the results of lookups elsewhere are parameters.

`dafny verify dfyconfig.toml` checks everything.

How it is organised:

- **Lockdrop report** (`LockdropValue`, `LockdropHoldings`, `LockdropLocks`, `LockdropSignals`,
  `BlockSeries`, helpers `Tally`, `LockdropKeys`, `Sorting`). The accumulating loops are methods proved to
  return a group-by of the event list; conservation, bounds and independence of order are lemmas
  about the group-by. A time series is characterised by what it means (strictly increasing multiples
  of 600, each carrying the sum of all events so far), not by the reduction that builds it.
- **Documents** (`QuillDelta`, `QuillText`, `SmartTrim`). The three loops of
  `preprocessQuillDeltaForRendering` are one method; its result is related to the input by reading
  the groups back as a document (`Flat`).
- **Poll calendar** (`PollCalendar`), over all instants of the proleptic Gregorian calendar.
- **Search** (`SearchUnion`). ORDER BY and LIMIT are relations, since rows with equal times may come in
  any order.
- **Addresses** (`Addresses`, `AddressTable`): the requests as functions on the table, the class that
  changes the rows, and statements about every run.
- **Threads and comments** (`VersionHistory`, `Threads`, `Comments`).
- **Invite links** (`InviteLinks`).
- **Migrations** (`RoleMerge`, `CommentIdMigration`, `SubscriptionPairing`).

Where a class method changes state, its contract equates the new state with a specification function
of the old one, and the theorems are about that function and its runs. The class of the address table
also carries the invariant from method to method.

## Where the code differs from what is said about it

- **Poll end.** The comment in `shared/utils.ts:2-3` promises the 1st or the 15th. The code ends polls
  at the start of the 16th, or at the last millisecond of the 1st or of the 15th
  (`PollEndsOnSchedule`). The promise is kept if and only if the poll starts after the 10th
  (`PromisedDayIff`, with the example `JunePollClosesOnThe16th`).
- **Linked addresses.** `isOriginalTokenValid` in
  `server/routes/linkExistingAddressToChain.ts:68` is true exactly for an expired token. So an expired
  token is handed on, and any other is replaced (`LinkedTokenIsUsable`, with the example
  `ExpiredTokenIsHandedOn`).
- **Invite links.** The limit `30d` can be stored but is no case of the switch in
  `server/routes/acceptInviteLink.ts:45-73`, so such a link never mints a code; neither does a link made for a
  chain, whose `community_id` is empty (`SomeLinksNeverMint`). `24h` lasts until just before 25 hours
  have passed, and likewise the longer limits (`InTimeIff`, with the example `LateByHalfAnHour`). The reactivation in
  `server/routes/createInviteLink.ts:56-58` never changes anything (`ReactivationChangesNothing`).
- **Comment ids.** The root that the migration computes is right exactly for top-level comments and
  direct replies (`ComputedRootIsTrueRoot`, with the example `NestedReplyIsMisfiled`).
- **Role uniqueness.** Rows with both a chain and a community are in neither grouping query. The unique
  indexes can be added if and only if no such row clashes with another row (`IndexableIffNoMixedClash`,
  with the example `MixedRowBlocksIndex`).
- **Code blocks.** A merged block keeps the line attributes of its first line only. All attributes
  survive if and only if successive code lines agree on theirs (`NothingIsLost`, with the example
  `MergedBlockLosesAttributes`).
- **Signals.** The totals depend only on the set of contracts, but a contract is credited to the key
  of its first signal (`FirstSignalWins`), so the per-key map depends on the order
  (`OrderDecidesTheKey`, `TwoSignalsInTwoOrders`).
- **Times of points.** The charts look up the time of every point of every series
  (`client/scripts/views/stats/edgeware.ts:230-275`), but only the first point of the series of all
  events is entered in the table. The first point of the lock, signal or ether series has a time if
  and only if some event is rounded up to it or it is also the first point of all events
  (`TimesOfPoints`, `AllTimedIff`, with the example `LockSeriesWithoutTime`).
- **Edited comments.** The discussion of an edited comment is looked up after the edit was saved
  (`server/routes/editComment.ts:79-100`). If it is gone, the answer is an error and the edit stays
  (`StoredEdits`).
- **Comment round trips.** Going up and down again turns a top-level comment of any other type into
  one on a proposal (`DownAfterUp`, with the example `OtherTypeIsForgotten`); going down and up again
  misfiles replies to replies (`UpAfterDown`, with the example `NestedReplyIsNotRestored`).
- **Series of one kind.** With locks but no signals, or the reverse, `getCountsByBlock` fails on the first event
  of the empty list (`GetCountsByBlock`).

## Model

| member | source | states |
|---|---|---|
| LockdropKeys.OrdinaryKeyIsItself | server/routes/getEdgewareLockdropStats.ts:144-149 | an ordinary 66-character key is credited as itself, whatever is appended to it |
| LockdropKeys.ShortSubmissionIsKept | server/routes/getEdgewareLockdropStats.ts:145-146 | a shorter submission is kept as it is |
| LockdropKeys.CreditedToOrdinaryKey | server/routes/getEdgewareLockdropStats.ts:144-149 | exactly which submissions are credited to an ordinary key |
| LockdropValue.BonusByDate | server/routes/getEdgewareLockdropStats.ts:58-82 | the bonus falls with every fifteen days after midnight UTC on 16 June 2019, a date computed by the calendar of the polls |
| LockdropValue.LockValueByTariff | server/routes/getEdgewareLockdropStats.ts:84-108 | a lock is worth its amount times the percentages of term and date, rounded down: 100, 130 or 220 for the terms "0", "1", "2" |
| LockdropValue.ValueWithoutTime | server/routes/getEdgewareLockdropStats.ts:84-108 | without a time there is no bonus, and a signal is worth a fifth |
| LockdropValue.EarlierOrLargerLockIsWorthMore | server/routes/getEdgewareLockdropStats.ts:58-108 | the bonus never rises with the lock time; an earlier or larger lock of the same term is worth at least as much |
| LockdropValue.LockValueBounds | server/routes/getEdgewareLockdropStats.ts:92-100 | a lock of a valid term is worth at least its amount and at most 1.5, 1.95 or 3.3 times it |
| LockdropValue.GeneralizedLockIsExact | server/routes/getEdgewareLockdropStats.ts:307-310 | a generalised lock is valued exactly, without rounding loss |
| LockdropValue.SplittingLosesLittle | server/routes/getEdgewareLockdropStats.ts:84-108 | splitting a lock into n locks of the same term and bonus never gains and loses at most n-1 units |
| LockdropHoldings.CreditExtends | server/routes/getEdgewareLockdropStats.ts:210-223 | crediting one event to the per-key map is the same as grouping the longer event list from scratch |
| LockdropHoldings.GroupingConserves | server/routes/getEdgewareLockdropStats.ts:210-223 | per-key amounts, values and address lists add up to those of all contributions, for locks and signals alike |
| LockdropHoldings.ListedUnderOwnKey | server/routes/getEdgewareLockdropStats.ts:210-223 | an address is listed under a key if and only if a contribution from it was made for that key |
| LockdropLocks.CalculateEffectiveLocks | server/routes/getEdgewareLockdropStats.ts:139-237 | the loop returns the group-by of the event list: maps by key, validator map over the validator events, totals, owners |
| LockdropLocks.LocksConserveTotals | server/routes/getEdgewareLockdropStats.ts:179-223 | per-key amounts sum to the total locked, per-key effective values to the effective total, address lists to all lock addresses with multiplicity |
| LockdropLocks.LocksPerKey | server/routes/getEdgewareLockdropStats.ts:151-223 | each key holds exactly what its own locks, or its own validators' locks, add up to, newest address first; which keys there are; every event counts |
| LockdropLocks.OrdinaryLockIsReported | server/routes/getEdgewareLockdropStats.ts:144-223 | a lock submitted with an ordinary key is reported under that very key, with its address, amount, owner and validator flag |
| LockdropLocks.LockValueOfEvent | server/routes/getEdgewareLockdropStats.ts:179 | the value of a reported lock is that of the tariff at its own term and time |
| LockdropLocks.TotalsByTerm | server/routes/getEdgewareLockdropStats.ts:180-191 | one more lock adds its amount to the total and to that of its own term only, and its value to the effective total |
| LockdropLocks.ValidatorsWithinLocks | server/routes/getEdgewareLockdropStats.ts:193-223 | a key is a validator key exactly when one of its locks says so; its holding is within the key's full holding |
| LockdropLocks.OwnersAreDistinctAndComplete | server/routes/getEdgewareLockdropStats.ts:171-177 | each key lists exactly the owners who locked for it, each once |
| LockdropLocks.OwnersKeepTheirPlace | server/routes/getEdgewareLockdropStats.ts:171-177 | owners are listed in the order of their first locks |
| LockdropLocks.TermValueBounds | server/routes/getEdgewareLockdropStats.ts:179-191 | one event's value against its three term totals |
| LockdropLocks.EffectiveTotalBounds | server/routes/getEdgewareLockdropStats.ts:179-191 | T3+T6+T12 is at most the total and the effective total; 100 times the effective total is at most 150 T3 + 195 T6 + 330 T12; valid terms partition the total |
| LockdropSignals.CalculateEffectiveSignals | server/routes/getEdgewareLockdropStats.ts:257-355 | the loop returns the group-by of the first signal of each contract, generalised locks apart |
| LockdropSignals.TotalsArePerContract | server/routes/getEdgewareLockdropStats.ts:276-343 | the totals are one balance and one value per distinct contract, summed over the set of contracts |
| LockdropSignals.GeneralizedTable | server/routes/getEdgewareLockdropStats.ts:23-29 | which contracts are generalised locks |
| LockdropSignals.SignalsPerKey | server/routes/getEdgewareLockdropStats.ts:276-341 | a key holds the balances of the plain contracts whose first signal names it, and a fifth of each as value; its generalised locks hold their whole balances |
| LockdropSignals.SignalsAreDeducted | server/routes/getEdgewareLockdropStats.ts:319-340 | per key, five times the effective value is the amount, up to four units for each contract |
| LockdropSignals.EffectiveTotalBySort | server/routes/getEdgewareLockdropStats.ts:307-341 | the effective total is the whole balance of generalised locks and a fifth of every other contract's |
| LockdropSignals.SignalsAreCounted | server/routes/getEdgewareLockdropStats.ts:351 | every event is counted, so the count is that of the contracts if and only if none signals twice |
| LockdropSignals.TotalsDependOnContractsOnly | server/routes/getEdgewareLockdropStats.ts:276-343 | reordering or repeating signals changes neither total |
| LockdropSignals.SignalsConserveTotals | server/routes/getEdgewareLockdropStats.ts:307-341 | per-key amounts plus generalised locks sum to the total signalled, and the same for the effective total |
| LockdropSignals.EveryContractListedOnce | server/routes/getEdgewareLockdropStats.ts:276-341 | over all keys every contract that is not a generalised lock is listed exactly once, and no other |
| LockdropSignals.FirstSignalWins | server/routes/getEdgewareLockdropStats.ts:276-288 | a contract is listed under a key if and only if it is no generalised lock and its first signal names that key |
| LockdropSignals.OrdinarySignalIsReported | server/routes/getEdgewareLockdropStats.ts:282-341 | a first signal with an ordinary key is reported under that very key |
| LockdropSignals.ListedInOrder | server/routes/getEdgewareLockdropStats.ts:332 | later signals only append to a key's list of contracts |
| LockdropSignals.OrderDecidesTheKey | server/routes/getEdgewareLockdropStats.ts:276-288 | two signals of one contract for different keys give different maps in their two orders |
| LockdropSignals.TwoSignalsInTwoOrders | server/routes/getEdgewareLockdropStats.ts:276-288 | a concrete pair of signals whose order matters to the map |
| LockdropSignals.FirstSignalsCoverContracts | server/routes/getEdgewareLockdropStats.ts:276-280 | ignoring repeated signals loses no contract |
| BlockSeries.ReduceOverBlocks | server/routes/getEdgewareLockdropStats.ts:381-396 | strictly increasing multiples of 600, each y the sum of all events up to x, a point for every quantised block |
| BlockSeries.RoundingTo600 | server/routes/getEdgewareLockdropStats.ts:379-395 | rounding goes to the next multiple of 600 above and below |
| BlockSeries.SeriesEndsWithTotal | server/routes/getEdgewareLockdropStats.ts:398-405 | a series of counts ends with the number of events, one of amounts with all their wei |
| BlockSeries.AddEventKeepsSeries | server/routes/getEdgewareLockdropStats.ts:382-394 | one step of the reduction extends a series of some events to a series of one more |
| BlockSeries.SeriesReadsAsSum | server/routes/getEdgewareLockdropStats.ts:381-396 | read as a step function at any block, a series is the sum of all events up to the last multiple of 600 |
| BlockSeries.AllEventsSeriesIsSum | server/routes/getEdgewareLockdropStats.ts:367-402 | the series of all events is the lock series plus the signal series at every block, however ties were sorted |
| BlockSeries.BlocknumToTime | server/routes/getEdgewareLockdropStats.ts:409-419 | exactly the blocks, their quantised blocks and the first point have a time: at the first point the first event's, elsewhere that of the last event at, or rounded up to, the block |
| BlockSeries.TimedBlocks | server/routes/getEdgewareLockdropStats.ts:409-419 | exactly which blocks have a time |
| BlockSeries.BlockHasItsLastTime | server/routes/getEdgewareLockdropStats.ts:411-416 | the time of an event's block is that of the last event in it, unless the block is the first point |
| BlockSeries.EveryPointHasATime | server/routes/getEdgewareLockdropStats.ts:400-419 | every point of the series of all events has a time: the first that of the first event, each other that of the last event it counts |
| BlockSeries.TimesOfPoints | server/routes/getEdgewareLockdropStats.ts:398-419 | for a series of some of the events: every later point has the time of the last of all events up to it; the first point has a time if and only if some event is rounded up to it or it is the first point of all events |
| BlockSeries.AllTimedIff | server/routes/getEdgewareLockdropStats.ts:398-419 | so all points of a series have a time exactly under that condition on its first event |
| BlockSeries.LockSeriesWithoutTime | server/routes/getEdgewareLockdropStats.ts:398-419 | a signal at block 100 and a lock at block 1300: the lock series starts at block 1200, which has no time |
| BlockSeries.SortByBlockSorts | server/routes/getEdgewareLockdropStats.ts:370-372 | the sort orders by block number and permutes |
| BlockSeries.GetCountsByBlock | server/routes/getEdgewareLockdropStats.ts:357-434 | which inputs fail and how; otherwise four series and the totals they end with, their additivity, the last block, times for all points of the series of all events, and for the three other series exactly when their points all have one |
| BlockSeries.MaxBlock | server/routes/getEdgewareLockdropStats.ts:421 | the maximum is the block of the last sorted event |
| QuillDelta.PreprocessQuillDeltaForRendering | shared/utils.ts:81-130 | the three loops compute the specification the next rows are about |
| QuillDelta.TokensAreTokens | shared/utils.ts:86 | every piece of a cut text has no newline except perhaps at its end |
| QuillDelta.TokensSplitAfterNewline | shared/utils.ts:86 | cutting a text may start afresh after any newline |
| QuillDelta.SplitAfterNewlineIsInvisible | shared/utils.ts:83-93 | splitting a text operation right after a newline leaves the result unchanged |
| QuillDelta.FeedKeepsCanonical | shared/utils.ts:97-113 | each node keeps the finished groups proper, complete and with no adjacent code blocks |
| QuillDelta.ResultIsWellFormed | shared/utils.ts:94-127 | only the last group may lack a newline, other groups than code blocks have one at the end only, code blocks are merged, no blank group ends the result |
| QuillDelta.TrimIsPrefix | shared/utils.ts:120-127 | trimming drops exactly the blank groups at the end |
| QuillDelta.TrimmedExactly | shared/utils.ts:120-127 | in terms of content alone: exactly the groups at the end that consist of a single newline are gone |
| QuillDelta.FeedAppends | shared/utils.ts:97-113 | each node adds just itself to the document the state stands for, a merged code line with the attributes of the line break before it |
| QuillDelta.NothingIsLost | shared/utils.ts:81-130 | the result read back, plus one blank line per trimmed group, is the input line by line, merged code lines having their first line's attributes; so it is the input itself if and only if successive code lines have equal attributes |
| QuillDelta.KeptIff | shared/utils.ts:97-113 | grouping keeps all line attributes if and only if any two code-line breaks with no break between them have the same |
| QuillDelta.OnlyCodeIsMerged | shared/utils.ts:97-118 | without code blocks, lists and headings included, every line is a group of its own and all attributes survive |
| QuillDelta.MergedBlockLosesAttributes | shared/utils.ts:100-104 | a plain code line followed by a python one: the second comes back plain |
| QuillDelta.ContentIsPreserved | shared/utils.ts:81-130 | the children's characters and embeds in order, plus one newline per trimmed group, are exactly the input's |
| QuillDelta.PreparationIsStable | shared/utils.ts:81-130 | reading the result back as a document and preparing it again gives the same groups |
| QuillText.TrimmingIsInvisibleInText | shared/utils.ts:132-142 | the plain text is that of the untrimmed groups: blank lines dropped at the end never show |
| QuillText.RenderedParagraphs | shared/utils.ts:132-142 | every paragraph is one non-empty line without double spaces |
| QuillText.TextDeterminesParagraphs | shared/utils.ts:141 | two documents give the same text exactly when they give the same paragraphs |
| QuillText.VisibleTextIsKept | shared/utils.ts:132-142 | up to white space, the text of a document is the text of its operations in order, with a label for every image, tweet and video |
| QuillText.PiecesAreSeparated | shared/utils.ts:140 | two pieces of a line are separated by one space |
| QuillText.CollapseKeepsSingleSpaced | shared/utils.ts:140 | text without double spaces is left as it is |
| QuillText.SpacesByNumber | shared/utils.ts:135 | which characters are white space, by code number |
| SmartTrim.TrimmedShape | shared/utils.ts:57-65 | short text unchanged; longer text cut after its last word character within the limit, with an ellipsis; length at most maxLength+3 |
| SmartTrim.WordCharactersByNumber | shared/utils.ts:59 | which characters are word characters, by code number |
| SmartTrim.CutIsUnique | shared/utils.ts:59-61 | there is only one such cut |
| SmartTrim.SmartTrimIsIdempotent | shared/utils.ts:57-65 | trimming twice to the same length is trimming once, for every text and length |
| PollCalendar.MonthStartStep | shared/utils.ts:8-10 | the calendar's closed formula agrees with month lengths and leap years |
| PollCalendar.MonthOfYear | shared/utils.ts:8-10 | the start and length of each month of a year, leap years by the Gregorian rule |
| PollCalendar.CalendarIsGregorian | shared/utils.ts:8-10 | day 0 is 1 January of year 0, and 400 years have 146097 days |
| PollCalendar.KnownDates | shared/utils.ts:8-10 | the distance in days of six known dates |
| PollCalendar.FindMonth | shared/utils.ts:8-10 | the month found for a day contains it |
| PollCalendar.MonthContains | shared/utils.ts:8-10 | an instant is between the start and the end of its month, which span its days |
| PollCalendar.PollDuration | shared/utils.ts:1-16 | a poll is open strictly more than 5 and strictly less than 22 days |
| PollCalendar.PollDurationIsTight | shared/utils.ts:1-16 | both bounds are reached up to one millisecond, in every month of 31 days |
| PollCalendar.PollEndIsMonotone | shared/utils.ts:1-16 | a poll started later never closes earlier, across months and leap years |
| PollCalendar.PollEndsOnSchedule | shared/utils.ts:1-16 | the day and time of day every poll ends on, and for which instants each of the three days is chosen |
| PollCalendar.PromisedDayIff | shared/utils.ts:2-15 | a poll ends on the 1st or 15th if and only if it is started after the 10th of a month |
| PollCalendar.JunePollClosesOnThe16th | shared/utils.ts:8-13 | a poll started at midnight on 1 June 2021 ends on the 16th |
| SearchUnion.PushdownIsSound | server/routes/search.ts:52-88 | a page of the union of two branch pages is a page of the whole union |
| SearchUnion.PushdownIsComplete | server/routes/search.ts:52-88 | every page of the whole union can be obtained that way |
| SearchUnion.PushdownIsExact | server/routes/search.ts:52-88 | limiting the branches changes nothing: the possible results are exactly the pages of the union, for every limit, ties included |
| SearchUnion.SearchResultTimes | server/routes/search.ts:52-88 | the created_at sequence is the first k of the fully sorted union |
| SearchUnion.SearchAnswers | server/routes/search.ts:39-100 | refused exactly under four characters; otherwise the newest rows of both kinds, newest first, as many as there are up to 50; none is invented and none left out is newer |
| Addresses.StepKeepsGood | server/models/address.ts:144-201 | every request keeps verified rows owned and (address, chain) unique, and removes or renames no row |
| Addresses.RunKeepsGood | server/models/address.ts:332-360 | the same for every run of creating, refreshing, verifying, deleting, linking and merging |
| Addresses.VerifyRefused | server/routes/verifyAddress.ts:31-61 | an invalid signature, or one for an unknown or expired address, changes nothing |
| Addresses.SignatureDecidesOwner | server/models/address.ts:332-362 | who owns a verified row: the logged-in user, else the owner there is, else a new user who owns no other row; nothing else changes |
| Addresses.RunKeepsOwners | server/models/address.ts:334-353 | in every run of requests by existing users, every owner is a user that was created |
| Addresses.StrangersAreTwoUsers | server/models/address.ts:338-353 | two visitors who sign up with two addresses at any two moments of a run are two users |
| Addresses.CreateClaims | server/routes/createAddress.ts:36-47 | exactly when a create request takes an existing row; the token is renewed, verification and all other rows stay |
| Addresses.NewAddress | server/models/address.ts:153-165 | a new row is the requester's, unverified, with a token for ten minutes |
| Addresses.CreateNeedsChain | server/routes/createAddress.ts:24-30 | a create request for an unknown chain changes nothing |
| Addresses.ProfileRowIsInert | server/models/address.ts:144-151 | an address seen on the chain gets a row only if it has none; nobody owns it and no signature for it is accepted |
| Addresses.DeleteDisowns | server/routes/deleteAddress.ts:26-40 | a delete takes effect exactly for the owner of a row that is no magic row |
| Addresses.DeletedIsFree | server/routes/createAddress.ts:41-47 | what its owner deleted, any other user may take over at once |
| Addresses.CreateThenVerify | server/routes/verifyAddress.ts:38-61 | whoever owned the row, a create request followed by a valid signature makes the requester its verified owner for ten minutes and changes nothing afterwards; no other row changes |
| Addresses.VerifiedOwnerChanges | server/routes/createAddress.ts:36-72 | a verified row changes owner only by a valid signature, its owner's deletion, a link by the owner of a verified original, or its owner's email login; never by a create request |
| Addresses.StepVerifiesBySignature | server/models/address.ts:334-359 | a request verifies a key pair only with a valid signature by it |
| Addresses.RunVerifiesBySignature | server/models/address.ts:334-359 | in every run a verified key pair was verified at the start or signed during the run, links included |
| Addresses.RefreshTokensAt | server/routes/linkExistingAddressToChain.ts:78-87 | which rows the bulk update gives the new token, and that it changes nothing else |
| Addresses.LinkNeedsOriginal | server/routes/linkExistingAddressToChain.ts:42-57 | without a verified original of the user, or for an unknown chain, nothing changes |
| Addresses.LinkGivesAddress | server/routes/linkExistingAddressToChain.ts:90-126 | otherwise the re-encoded address is the user's; an existing row keeps its verification, a new one has the original's; other rows keep all but tokens |
| Addresses.LinkRefreshesTokens | server/routes/linkExistingAddressToChain.ts:70-88 | exactly which other rows get the fresh token, also when the address cannot be re-encoded; nothing else about them changes |
| Addresses.LinkedTokenIsUsable | server/routes/linkExistingAddressToChain.ts:65-125 | the linked row's token is turned away exactly when the original's had expired or ten minutes have passed |
| Addresses.ExpiredTokenIsHandedOn | server/routes/linkExistingAddressToChain.ts:65-125 | a run that meets this: create, verify, ask for a new token, wait ten minutes, link; the linked address cannot be verified at once |
| Addresses.MergeMovesVerifiedRows | server/routes/finishEmailLogin.ts:58-68 | verified rows of the session's user go to the found user, who lets go of unverified ones; no other row changes |
| Addresses.MergeUnitesVerifiedRows | server/routes/finishEmailLogin.ts:58-68 | the found user's verified rows are afterwards those of both users, the session's user has none, other users keep theirs, and merging again changes nothing |
| Addresses.EmailLoginMerges | server/routes/finishEmailLogin.ts:26-89 | exactly when a login merges rows and when it creates a user; an expired token does neither |
| AddressTable.AddressStore.Find | server/routes/createAddress.ts:32-34 | the first matching row, or none if no row matches |
| AddressTable.AddressStore.CreateEmptyAddress | server/eventHandlers/profileCreation.ts:53-62 | an unknown address gets a row without owner whose token is already expired |
| AddressTable.AddressStore.Create | server/routes/createAddress.ts:24-92 | the new table is the specified one, including unknown chains and rows of other users |
| AddressTable.AddressStore.Verify | server/routes/verifyAddress.ts:31-61 | expired tokens and invalid signatures change no owner; a valid one verifies the row for the user or a new user |
| AddressTable.AddressStore.Delete | server/routes/deleteAddress.ts:26-44 | only the owner's own row, and no magic row, loses owner and verification |
| AddressTable.AddressStore.UpdateTokens | server/routes/linkExistingAddressToChain.ts:71-87 | the loop over the rows is the bulk update |
| AddressTable.AddressStore.Link | server/routes/linkExistingAddressToChain.ts:37-126 | the new table is the specified one, on every error path too |
| AddressTable.AddressStore.SetAddresses | server/routes/finishEmailLogin.ts:59-67 | the association setter reassigns both users' rows as specified |
| AddressTable.AddressStore.EmailLogin | server/routes/finishEmailLogin.ts:24-110 | merge, set the email, or create a user, as specified; nothing for an expired token |
| RoleMerge.RoleTable.Query | server/migrations/20200409233540-add-uniqueness-constraint-to-roles.js:6-13 | every duplicated key of one kind once, with its ids and permissions |
| RoleMerge.RoleTable.BulkDelete | server/migrations/20200409233540-add-uniqueness-constraint-to-roles.js:17-22 | exactly the given ids go |
| RoleMerge.RoleTable.DeleteBoth | server/migrations/20200409233540-add-uniqueness-constraint-to-roles.js:15-22 | exactly the ids of both queries go |
| RoleMerge.RoleTable.BulkInsert | server/migrations/20200409233540-add-uniqueness-constraint-to-roles.js:36-43 | the rows come in order under new ids, all others stay |
| RoleMerge.RoleTable.Up | server/migrations/20200409233540-add-uniqueness-constraint-to-roles.js:5-44 | duplicates are gone, one new row per duplicated key, every other row as before |
| RoleMerge.NobodyLoses | server/migrations/20200409233540-add-uniqueness-constraint-to-roles.js:24-43 | every old role has a new one in the same place with at least its permission |
| RoleMerge.NobodyGains | server/migrations/20200409233540-add-uniqueness-constraint-to-roles.js:24-43 | every new role is in the place of an old one that had exactly its permission |
| RoleMerge.PermissionsSurvive | server/migrations/20200409233540-add-uniqueness-constraint-to-roles.js:24-43 | an admin stays an admin of the same place, a moderator a moderator or an admin |
| RoleMerge.PermissionsWereHeld | server/migrations/20200409233540-add-uniqueness-constraint-to-roles.js:24-43 | every new role equals an old one |
| RoleMerge.UnduplicatedUntouched | server/migrations/20200409233540-add-uniqueness-constraint-to-roles.js:5-44 | a role without a duplicate keeps its row and id |
| RoleMerge.IndexableIffNoMixedClash | server/migrations/20200409233540-add-uniqueness-constraint-to-roles.js:46-48 | the unique indexes can be added if and only if no row with both a chain and a community clashes with another |
| RoleMerge.MixedRowBlocksIndex | server/migrations/20200409233540-add-uniqueness-constraint-to-roles.js:46-48 | one role in both a chain and a community beside a role in the chain prevents the index |
| RoleMerge.ExactlyOneIsIndexable | server/migrations/20200409233540-add-uniqueness-constraint-to-roles.js:46-48 | with exactly one of the two in every row, at most one role per place is left |
| CommentIdMigration.CommentTable.PopulateRootIds | server/migrations/20200221195234-switching-comment-id-system-ii.js:19-31 | fails exactly when a reply's parent is missing; otherwise every comment has its new ids |
| CommentIdMigration.CommentTable.MigrateUp | server/migrations/20200221195234-switching-comment-id-system-ii.js:6-43 | all rows are rewritten, or none when a parent is missing |
| CommentIdMigration.CommentTable.MigrateDown | server/migrations/20200221195234-switching-comment-id-system-ii.js:61-75 | every row is rewritten as specified |
| CommentIdMigration.DownAfterUp | server/migrations/20200221195234-switching-comment-id-system-ii.js:14-75 | up then down restores all parents and types if and only if every row is a reply or a "proposal" with a parent id |
| CommentIdMigration.OtherTypeIsForgotten | server/migrations/20200221195234-switching-comment-id-system-ii.js:22-74 | a top-level comment of another parent type comes back as a comment on a proposal |
| CommentIdMigration.UpAfterDown | server/migrations/20200221195234-switching-comment-id-system-ii.js:14-75 | down then up succeeds and restores the table if and only if every reply agrees with its parent about the root |
| CommentIdMigration.NestedReplyIsNotRestored | server/migrations/20200221195234-switching-comment-id-system-ii.js:14-75 | a reply to a reply that is filed under its discussion comes back filed under a comment |
| CommentIdMigration.OneLevelTablesRoundTrip | server/migrations/20200221195234-switching-comment-id-system-ii.js:14-75 | so it does when every parent is top level with the same root |
| CommentIdMigration.ComputedRootIsTrueRoot | server/migrations/20200221195234-switching-comment-id-system-ii.js:14-27 | the computed root is the end of the parent chain if and only if the chain has at most one step |
| CommentIdMigration.NestedReplyIsMisfiled | server/migrations/20200221195234-switching-comment-id-system-ii.js:14-27 | a reply to a reply is filed under a comment instead of its discussion |
| SubscriptionPairing.FindIndex | server/migrations/20200827191721-create-missing-reaction-subscriptions.js:15 | the first subscription of the object, or -1 if there is none |
| SubscriptionPairing.PairCancels | server/migrations/20200827191721-create-missing-reaction-subscriptions.js:14-20 | splicing out a subscription and the next of its object leaves the same unpaired ones |
| SubscriptionPairing.FindOrphans | server/migrations/20200827191721-create-missing-reaction-subscriptions.js:12-21 | the splicing loop ends, and its orphans are those of a single left-to-right pairing pass, in order |
| SubscriptionPairing.OrphansAreOddOnes | server/migrations/20200827191721-create-missing-reaction-subscriptions.js:12-21 | an object is orphaned (count mod 2) times, and the orphan is its last subscription |
| SubscriptionPairing.CreateMissingReactionSubscriptions | server/migrations/20200827191721-create-missing-reaction-subscriptions.js:9-26 | the rows plus one reaction subscription per orphan |
| SubscriptionPairing.MigratedCounts | server/migrations/20200827191721-create-missing-reaction-subscriptions.js:12-26 | comment counts stay; reaction counts grow by one for odd objects only |
| SubscriptionPairing.InsertedRows | server/migrations/20200827191721-create-missing-reaction-subscriptions.js:24-26 | every inserted row is for an object with an odd number, as active as its last subscription; old rows stay |
| SubscriptionPairing.BothCategoriesIff | server/migrations/20200827191721-create-missing-reaction-subscriptions.js:12-26 | an object ends with both categories if and only if it had a comment subscription and a reaction one or an odd number |
| SubscriptionPairing.ExactlyOneOfEach | server/migrations/20200827191721-create-missing-reaction-subscriptions.js:12-26 | with at most one per category and every reaction having a comment twin, each object ends with exactly one of each |
| VersionHistory.RecordedIsWellKept | server/routes/editThread.ts:81-98 | one edit keeps the head current and neighbours different, and the old history is a suffix |
| VersionHistory.RunIsWellKept | server/routes/createThread.ts:83-90 | over every run the history is well kept and is exactly the body changes, newest first, and the first version |
| VersionHistory.HistoriesAreSuffixes | server/routes/editComment.ts:55-70 | every earlier history is a suffix of every later one |
| VersionHistory.LastEditedIsLastChange | server/util/getLastEdited.ts:1-12 | undefined exactly when no edit changed the body, else the time of the last edit that did |
| Threads.Thread.constructor | server/routes/createThread.ts:83-114 | a new thread has its fields and one version, its decoded body |
| Threads.Thread.CreateThread | server/routes/createThread.ts:83-144 | a body that cannot be decoded is refused; otherwise the new thread starts the history the run theorems speak of |
| Threads.Thread.Edit | server/routes/editThread.ts:22-118 | the saved fields and history, or the error and no change; a refused link saves nothing |
| Threads.EditSaves | server/routes/editThread.ts:22-118 | exactly when an edit is saved, what it saves, and why it is refused |
| Threads.RefusedEditsLeaveNoTrace | server/routes/editThread.ts:22-118 | a run ends as if its refused edits had never been asked for |
| Threads.LastSavedEditWins | server/routes/editThread.ts:99-118 | after a run: body and stage of the last saved edit, the last title and link that were given |
| Threads.RunKeepsHistory | server/routes/editThread.ts:81-118 | whatever edits are refused, the stored history is that of the saved ones and the stored body decodes to its head |
| Threads.ThreadHistory | server/routes/editThread.ts:81-118 | the stored history is well kept and dates the last change correctly after any run |
| Comments.CommentStore.Create | server/routes/createComment.ts:42-198 | the whole new table (row, parent's child list, destroyed row) and the answer, in every case |
| Comments.CommentStore.Edit | server/routes/editComment.ts:47-100 | the whole new table and the answer, which may be an error although the edit is stored |
| Comments.CommentStore.Delete | server/routes/deleteComment.ts:22-46 | the row is marked deleted and nothing else changes; refused exactly for others' or deleted comments |
| Comments.CreateKeepsGood | server/routes/createComment.ts:53-129 | creating keeps the forest, fresh ids and well-kept histories |
| Comments.EditKeepsGood | server/routes/editComment.ts:55-79 | editing keeps them |
| Comments.DeleteKeepsGood | server/routes/deleteComment.ts:44-45 | deleting keeps them |
| Comments.EmptyIsGood | server/models/offchain_comment.ts:43-64 | they hold of the empty table |
| Comments.WrittenIff | server/routes/createComment.ts:42-82 | a request is refused exactly for bad text, a parent that is not visible in the same place, no root, or nothing to say |
| Comments.CreateWrites | server/routes/createComment.ts:84-198 | the row that is written, its place in its parent's list, whether it is visible, and that nothing else changes |
| Comments.CreateAnswers | server/routes/createComment.ts:42-198 | which answer stands for which case; success is the id of a visible comment |
| Comments.EditReplaces | server/routes/editComment.ts:49-79 | an edit by the owner of a visible comment replaces text and history only; any other changes nothing |
| Comments.EditAnswers | server/routes/editComment.ts:47-100 | which answer stands for which case |
| Comments.DeleteHides | server/routes/deleteComment.ts:22-45 | a delete by the owner hides the comment and keeps the rest of it; any other changes nothing |
| Comments.HiddenIff | server/routes/deleteComment.ts:22-45 | in every run, a comment is hidden exactly if its owner deleted it or its discussion was missing or read-only when it was written |
| Comments.StepKeepsGood | server/routes/createComment.ts:106-198 | every request keeps them, and no row changes its place, loses a child or rewrites history |
| Comments.RunKeepsGood | server/routes/createComment.ts:106-198 | the same for every run, deleted rows included |
| Comments.StoredEdits | server/routes/editComment.ts:47-100 | an edit is stored if and only if the answer is success or the missing discussion; any other error leaves the table as it was |
| Comments.StepOnComment | server/routes/editComment.ts:55-79 | which requests change a comment's text or history, and how |
| Comments.RunKeepsHistories | server/routes/createComment.ts:84-108 | a comment exists after a run exactly if a request of the run created it; its history and text are those of the stored edits |
| Comments.CommentHistory | server/routes/editComment.ts:55-79 | its history is exactly the stored changes, newest first, and its first version, and it is dated by the last of them |
| Comments.ReplyListedOnce | server/routes/createComment.ts:124-128 | a reply is listed exactly once by its parent and by no other comment |
| Comments.SubtreeCounts | server/routes/createComment.ts:124-128 | below a comment are exactly its descendants, each once |
| Comments.WalkMeetsEveryCommentOnce | server/routes/createComment.ts:53-129 | walking from the top-level comments through the child lists meets every comment exactly once |
| InviteLinks.InviteDesk.FindOpenInvite | server/routes/acceptInviteLink.ts:76-86 | whether an unused code for the community and email exists |
| InviteLinks.InviteDesk.AcceptInviteLink | server/routes/acceptInviteLink.ts:19-120 | the whole new state and the answer, on every path |
| InviteLinks.InviteDesk.FindForeverLink | server/routes/createInviteLink.ts:44-54 | a matching unlimited link, or none if there is none |
| InviteLinks.InviteDesk.CreateInviteLink | server/routes/createInviteLink.ts:35-77 | the whole new state, with the lookup's choice among several links left open |
| InviteLinks.MintsIff | server/routes/acceptInviteLink.ts:19-105 | exactly when a request mints a code, with the last instant of every time limit |
| InviteLinks.InTimeIff | server/routes/acceptInviteLink.ts:42-74 | the exact last millisecond of every time limit; 30 days is never in time |
| InviteLinks.AcceptChanges | server/routes/acceptInviteLink.ts:32-119 | what each answer changes: a late link is deactivated, a minted code is the user's and a use, otherwise nothing; who is told of an open invite |
| InviteLinks.RedeemedUserMayReturn | server/routes/acceptInviteLink.ts:76-117 | after redeeming the code, the same user is minted another one exactly while the link lasts |
| InviteLinks.RequestMakesLink | server/routes/createInviteLink.ts:35-76 | the link a create request leaves, or the unlimited one it finds; other links and codes stay |
| InviteLinks.InvitedUserIsNotMinted | server/routes/acceptInviteLink.ts:76-86 | a user with an unused invite by email is minted no code for the same community |
| InviteLinks.NewLinkMints | server/routes/createInviteLink.ts:35-73 | exactly when a newly made link mints for its first user, who is then minted no second code |
| InviteLinks.LateByHalfAnHour | server/routes/acceptInviteLink.ts:44-51 | a link for 24 hours mints half an hour after they have passed |
| InviteLinks.RunCountsMints | server/routes/acceptInviteLink.ts:97-111 | in every run the use count grows by exactly the codes minted; a link's terms never change |
| InviteLinks.RunKeepsSound | server/routes/acceptInviteLink.ts:97-117 | no link is used beyond its limit, and a positive limit reached means inactive |
| InviteLinks.LimitedLinkMintsAtMost | server/routes/acceptInviteLink.ts:32-117 | a link with limit n >= 0 mints exactly its use count, at most n, and is inactive after minting n > 0 |
| InviteLinks.InactiveIsForEver | server/routes/createInviteLink.ts:45-61 | an inactive link never becomes active and never mints again |
| InviteLinks.ReactivationChangesNothing | server/routes/createInviteLink.ts:45-61 | in every reachable state a create request leaves all existing links as they are |
| InviteLinks.SomeLinksNeverMint | server/routes/acceptInviteLink.ts:70-95 | a 30-day link or a chain's link never mints in any run |

## Left out

- Interleaving of concurrent requests: handlers read, change and write back without locks; here each is one atomic step.
- Express, passport, sessions, Sequelize and Postgres, including how a model notices that an array mutated in place was changed.
- Email, webhooks, websockets, notifications, mentions and the analytics counters.
- Web3: event lists, balances and the block they are read at are inputs; the retry loop around getBalance and the fetch of the last block are not modelled.
- ethAddrToEvent and edgAddrToETHSignals in the lockdrop reports, the origin and txid labels of series points, and logging.
- BlockSeries.GetCountsByBlock: locked ether is a series of wei integers, not of floating-point ether, and ethSignaledByBlock and effectiveETHByBlock are always empty.
- Event strings are hexadecimal and terms decimal, so object-prototype names as keys and line breaks inside keys do not arise.
- Signature cryptography: its result is a boolean of the request. Addresses are re-encoded for Substrate chains by a partial function.
- JSON text of versions is lossless; decodeURIComponent is any partial function.
- Side effects of the address routes on roles, profiles, names and last-active times; magic logins (magic rows may be there from the start).
- Threads.Thread.Edit: does not model attachments, the author field of a version, or the plaintext column.
- Threads.Thread.constructor: does not model the validation of kinds, topics and links before a thread is created.
- Comments.CommentStore.Create: does not model a failing attachment insert or a failing lookup of an on-chain entity after the comment is written.
- SmartTrim.TrimmedShape: counts characters, where the source counts UTF-16 code units; a character outside the basic plane is two of those, and the source may cut between them.
- SearchUnion.SearchAnswers: the rows that match the term are inputs; the joins, the full-text match, the cast of root ids and NULL times are not modelled.
- CommentIdMigration.CommentTable.MigrateUp: does not model how a printed row is split when an id holds a comma or a quote.
- RoleMerge.RoleTable.Up: does not model created_at, updated_at and is_user_default of the inserted roles.
- SubscriptionPairing.CreateMissingReactionSubscriptions: keeps the category, object and activity of a subscription, not its other columns.
- InviteLinks.RunKeepsSound: says nothing of negative use limits; fractional ones are not modelled, and a clash of random ids is an error.
- getNextOffchainPollEndingTimeIsDangerouslyClose returns nothing; slugify, validURL, formatAddressShort and getProposalUrl are single expressions.
- The client, routing, configuration, chain event handlers other than the creation of empty addresses, and schema-only migrations.
