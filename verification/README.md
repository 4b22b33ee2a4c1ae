# Verified model of the lead-delivery core

The bots of this repository pass leads between managers, partners and closers through
SQLite tables that several processes read and write, with crashes and restarts at any
moment. This project models the parts whose guarantees come from many functions
together, and proves those guarantees for every input, every run and every
interleaving. `dafny verify dfyconfig.toml` checks all of it.

Conventions used throughout:

- A table is a map and a SQL statement with its commit is one atomic step. Where the
  source updates rows in place, a class holds the table and its methods are proved
  against functions on the table's value; the theorems are about those functions.
- Telegram, failing connections, clocks, jitter and random tokens are inputs, so a
  result holds whatever they do. Times are integers; `IsoTime` proves that comparing
  the stored ISO text gives the same order, the argument of section 5.1 of RFC 3339.
- Where a function has several definitions in a file, the last one is modelled, except
  that both halves of the manager bot's event sender are, since the last one delegates.

## The parts

- **Delivery ledger** (`Retries`, `SentRows`, `PollLoop`, `RetryTiming`, `DeliveryLoop`, `EventFates`,
  `Leases`, `FairBatch`). One row per (user, event). `PollLoop` is one loop with a crash between any two steps;
  `DeliveryLoop` is the loop itself, whose ghost history is a run of that machine;
  `Leases` lets any number of workers interleave single statements. `RetryTiming` says when
  the loop comes back to a pair, `EventFates` what becomes of one event.
- **Manual status** (`ManualStatus`, `ManualStatusLaws`, `ManualStatusCodes`). One button press: the
  authoritative store first, then mirrors, then the statistics reader finds it.
- **Transfers** (`Transfers`, `TransferTrace`). Draft, closers, compare-and-set lock, rows, notices,
  and where each row comes from.
- **Partner bot** (`PartnerDelivery`, `PartnerTiming`, `ReserveNotices`, `Windows`). Bounded retries,
  generation-aware notices, day and flight windows.
- **Smaller cores** (`GeoLexicon`, `GeoBurst`, `GeoSources`, `LoginMasks`, `LoginCode`, `ProfileDialog`,
  `PanelQueue`, `StartVerify`), with `Text` and `Wrappers` shared.

## What the proofs found

Properties one would expect that the code does not have. Each line ends with the lemma or
method that shows a case, and the one that says exactly when the property holds.

- Geo bursts: a superscript digit passes `isdigit()` and then makes `int()` raise, so the
  analysis of the combined text falls back to unknown although one message alone is
  known. Case `SuperscriptHidesThePlace`; condition `MergeAgreesUnlessRaised`.
- Geo fields: class and country always fit each other, but the city, or the region, beside
  them may be that of a later place abroad. Case `CityMayBeAbroad`, the message "рф минск";
  condition `CityFollowsFirstMatch`.
- Manual status: the writer passes over a candidate store it cannot read at that moment,
  writes the next one and reports success, and the reader goes on showing the old status.
  Case `PassedOverExample`; condition `WriterMeetsReader`.
- Manual status: the override overlay can come from another store than the row and
  contradict it. Case `OverlayContradictsExample`; condition `ReaderSeesWrite`.
- Transfers: when the transaction fails after some inserts, the pairs gathered so far are
  still announced for rows that were rolled back. The row id is used again, and the next
  transfer's own notice is then ignored as a duplicate. Case `RolledBackIdSwallowsNotice`;
  conditions `PairsPointAtRows` and, over runs, `NoticesMatchRows`.
- Transfers: a committed row stays without a notice when its enqueue raises, when the confirming
  answer or an audit insert ahead of it does, or when the bot restarts in between. Case
  `AbandonedNotice`; condition `AnnouncedUnlessLost`.
- Transfers: a closer key with a comma in it puts three closers on a list of at most two.
  Registered keys match `[a-z0-9_-]+`, so such a key can only come in forged callback data.
  Case `CommaBreaksChoice`; condition `TickKeepsChoice`, over runs `ChoicesStayGood`.
- Transfers: the closer list of a finished draft still changes if a tick was read before the
  lock and is stored after it. It is never used again. Condition `FinalDraftStays`.
- Delivery: a message Telegram accepted is sent again after a crash, a lost save or a save
  that cannot open its connection. Case `AcceptedTwice`; condition
  `AcceptedIsSettledOnlyBySave`.
- Delivery: an exception whose backstop note cannot open its connection leaves the event loop
  and the user loop, and the rest of the batch and all later users go without a turn in that
  pass. Case `AbortedBatch`; condition `PollUser`.
- Delivery: the statements themselves do not protect a `sent_unpersisted` row; the loop
  does. Case `UnpersistedIsReclaimed`; condition `SettledRowIsLeft`.
- Delivery: with several workers a failure note written from an old read can lower the
  attempts count. Case `StaleFailureLowersAttempts`; condition `FailureIsExactUnlessOutdated`.
- Partner delivery: several workers that read before any writes can record more failures
  than the budget, because attempts no longer count them. Case `OutdatedRecordsOverrun`;
  condition `RecordIsExactUnlessOutdated` for one record, `RecordsMatchAttempts` for runs.
- Partner pass: an error the success mark does not catch ends the pass early. Case
  `AbortedPass`; condition `NotifyOnce`.
- Reserve notices: a user is told the same completion twice when the flag write is lost,
  when the process restarts before it, or when the flag cannot be read. Case `ToldTwice`,
  for each of the three; condition `RepeatedUnlessProtected`.
- Reserve notices: a baseline that cannot be read is taken for unset and overwritten with
  the current time, and completions below it that are not yet announced never are. Case
  `UnreadBaselineLosesARow`; conditions `BaselineIsFixed` and `BelowBaselineIsSilent`.
- Reserve notices: a revival completed within the same second as the previous completion
  has the same generation and is not announced. Case `SameSecondRevivalIsSkipped`;
  condition `RevivedIsSentAgain`.
- Login codes: an entity may cut five digits out of a longer number; the plain scan never
  does. Case `EntityCutsANumber`; condition `MarkedIsARun`.
- Login codes: the address, time and date masks never change a result. A match of theirs is made
  of whole digit runs of at most four, so "1.2.3.12345" still shows a code. Case
  `AddressTailIsShown`; condition `NumericMasksAreIdle`.
- Profile dialog: a delivered question whose record fails is asked again and not counted.
  Case and condition `UnrecordedIsRepeated`.
- Panel queue: a finish has no status guard, so a late report overrides a reap. Case
  `LateFinishOverridesReap`; conditions `OutcomeInOneStep` and, over runs,
  `OutcomeKeptUnlessContradicted`.
- Windows: a lead stored under a date that is not its local one can be in no export. Case
  `WrongDateIsLost`; condition `FetchLosesNothing`.
- Start verification: success asks only for a ready phase. Unlike isolation, it checks
  neither the owner nor the age of the status file, so a leftover file is enough. Case
  `LeftoverReadyFileSucceeds`; condition `VerifyStart`.

## Model

| member | source | states |
|---|---|---|
| IsoTime.TextOrderIsTimeOrder | manager_bot.py:4885-4906 | comparing two stored timestamps as text, as the due test does, decides which instant is earlier, both ways |
| IsoTime.TextOrderIsFieldOrder | manager_bot.py:514-543 | text order of fixed-width stamps is the order of their fields, most significant first |
| IsoTime.CalendarIsGregorian | manager_bot.py:514-543 | month lengths, and years of 366 days exactly when leap |
| IsoTime.ClockGoesOn | manager_bot.py:514-543 | the last second of a day or a year is one second before the first of the next |
| Retries.BackoffGrowsToAnHour | manager_bot.py:186-189 | the retry delay never shrinks as attempts grow, stays within a minute and an hour, and reaches the hour at the seventh attempt |
| Retries.BackoffDoubles | manager_bot.py:186-189 | a minute after the first failure, twice as long after each further one, capped at an hour |
| SentRows.SentTable.Claim | manager_bot.py:413-464 | true exactly when this call took the lease; the row then carries the fresh token and expiry, and a `sent` or `sending` row is untouched |
| SentRows.SentTable.MarkSendAttempt | manager_bot.py:192-292 | one failure record by the row function whose attempts, budget and times `RetryTiming` fixes; never touching `sent` |
| SentRows.SentTable.WriteTerminal | manager_bot.py:590-656 | a terminal outcome is written over anything but `sent`, `dead` and other terminal rows, and the flag says whether it was |
| SentRows.SentTable.SaveCardAndSent | manager_bot.py:1944-2064 | three tries on a lock, then the degraded write; true exactly when some write went through, which fixes the row; a connection that cannot be opened raises and changes nothing |
| SentRows.SentTable.RecoverStaleClaims | manager_bot.py:467-558 | an uninterrupted pass recovers exactly the expired claims, leaves none and moves nothing else |
| PollLoop.StepKeepsRows | manager_bot.py:2695-2808 | every step of the loop keeps each row's attempts and claims in bound, leaves saved rows alone, and lowers the energy of any row it changes |
| PollLoop.StepKeepsControl | manager_bot.py:2757-2800 | the events still queued stay unclaimed and the one in hand stays `sending` |
| PollLoop.StepKeepsInv | manager_bot.py:5052-5273 | the invariant of the delivery machine survives every step, a crash or restart included |
| PollLoop.ClaimsAreBounded | manager_bot.py:413-464 | in every run, crashes included, a pair is claimed at most the configured number of times and attempts never exceed it |
| PollLoop.SavedIsFinal | manager_bot.py:5102-5107 | once a save returned True, no later step of any run claims, holds, sends or changes that pair |
| PollLoop.AcceptedIsSettledOnlyBySave | manager_bot.py:2782-2800 | after Telegram accepted a message, the pair is settled if and only if a save goes through, by the full or the degraded write; otherwise its row is left to be sent again |
| PollLoop.AcceptedTwice | manager_bot.py:1983-1985 | a run in which the save cannot connect, the backstop notes a failure, and the message is accepted a second time |
| PollLoop.EnergyFalls | manager_bot.py:467-558 | the total energy of a set of pairs never rises and strictly falls whenever one of their rows changes |
| PollLoop.RunsQuiesce | manager_bot.py:2695-2808 | in a run of any length the rows of a finite set of pairs change a bounded number of times |
| RetryTiming.FailureCountsOne | manager_bot.py:242-250 | in every run a failure of the pair at hand counts one attempt, and is the last exactly if the recipient is gone or the budget is used up |
| RetryTiming.RecoveryCountsOne | manager_bot.py:514-543 | so does a recovered claim, which also loses its lease |
| RetryTiming.FailureKeepsAway | manager_bot.py:256-258 | a pair failed at t for the n-th time, or recovered, is in no selection before t + 48 min(2^(n-1), 60) seconds while its row stays, and can be selected from t + 72 min(2^(n-1), 60) on |
| RetryTiming.FloodWaitIsKept | manager_bot.py:253-255 | after a flood wait of s seconds it can be selected exactly from t + s on, one second at least |
| RetryTiming.ClaimIsTaken | manager_bot.py:413-464 | in the loop a claim always succeeds, under the fresh token, and counts no attempt |
| RetryTiming.LeaseIsKept | manager_bot.py:413-464 | while a claimed row stays, nothing selects it, and a recovery moves it exactly when the lease seconds are over |
| RetryTiming.ClosedForGood | manager_bot.py:4900-4906 | in every run the row of a pair sent, dead or turned away never changes and is never claimed |
| RetryTiming.TurnedAwayForGood | manager_bot.py:590-656 | a refused pair keeps the reason of its refusal in every later state |
| RetryTiming.SuppressedForGood | storage.py:9784-9799 | suppression closes the listed pairs that have no row, for good, and touches no row |
| RetryTiming.SavedForGood | manager_bot.py:1986-2050 | a full save leaves `sent`, a degraded one `sent_unpersisted`, with the time of sending, in every later state |
| RetryTiming.TerminalInWords | manager_bot.py:620-656 | a terminal outcome is written over anything but a row sent, dead or closed |
| RetryTiming.NoteInWords | manager_bot.py:260-285 | a failure is recorded over anything but a sent row, and drops no other column |
| RetryTiming.SaveInWords | manager_bot.py:1986-2064 | what each outcome of a save writes, on any row or none, and that it touches no other pair |
| RetryTiming.FirstTryDecides | manager_bot.py:1983-2035 | the first try that is not locked out decides the save; the degraded write comes only when all are |
| DeliveryLoop.Loop.Recover | manager_bot.py:2695-2755 | recovery at the top of a pass is one step of the machine |
| DeliveryLoop.Loop.SendEventToUser | manager_bot.py:5052-5110 | access checks, claim and delivery of one event are exactly the listed machine steps, and an exception escapes exactly when listed, whatever the world answers |
| DeliveryLoop.Loop.DeliverClaimed | manager_bot.py:4459-4538 | with the claim in hand: placeholder, send with fallback, then a failure note or a save as machine steps; a note or save that cannot connect raises |
| DeliveryLoop.Loop.NoteFailure | manager_bot.py:222-292 | a failure note is recorded, swallowed, or raises because its connection is opened outside its guard |
| DeliveryLoop.Loop.Backstop | manager_bot.py:2790-2800 | the handler around one event notes the exception and goes on, or, if its own note cannot connect, ends the whole pass, dropping the queue |
| DeliveryLoop.Loop.ProcessEvent | manager_bot.py:2783-2800 | one turn of the event loop claims its own event at most once and touches no other row, and ends the pass if and only if an exception meets a backstop that cannot connect |
| DeliveryLoop.Loop.PollUser | manager_bot.py:2757-2800 | the whole batch is processed if and only if no event ends the pass; every event up to that one whose checks and claim write go through is claimed exactly once, the later ones keep row and claim count |
| DeliveryLoop.AbortedBatch | manager_bot.py:2796-2796 | a batch of two: the first is accepted, neither its save nor the backstop can connect, and the second is not claimed |
| DeliveryLoop.Loop.ServeUser | manager_bot.py:2757-2800 | one user's turn: the batch is the fair one, or empty if it cannot be read; the pass goes on if and only if the selection connects and no event ends it, and claims are as in `PollUser` |
| DeliveryLoop.Loop.PollOnce | manager_bot.py:2695-2808 | a whole pass over any users, cut short or not, continues the recorded run, so every claim bound holds after any number of passes; it claims only pairs whose user holds a live grant reaching the event, none under a revoked grant; users are left out only behind a turn that ends the pass |
| DeliveryLoop.StepsClaimOnce | manager_bot.py:5100-5110 | one event's steps raise its own claim count by one exactly if its checks and claim write go through, and change no other pair's claims or row |
| EventFates.RefusedIsTurnedAway | manager_bot.py:5052-5098 | a refused event ends closed with the reason of the refusal |
| EventFates.DeliveredIsSaved | manager_bot.py:4459-4538 | a message taken, or taken as plain text after a formatting error, ends `sent`, `sent_unpersisted` or still claimed, as its save went |
| EventFates.FailureIsNoted | manager_bot.py:4459-4538 | a message refused, or without a card, counts one attempt under that class, if the note goes through |
| EventFates.ExceptionIsNoted | manager_bot.py:2783-2800 | an exception counts one attempt under its own class through the backstop, or ends the pass if that cannot connect |
| EventFates.SwallowedIsPassed | manager_bot.py:437-464 | a write swallowed ahead of the claim changes no row |
| EventFates.EveryAnswerIsCovered | manager_bot.py:5052-5110 | these are all the ways an event can go |
| EventFates.WhatEndsAPass | manager_bot.py:2796-2796 | a pass ends early exactly at an exception whose backstop cannot connect |
| Leases.StepKeepsInv | manager_bot.py:437-459 | with any number of workers and stale reads: a held lease shows the attempts every scan of it read, and an ended lease is never held again |
| Leases.RecoveryIsExact | manager_bot.py:514-543 | a recovery update that fires writes the row's current attempts plus one although it used an old read; the lease had expired and is recovered this once |
| Leases.OtherRecoveriesDoNothing | manager_bot.py:514-543 | a recovery update changes the table if and only if its guard holds |
| Leases.LeaseIsExclusive | manager_bot.py:437-459 | whatever other workers claim, read or recover, a claimed row keeps its token until a statement about it |
| Leases.OtherRowsAreTaken | manager_bot.py:437-459 | any other row is taken by the next claim, under its token, for the lease seconds |
| Leases.SettledRowIsLeft | manager_bot.py:437-459 | any statement of any worker leaves a `sent` row `sent`; a `sent_unpersisted` row stops being so if and only if it is claimed, noted as failed or given a terminal outcome |
| Leases.UnpersistedIsReclaimed | manager_bot.py:437-459 | a run in which a second worker claims a pair whose degraded save went through |
| Leases.StaleFailureLowersAttempts | manager_bot.py:192-292 | a run with two workers in which a late failure note takes attempts from two back to one |
| Leases.FailureIsExactUnlessOutdated | manager_bot.py:222-285 | a failure note adds one to attempts exactly when the attempts it read are still current and the row was not sent meanwhile |
| FairBatch.FetchUnsent | manager_bot.py:4867-4922 | the batch is the first thirty eligible events in rank-then-id order, each id once; each is of a manager asked for, under a grant that can receive, is not revoked and reaches it, with no row or a failure that is due |
| FairBatch.LeftOutBehindThirty | manager_bot.py:4899-4913 | an event that meets all of these is left out only behind thirty others that do and are nearer the front of their own line |
| FairBatch.PrefixPerKey | manager_bot.py:4911-4912 | each manager's selected events are a prefix of its eligible events in id order |
| FairBatch.LowRankSelected | manager_bot.py:4911-4912 | with k managers, every event of rank at most 30 div k is selected |
| FairBatch.FairShare | manager_bot.py:4911-4912 | with k managers, one with n eligible events gets at least min(n, 30 div k) places |
| FairBatch.BatchIsUnique | manager_bot.py:4911-4912 | the ordering leaves the query exactly one answer |
| Text.ParseOfJoin | manager_bot.py:7137-7148 | a stored list of good keys with one more part appended reads back as the keys and then that part's own pieces |
| Text.JoinThenParse | manager_bot.py:7137-7148 | round trip of the stored closer list |
| ManualStatus.StatusDesk.WriteTo | manager_bot.py:2220-2384 | one store's write with its self-heal, for every kind of failure, changes that store only |
| ManualStatus.StatusDesk.ApplyManualStatus | manager_bot.py:2605-2680 | authoritative store first, then each mirror once, then the card's throttle |
| ManualStatusLaws.FailureFrame | manager_bot.py:2605-2680 | a call that reports failure changes no store but the authoritative one, there at most adds the self-healed row, and leaves the throttle; with the registry unreadable it fails and writes nothing |
| ManualStatusLaws.SuccessIsAuthoritative | manager_bot.py:2605-2680 | two calls that differ only in mirrors agree on success and on the authoritative store |
| ManualStatusLaws.OneAuditRow | manager_bot.py:2358-2384 | each success appends exactly one audit row, with this press's lead, actor, code and bucket, to the authoritative store |
| ManualStatusLaws.SecondPressIsRecognised | manager_bot.py:2910-2917 | after a success, the same press resolved to the same store is recognised as already set if and only if the override can be read there |
| ManualStatusLaws.WriterMeetsReader | manager_bot.py:2513-2568 | the writer and a read resolve the same store if and only if the writer could read the reader's, the read could open the writer's, and the writer's is among the read's candidates, registry failures included |
| ManualStatusLaws.MarkedResolves | manager_bot.py:6031-6072 | a marked row resolves to its code's bucket by its own fields, whatever they held before, and so does the override |
| ManualStatusLaws.ReaderSeesWrite | manager_bot.py:5921-5991 | after True, a read that goes to the written store finds the lead for any dates including its own; the fields give the code's bucket, and with the overlay it does if and only if `OverlayAgrees` |
| ManualStatusLaws.OverlayAfter | manager_bot.py:5968-5991 | the overlay the reader then gets: the code's where that store was written, otherwise what was there |
| ManualStatusLaws.PassedOverStoreIsStale | manager_bot.py:2554-2568 | when the reader's store was passed over, the call succeeds and every read returns what it returned before |
| ManualStatusLaws.PassedOverExample | manager_bot.py:2554-2568 | one such call from start to end: saved as liquid, still shown as not answered |
| ManualStatusLaws.OverlayContradictsExample | manager_bot.py:5968-5991 | a call saved as liquid whose overlay, from a store that has overrides and no leads, still says geo |
| ManualStatusCodes.PressIsShown | manager_bot.py:1638-1668 | after a saved press of "liq", "geo", "u18", "na" or "trash" a read of that store shows "liquid", "geo", "under18", "na" or "trash", with the overlay exactly while it agrees |
| ManualStatusCodes.ButtonsAgreeWithTheAutomaticDecision | manager_bot.py:6048-6072 | "u18" says what the automatic decision says of a lead known to be under 18, "geo" of an adult from abroad, "na" of a lead nothing is known of |
| ManualStatusCodes.ReasonsDecide | manager_bot.py:6064-6072 | with no bucket decided: trash by status or reason, then an age under 18, then another country, then a reason that speaks of age, else "na" |
| ManualStatusCodes.StoredBucketIsShown | manager_bot.py:6054-6063 | a stored bucket is shown as it is, the missing-data ones as "na" or "under18" |
| ManualStatusCodes.LiquidComesFirst | manager_bot.py:6054-6055 | any of the three status fields makes a lead liquid before all else |
| ManualStatusCodes.OverrideIsShown | manager_bot.py:6033-6047 | an override decides by its bucket, else by its status, else not at all |
| ManualStatusCodes.OverrideOrder | manager_bot.py:6036-6046 | when an override names two of the five, which decides |
| ManualStatusCodes.RecognisedExactly | manager_bot.py:2910-2917 | the "already set" check asks for the button's own status and bucket |
| ManualStatusCodes.WriteIsExact | manager_bot.py:2220-2384 | when one store takes a press, and the row, override and audit entry it then holds, field by field, with nothing else changed |
| ManualStatusCodes.ClearIsExact | manager_bot.py:2220-2384 | a clear removes mark and override and keeps every field the statistics read |
| ManualStatusCodes.StoresAreResolvedInOrder | manager_bot.py:2513-2568 | the configured store if usable, else the canonical one, else none, for writer and reader |
| ManualStatusCodes.CallIsExact | manager_bot.py:2605-2680 | the call succeeds exactly when the authoritative store takes the press; that store and the mirrors that take it carry it, no other store changes, and the throttle is set |
| ManualStatusCodes.OnlyThatPressIsRecognised | manager_bot.py:2910-2917 | after a saved press the "already set" check recognises that button and no other, if it can read the override |
| Transfers.TickKeepsChoice | manager_bot.py:7493-7513 | a tick keeps the choice distinct and at most two if and only if the key is a removal or its own pieces leave it so |
| Transfers.CommaBreaksChoice | manager_bot.py:7493-7513 | one tick of a key with a comma puts three closers on the list |
| Transfers.ChoicesStayGood | manager_bot.py:7493-7513 | in every run all choices, stored or about to be, stay distinct and at most two if and only if each tick read leaves its list so |
| Transfers.SinglePartsAreGood | manager_bot.py:7493-7513 | ticks of keys that are single parts, as registered keys are, always do |
| Transfers.DraftTable.Create | manager_bot.py:7055-7076 | a new draft under a fresh id, awaiting text, and nothing else changed |
| Transfers.DraftTable.SetTextAndAdvance | manager_bot.py:7122-7134 | the text is taken only by a draft awaiting it |
| Transfers.DraftTable.PickCloser | manager_bot.py:7493-7513 | in one process a pick is its read and its unguarded write in turn: it toggles the key on the owner's own open draft, and a third one is refused |
| Transfers.DraftTable.TryFinalizeLock | manager_bot.py:7151-7166 | true exactly for the caller that moved the draft to `done` |
| Transfers.DraftTable.Cancel | manager_bot.py:7553-7561 | only the owner cancels, and only an unfinished draft |
| Transfers.FinalizedAtMostOnce | manager_bot.py:7516-7550 | in every run the lock of a draft is won at most once |
| Transfers.FinalDraftsStay | manager_bot.py:7137-7181 | `done` and `cancelled` are never left, and nothing of such a draft changes but its closer list, and that only by a tick read before |
| Transfers.FinalDraftStays | manager_bot.py:7137-7148 | one step changes a finished draft if and only if it stores a tick read earlier that holds another list |
| Transfers.Finalize | manager_bot.py:7224-7281 | the insert loop with rollback at any statement computes the table and pairs whose rows `TransferTrace` fixes field by field |
| Transfers.WrittenRows | manager_bot.py:7224-7281 | a committed finalization adds rows only, leaves one row per closer, lead and date, and each returned pair points at its row |
| Transfers.PairsPointAtRows | manager_bot.py:7264-7281 | the returned pairs all point at rows if and only if the transaction committed or every such row was there before |
| Transfers.RowsStayUnique | manager_bot.py:7224-7281 | in every run, failures included, at most one row per closer, lead and date, rows never change, at most one notice per transfer id |
| Transfers.NoticesMatchRows | manager_bot.py:7284-7328 | in every run, failed transactions included, every notice sent or about to be sent names the closer of its own transfer at all times if and only if each failed transaction had only got to closers whose rows existed before |
| Transfers.StepKeepsNotices | manager_bot.py:7264-7281 | one step keeps notices and rows in agreement if and only if it is not a transaction failing after a new row |
| Transfers.EveryRunIsSound | manager_bot.py:7055-7378 | from empty tables: one lock per draft, one row per closer, lead and date, at most two distinct closers while ticked keys are single parts, and notices as above |
| Transfers.RolledBackIdSwallowsNotice | manager_bot.py:7307-7322 | one failed commit: its pair is announced, the id is used again, and the next transfer's own notice is ignored |
| Transfers.AssuredInOneStep | manager_bot.py:7331-7357 | a transfer announced or waiting to be stays so in one step unless a restart, a failed enqueue or an exception ahead of it drops its last waiting pair, and otherwise becomes so only when a finalization returns it |
| Transfers.AnnouncedUnlessLost | manager_bot.py:7331-7378 | at least once, exactly: in every run, with nothing left to announce it, a transfer has a notice if and only if no restart, failed enqueue or earlier exception dropped its last waiting pair after the last finalization that returned it anew |
| Transfers.CommitKeepsItsRows | manager_bot.py:7224-7281 | a committed finalization leaves the row of each of its closers announced or waiting to be |
| Transfers.AbandonedNotice | manager_bot.py:7544-7550 | a row is committed, the answer to the click raises, and no notice of the row is stored or waiting |
| TransferTrace.CommittedRows | manager_bot.py:7245-7269 | after a commit each pair stands for a row with its closer, the draft's lead and date, and, unless there was one before, the draft's manager and text |
| TransferTrace.SameIdMeansSameKey | storage.py:6348-6348 | two committed finalizations return one id exactly for the same closer, lead and date |
| TransferTrace.EveryRowWasConfirmed | manager_bot.py:7055-7550 | in every run each row was opened by one manager for this lead and date, given this text, ticked and confirmed by that manager, while the closer was active |
| TransferTrace.DraftChange | manager_bot.py:7122-7181 | all one step can do to a draft: its owner cancels it, its text comes, a tick is stored, its lock is won |
| TransferTrace.AnswersThatCount | manager_bot.py:7493-7561 | which texts, cancellations, ticks and confirmations are taken, and that only a third tick is refused |
| PartnerDelivery.PartnerTable.MarkSent | partner_stat_bot.py:2047-2090 | the success mark fixes the row unless it is `dead` |
| PartnerDelivery.PartnerTable.RecordFailure | partner_stat_bot.py:2093-2148 | the failure record with its budget and delay, never touching `sent` or `dead` |
| PartnerDelivery.PartnerTable.NotifyOnce | partner_stat_bot.py:738-794 | one pass handles every pending event whatever failures came before, if and only if no mark or record raises; other rows are untouched |
| PartnerDelivery.FinalStatusStays | partner_stat_bot.py:2069-2078 | `sent` and `dead` are never left and `retry` stays short of the budget in every interleaving, stale reads and bulk marks included |
| PartnerDelivery.RecordsMatchAttempts | partner_stat_bot.py:2105-2138 | over runs of any number of workers, every row's attempts equal the failures recorded for it at all times if and only if no record counts from an outdated row |
| PartnerDelivery.StepMatchesIffUpToDate | partner_stat_bot.py:2105-2138 | the same for one statement of one worker |
| PartnerDelivery.AttemptsBounded | partner_stat_bot.py:2122-2138 | in every interleaving, outdated reads included, no row counts past the budget |
| PartnerDelivery.RecordsBounded | partner_stat_bot.py:2105-2138 | so with any number of workers, while no record counts from an outdated row, a pair's recorded failures are its attempts and at most the budget |
| PartnerDelivery.CountStaysWithin | partner_stat_bot.py:2105-2138 | the same bound from a table whose rows may already count more attempts than were recorded since |
| PartnerDelivery.RecordIsExactUnlessOutdated | partner_stat_bot.py:2105-2138 | a record that goes through adds one to the attempts if and only if the attempts it read are still the row's |
| PartnerDelivery.OutdatedRecordsOverrun | partner_stat_bot.py:2105-2138 | three workers, a budget of two, three recorded failures |
| PartnerDelivery.EveryRunIsBounded | partner_stat_bot.py:2047-2148 | from the empty table, retries are always short of the budget, attempts count the failures if and only if no record is outdated, and one worker at a time never records more failures than the budget |
| PartnerDelivery.PartnerTable.PendingEvents | partner_stat_bot.py:1849-1864 | the query of a pass: due events in id order up to the limit |
| PartnerDelivery.PartnerTable.Pass | partner_stat_bot.py:762-794 | a pass leaves every `sent` and `dead` row exactly as it is, whatever the world answers |
| PartnerDelivery.AbortedPass | partner_stat_bot.py:2066-2088 | a pass ended by the first event's mark, the second event left without a row |
| PartnerTiming.PassAsksForPending | partner_stat_bot.py:1849-1864 | a pass asks for exactly the events with no row, or a failure whose pause is over |
| PartnerTiming.FailureCountsOne | partner_stat_bot.py:2105-2138 | a failure counts one attempt, and is the last exactly for a formatting error, a bad recipient or a spent budget |
| PartnerTiming.FailureKeepsAway | partner_stat_bot.py:1984-1993 | an event failed for the n-th time at t is not pending before t + 48 min(2^(n-1), 60) seconds while its row stays, and is from t + 72 min(2^(n-1), 60) on |
| PartnerTiming.FloodWaitIsKept | partner_stat_bot.py:2120-2122 | after a flood wait of s seconds it is pending exactly from t + s on, one second at least |
| PartnerTiming.MarkedForGood | partner_stat_bot.py:2047-2090 | a success mark makes any row but a dead one `sent`, and no run makes it pending again |
| PartnerTiming.OldForGood | partner_stat_bot.py:640-656 | marking old events closes for good exactly those that had no row |
| PartnerTiming.HandledLeaves | partner_stat_bot.py:762-794 | what a pass leaves of one event, for each way its message, mark and record can go |
| PartnerTiming.WhatEndsAPass | partner_stat_bot.py:762-794 | a pass ends early exactly at a mark or a record that raises |
| ReserveNotices.StepKeepsInv | partner_stat_bot.py:7101-7204 | across writes, sweeps, failed settings and restarts: a flag comes from a message whose flag landed, such a message's flag is kept or superseded, and each message was sent blind or after none that landed |
| ReserveNotices.NeverSentTwice | partner_stat_bot.py:7167-7204 | in every run in which flags are read and stored and no restart falls between a message and its flag, no user is told a generation of an event twice |
| ReserveNotices.RepeatedUnlessProtected | partner_stat_bot.py:7187-7204 | in every run, a visit to a due recipient goes on to send if and only if the flag cannot be read or no earlier message of this generation had its flag land; legacy markers never suppress |
| ReserveNotices.EveryRepeatHasACause | partner_stat_bot.py:7187-7204 | looking back over any run, of two messages about one generation the later was sent blind or the earlier one's flag never landed |
| ReserveNotices.ToldTwice | partner_stat_bot.py:6105-6127 | three runs that tell one user the same completion twice: lost flag write, restart, unread flag |
| ReserveNotices.BaselineIsFixed | partner_stat_bot.py:7034-7057 | a stored baseline stays through a run if and only if no sweep fails to read it and then stores another time |
| ReserveNotices.BelowBaselineIsSilent | partner_stat_bot.py:7101-7164 | what an overwrite loses: a completion below the baseline is never announced while baseline and row stay |
| ReserveNotices.UnreadBaselineLosesARow | partner_stat_bot.py:7006-7013 | a run in which a due, unannounced completion falls below the overwritten baseline |
| ReserveNotices.RevivedIsSentAgain | partner_stat_bot.py:7101-7164 | a visit to a flagged recipient goes on to send if and only if the row was completed later than the completion flagged, or the flag cannot be read |
| ReserveNotices.SameSecondRevivalIsSkipped | storage.py:3526-3662 | a run that completes, announces, cancels, revives and completes a row within one second, and skips the second completion |
| ReserveNotices.Notifier.EnsureBaseline | partner_stat_bot.py:7034-7057 | what is stored and what is returned for every answer of the first read, the write and the confirming read |
| ReserveNotices.Notifier.SendOne | partner_stat_bot.py:7167-7204 | one recipient: skipped only if the flag is read and is this generation, and flagged only if the message went and the write landed |
| ReserveNotices.Notifier.SweepSource | partner_stat_bot.py:7207-7230 | a sweep visits every due row exactly once, oldest completion first, every recipient of each |
| ReserveNotices.SweepFlags | partner_stat_bot.py:7207-7230 | after a sweep each recipient of each due row is flagged if it was before or its message went and its flag landed, and no other flag moved |
| ReserveNotices.FullSweepFlagsAll | partner_stat_bot.py:7207-7230 | with all messages accepted and all flags stored every in-window row is flagged for every recipient |
| ReserveNotices.SweepReachesEveryone | partner_stat_bot.py:7207-7230 | at least once: a recipient whose message is accepted in a sweep has been told of the completion by its end, whatever the settings answered |
| ReserveNotices.SweepIsARun | partner_stat_bot.py:7207-7230 | the sweep as coded is a run of the machine, so the run results cover it |
| ReserveNotices.DueInWords | partner_stat_bot.py:7101-7164 | a sweep is about exactly the finished rows of its source at or above the baseline and at most 72 hours old |
| ReserveNotices.SweepKnowsItsBaseline | partner_stat_bot.py:7034-7057 | the baseline a sweep goes by is the stored one; when there is none, and when it is set |
| ReserveNotices.SweepSendsItsOwn | partner_stat_bot.py:7207-7230 | every message of a sweep is about one of its rows, at that completion, to one of its recipients |
| Windows.WindowIsUnique | partner_stat_bot.py:3157-3167 | windows of one kind never overlap |
| Windows.NotInBothKinds | partner_stat_bot.py:3157-3167 | no instant is in a day window and a flight window |
| Windows.WindowsTile | partner_stat_bot.py:3157-3177 | for any config and date range, day and flight windows cover exactly the interval from the day end before the first date to the last day end, each instant once |
| Windows.InClockTerms | partner_stat_bot.py:3136-3177 | day windows are the configured hours of each date, by default 08:00 to 17:00, and flight windows what is left between them |
| Windows.ExportHolds | partner_stat_bot.py:5200-5203 | an export holds a lead exactly if its arrival is in a window and its stored date in range, for flights a day wider |
| Windows.ReadsDown | partner_stat_bot.py:3386-3386 | down an export arrivals never go back, nor managers within an arrival, nor ids within both |
| Windows.WindowList | partner_stat_bot.py:3157-3167 | one window per date in order, none for an empty range |
| Windows.CheckInWindows | partner_stat_bot.py:3170-3177 | true exactly when some date of the range has the arrival in its window |
| Windows.WindowedLeads | partner_stat_bot.py:5200-5203 | the widened fetch and the filter, in input order |
| Windows.CollectSource | partner_stat_bot.py:3382-3387 | a source's export is the export of all its managers' leads taken together, ordered by arrival, manager and id, with nothing lost or added |
| Windows.OrderIsUnique | partner_stat_bot.py:3386-3386 | when no two leads share arrival, manager and id, that order leaves one answer |
| Windows.LocalDateIsFetched | partner_stat_bot.py:5200-5203 | the local date of every in-window arrival lies in the fetched range, so one day of widening is enough |
| Windows.FetchLosesNothing | partner_stat_bot.py:5200-5203 | fetch-then-filter equals filtering everything if and only if every in-window lead's stored date is in the fetched range |
| Windows.ExportsPartition | partner_stat_bot.py:3382-3387 | when stored dates are local dates, the two exports together hold each covered lead exactly once |
| Windows.WrongDateIsLost | partner_stat_bot.py:5200-5203 | a covered lead stored under another date can be in neither export |
| GeoLexicon.TokensOfJoined | geo_lexicon.py:48-53 | the tokens of two texts joined by a space are the tokens of each in turn |
| GeoLexicon.PassIsMaximal | geo_lexicon.py:286-309 | a phrase free of earlier matches and of the pass's own matches does not match |
| GeoLexicon.MatchesAreDisjoint | geo_lexicon.py:286-316 | no token belongs to two matches of any pass |
| GeoLexicon.NothingMissed | geo_lexicon.py:286-316 | no matchable trigram is left free of trigrams, no bigram free of longer matches, no usable single token free of both |
| GeoLexicon.FieldsComeFirst | geo_lexicon.py:144-255 | the class is set if and only if something matched, and each of class, country, region and city comes from the first match that supplies it |
| GeoLexicon.ClassAndCountryComeTogether | geo_lexicon.py:271-340 | however many places a text names, its class and country come from one match and fit: Ukrainian class exactly with Ukraine, liquid only with Russia |
| GeoLexicon.CityFollowsFirstMatch | geo_lexicon.py:144-255 | the class is the first match's; the city, and the region, agree with the first match if and only if it supplies one or no match does |
| GeoSources.MatchedByATable | geo_lexicon.py:135-255 | a phrase matches exactly if one of the six tables has it |
| GeoSources.SuppliedByTable | geo_lexicon.py:135-255 | what each table supplies, for a phrase that no earlier one has |
| GeoSources.LiquidByFirstPhrase | geo_lexicon.py:144-223 | a message is liquid exactly if its first phrase is aliased to Russia, or is a Russian place with a real name, not in the Ukrainian table and not better known abroad |
| GeoSources.UkrainianByFirstPhrase | geo_lexicon.py:190-255 | it is of the Ukrainian class exactly if its first phrase is, by alias, by the table or by its country |
| GeoSources.UkraineAlone | geo_lexicon.py:190-201 | one Ukrainian place of the table and nothing else gives that class and country, and no city |
| GeoSources.ConfidenceSaysWhatIsKnown | geo_lexicon.py:318-333 | high exactly with a city, medium exactly for a Russian region without one |
| GeoSources.SourceIsTheFirst | geo_lexicon.py:144-255 | the source named is the first match's |
| GeoSources.CandidatesAreSuggested | geo_lexicon.py:163-188 | a place is a candidate exactly if some match only suggests it |
| GeoSources.AgesAreNoPlaces | geo_lexicon.py:125-130 | a two-digit number from 14 to 90 is never a place |
| GeoSources.WordsAreLookedUp | geo_lexicon.py:129-130 | a word is looked up unless it is noise or one letter |
| GeoSources.AlikeIsAnalysedAlike | geo_lexicon.py:48-53 | texts that differ in case, ё for е, or punctuation alone are analysed alike |
| GeoBurst.CityMayBeAbroad | geo_lexicon.py:100-118 | a lexicon and a text whose hints are Russian and liquid with a foreign city |
| GeoBurst.TryMatchPhrase | geo_lexicon.py:135-255 | the six sources in order, setting only empty fields, add exactly what the phrase's first source supplies, and report whether any did |
| GeoBurst.RunPass | geo_lexicon.py:290-309 | the trigram and bigram loops consume exactly the pass's matches and gather their fields |
| GeoBurst.RunSingles | geo_lexicon.py:311-316 | the token loop raises exactly when an unconsumed token is all digits but no number |
| GeoBurst.ExtractImpl | geo_lexicon.py:271-340 | the analysis as it runs equals the specified one, and raises exactly when that does |
| GeoBurst.ExtractGeoHints | geo_lexicon.py:260-268 | an exception yields unknown with nothing else |
| GeoBurst.ExtractFromMessages | geo_lexicon.py:354-398 | the merge loop fills gaps message by message, in order |
| GeoBurst.MessageIsASlice | geo_lexicon.py:364-366 | each message's tokens lie together among the combined text's tokens |
| GeoBurst.NothingInSlice | geo_lexicon.py:286-316 | if nothing in a token list matches, nothing in a stretch of it matches on its own |
| GeoBurst.CombinedIsComplete | geo_lexicon.py:364-380 | unless the combined analysis raised, its being unknown means every single message is unknown |
| GeoBurst.MergeNeverOverwrites | geo_lexicon.py:368-380 | merging keeps every class, city, region and country the combined text gave |
| GeoSources.BurstFieldsComeFirst | geo_lexicon.py:368-380 | each field of a burst is the combined text's, or that of the first message to have it by itself |
| GeoBurst.MergeNeverLowersConfidence | geo_lexicon.py:382-398 | the confidence computed again after the merge is never below that of the combined text |
| GeoBurst.BurstClassFitsCountry | geo_lexicon.py:354-380 | after merging a burst, class and country still fit each other |
| GeoBurst.MergeAgreesUnlessRaised | geo_lexicon.py:354-380 | merged and combined class are unknown together if and only if the combined analysis did not raise or no message is known by itself |
| GeoBurst.SuperscriptHidesThePlace | geo_lexicon.py:125-126 | a burst of two messages whose combined text is unknown and whose merged result is not |
| LoginMasks.FindMatches | login_code_parser.py:55-62 | links and phone numbers are collected leftmost first, the search resuming after each match |
| LoginMasks.MatchesCoverAll | login_code_parser.py:55-62 | the leftmost search loses nothing: a position is masked if and only if it lies in some match, wherever that starts |
| LoginMasks.PhoneIsMasked | login_code_parser.py:47-47 | a plus, a digit and six or more digits, blanks, hyphens or brackets are masked to the end |
| LoginMasks.MaskedIsPhone | login_code_parser.py:47-47 | and nothing else is masked as a phone number |
| LoginMasks.MaskedIsLink | login_code_parser.py:43-43 | and nothing else is masked as a link |
| LoginMasks.DigitsAreForty | login_code_parser.py:28-28 | the digits a code is made of, one by one |
| LoginMasks.LinkIsMasked | login_code_parser.py:43-43 | a link in letters of any case is masked up to the next blank |
| LoginMasks.NumericMissesFive | login_code_parser.py:44-46 | no match of the address, time or date expression reaches into five digits in a row |
| LoginCode.AddressTailIsShown | login_code_parser.py:44-44 | a text like an address whose last part has five digits shows them as a code |
| LoginCode.NumericMasksAreIdle | login_code_parser.py:44-62 | whatever those three expressions match, neither the marked code nor the codes shown change |
| LoginCode.Overlaps | login_code_parser.py:65-69 | false exactly when no position of the interval is masked |
| LoginCode.FindRuns | login_code_parser.py:28-28 | the scan finds every digit run of length exactly five, left to right, and nothing else |
| LoginCode.Candidates | login_code_parser.py:107-116 | the candidates are exactly the values of unmasked runs |
| LoginCode.ScanEntities | login_code_parser.py:88-105 | the first Code or Pre entity that marks five unmasked digits wins |
| LoginCode.ParseLoginCode | login_code_parser.py:72-121 | the first marked code wins; without one, c is returned if and only if the text is admissible and c is the one value shown; any returned code is five digits outside every link and phone number; address, time and date matches make no difference |
| LoginCode.LookedAt | login_code_parser.py:72-84 | a message is looked at exactly if it has 1 to 512 characters and one of eight signs of a login |
| LoginCode.EightSignsAreEnough | login_code_parser.py:33-40 | the seventeen context terms come to eight |
| LoginCode.FirstMarkInWords | login_code_parser.py:88-105 | the marked code is that of the first Code or Pre entity holding five unmasked digits |
| LoginCode.MarkedIsARun | login_code_parser.py:91-105 | a marked code is a whole digit run if and only if no digit touches the entity from outside |
| LoginCode.EntityCutsANumber | login_code_parser.py:91-105 | an entity that takes five of eight digits from a text showing no code |
| ProfileDialog.KeyTextIsInjective | profile_dialog.py:122-128 | two stored template keys are equal if and only if category and index are |
| ProfileDialog.ChooseTemplate | profile_dialog.py:116-128 | the first variant not yet sent, or the first of all when none is left |
| ProfileDialog.FirstFreshIsFirst | profile_dialog.py:121-128 | the choice was sent before only if the whole category was, and no earlier variant is fresh |
| ProfileDialog.AskedForWhatIsMissing | profile_dialog.py:172-186 | someone is asked exactly while age or country is unknown, never for a known age, and a recognised question is answered in kind unless only the age is missing |
| ProfileDialog.DecidedInWords | profile_dialog.py:131-190 | every decision: first and second city question, then silence; otherwise the category for what is missing or asked |
| ProfileDialog.GeneralTemplatesStandIn | profile_dialog.py:104-128 | an unknown or empty category speaks with the general templates |
| ProfileDialog.FirstRecord | profile_dialog.py:218-262 | the first record of a fresh row: one key, one step, one city question if it was one |
| ProfileDialog.RecordKeepsTheLatest | profile_dialog.py:243-262 | a record puts a new key last, drops only the oldest beyond eighty, and advances the counters by one |
| ProfileDialog.DialogRow.Choose | profile_dialog.py:131-190 | the reply is decided by the city limit, the missing fields and the intent |
| ProfileDialog.DialogRow.MarkSent | profile_dialog.py:233-269 | the key is appended once, the last eighty kept, the counters advanced |
| ProfileDialog.DialogRow.Round | profile_dialog.py:131-269 | one choice with its mark: only a delivered text is recorded, under the key it was chosen by, and only if the record goes through |
| ProfileDialog.AtMostTwoCityAsks | profile_dialog.py:156-170 | over any rounds of the two functions in this file at most two city-only questions are delivered and recorded, the stored counter counts them exactly, and there are no others while every delivery is recorded |
| ProfileDialog.UnrecordedIsRepeated | profile_dialog.py:233-269 | a delivery leaves the row as it was if and only if it is not recorded, and the same message is then chosen again |
| ProfileDialog.NothingComesBackEarly | profile_dialog.py:116-128 | with at most eighty keys the stored list never repeats, is never cut and holds exactly what was delivered and recorded; a recorded key comes back only after its whole category |
| ProfileDialog.KeysNameTemplates | profile_dialog.py:116-128 | with no category empty, the text sent is the template its key names |
| PanelQueue.OldestIsFirst | panel_bridge.py:101-101 | the row taken is the new one with the least id |
| PanelQueue.PanelTable.Submit | panel_bridge.py:67-82 | a new row under a never-used id, and nothing else changed |
| PanelQueue.PanelTable.Take | panel_bridge.py:96-117 | hands out the oldest new command and marks it running |
| PanelQueue.PanelTable.Finish | panel_bridge.py:120-136 | closes the named row whatever its status |
| PanelQueue.PanelTable.Reap | panel_bridge.py:173-215 | fails exactly the rows running past the limit and counts them |
| PanelQueue.PanelTable.Cleanup | panel_bridge.py:160-170 | deletes exactly the closed rows older than the limit |
| PanelQueue.CommandsMoveForward | panel_bridge.py:120-215 | in every interleaving no command goes back, in particular never to `new` |
| PanelQueue.TakesIncrease | panel_bridge.py:96-117 | in every interleaving the ids handed out strictly increase |
| PanelQueue.EveryCommandIsServed | panel_bridge.py:96-117 | a queued command nobody finishes unasked stays queued until handed out, and is handed out within as many takes as there were commands up to it |
| PanelQueue.MaintenanceSparesTheQueue | panel_bridge.py:160-215 | reap and cleanup leave every queued command, and every command taken less than ten minutes ago, as it is |
| PanelQueue.ReapIsExact | panel_bridge.py:173-215 | after a reap nothing is past the limit, and each row it failed was |
| PanelQueue.ReapedAfterMinutes | panel_bridge.py:173-215 | a reap fails a command exactly if it has run longer than the minutes given, sixty by default and ten at least |
| PanelQueue.DeletedAfterHours | panel_bridge.py:160-170 | a cleanup deletes a closed command exactly if it was submitted longer ago than the hours given, 48 by default |
| PanelQueue.TakenForAnHour | panel_bridge.py:96-117 | a command taken runs from that moment, and a default reap leaves it for exactly an hour |
| PanelQueue.ReportedAndSubmitted | panel_bridge.py:67-136 | a report closes its command as it says and touches no other; a submitted one waits under the next id |
| PanelQueue.OutcomeInOneStep | panel_bridge.py:120-136 | one step changes the outcome of a closed command it does not delete if and only if it is a report to the contrary |
| PanelQueue.OutcomeKeptUnlessContradicted | panel_bridge.py:120-215 | in every interleaving a closed command keeps its outcome while it exists if and only if no contrary report on it arrives in that time |
| PanelQueue.LateFinishOverridesReap | panel_bridge.py:173-215 | a reaped command reported finished later ends as done |
| StartVerify.ResolveStartFailure | manager_launcher.py:170-241 | isolation if and only if the file parsed, has a valid phase, belongs to this manager and is fresh |
| StartVerify.VerifyStart | manager_launcher.py:244-301 | stops within the window; exit 0 if and only if a ready phase comes before any exit or confirmed death; exit 3 only on evidence in the second read; the label comes from the status judged; the processes are stopped exactly when the window closes undecided |
| StartVerify.VerdictInWords | manager_launcher.py:170-301 | the three exit codes in terms of phases, liveness, owner and age in the files read |
| StartVerify.LabelInWords | manager_launcher.py:225-241 | the label names phase and reason, scoped to the manager exactly for a known reason |
| StartVerify.ZonesAgree | manager_launcher.py:150-167 | one moment written in two zones is one moment, and a time without a zone is none |
| StartVerify.ReasonNeverDecides | manager_launcher.py:170-241 | two runs that differ only in reason class and error text have the same exit code |
| StartVerify.UnknownIsNotDeath | manager_launcher.py:283-287 | an unanswered liveness scan is worth the answer alive: it neither ends the loop nor changes the exit code |
| StartVerify.NoFileIsGlobal | manager_launcher.py:188-202 | with no status file that parses, the failure is global whatever liveness says |
| StartVerify.LeftoverReadyFileSucceeds | manager_launcher.py:262-273 | a ready file of any owner and age gives exit 0, although it would be no evidence for isolation |
| StartVerify.SuccessIsPhaseAlone | manager_launcher.py:262-273 | success is settled by the phases read and the liveness answers, and by nothing else in the files |
| StartVerify.KeysAreNormalOnce | manager_registry.py:15-16 | normalizing a manager key twice is normalizing it once |
| StartVerify.KeysLetterByLetter | manager_registry.py:15-16 | keys are normalized letter by letter |

## Left out

- SQLite itself, schema migrations, locks and busy timeouts below the level of one statement: a statement with its commit is one step.
- Exceptions after a save has returned True: only logging follows it.
- Telegram calls, buttons, message texts, menus, HTML, Excel and ZIP output: a send is a success or a failure.
- The shared statistics engine (`stats_engine.py`) as resolver and reader: manual status is modelled in the degraded mode, in which the manager bot walks the candidate stores itself; a read that raises as a whole gives no answer.
- The other event types of the manager bot (duplicate, reserve, transfer cards): they pass through the same claim and save, and differ in text only.
- Message and trace columns that no branch reads (worker reference, trace ids, display text).
- Group notices, audit rows and closer configuration of transfers: side effects that no later step reads.
- Time zones and daylight saving in the windows: arrival times are wall-clock minutes of one zone.
- Geo notes: the diagnostic list of sources tried, which nothing reads.
- Letters outside Latin and Cyrillic in lower-casing, digits of scripts beyond those listed, white space beyond blank, tab and line ends.
- LoginCode.ParseLoginCode: takes the address, time and date matches as any matches of those expressions, since `NumericMasksAreIdle` shows that they make no difference; links and phone numbers are searched for.
- Intent detection of the profile dialog: the intent is a parameter.
- ProfileDialog.DialogRow.Round: joins the choice and the mark of `profile_dialog.py`. The last definitions of both in `main.py` (main.py:21602 and main.py:16101) replace the choice whenever age or country is missing and also raise the counters for other geo questions; those two are not modelled.
- ProfileDialog.DialogRow.MarkSent: the row is read and written in one step; two rounds for one chat at the same time are not modelled.
- Result texts of panel commands and their scrubbing: no status depends on them.
- StartVerify.VerifyStart: the timestamp text is given as parsed (no date, no zone, or local time with offset), and stopping processes is a flag.
- Health checks, supervisors, registries, location data loaders and scripts: plumbing, or only easy members.
