# Reminders cog — a verified model

This project models the reminder subsystem of a chat bot: the `Reminders` cog.
The cog keeps a dictionary from reminder id to reminder record in memory and
mirrors it in a JSON file. It offers four slash commands:
- `remind`: a one-time reminder after a delay;
- `remindme`: a recurring reminder with an interval;
- `reminders`: list your own reminders;
- `cancelreminder`: cancel one of your own reminders.

A periodic due check (`check_reminders`) sends a notification for each
reminder whose time has come, when its channel and user resolve. It moves each
due recurring reminder on by its interval and deletes each due one-time
reminder.

The model has four modules:

- `ReminderStore` (store.dfy): the reminder record and the dictionary.
  - The Python dict is a map plus its key order. A new key goes last, and an
    overwritten key keeps its place.
  - Ids come from `str(len(reminders) + 1)`.
  - The JSON file is the dict's key/record pairs in order. The lemma
    `LoadAfterSave` proves that loading a saved file rebuilds the same
    dictionary: the same ids, in the same order, with the same records.
- `ReminderCommands` (commands.dfy):
  - the delay check that `remind` and `remindme` share;
  - the three-way decision of `cancelreminder`;
  - the owner filter of `reminders`.
- `DueCheck` (duecheck.dfy): one run of the due check, stated on values.
  - `TickStore` is the store after a completed run. It does not depend on
    scan order or on whether channels and users resolve.
  - `Scan` is the scan loop. `FirstStuck` gives the position where an
    unparsable interval stops it.
  - Lemmas state the due rule, at-most-once firing, and that a reschedule is
    measured from the old due time.
- `ReminderCog` (cog.dfy): the class `Reminders`.
  - It has fields `reminders` and `order`, and a ghost field `persisted` that
    holds the file's contents.
  - Its methods are load, save, the four state-changing commands and
    `CheckReminders`.
  - Each method states its exact new state and when the file is rewritten.

The model replaces four outside inputs with parameters:
- The clock is `now`, in integer seconds.
- `humanfriendly.parse_timespan` is a parameter `parse: string -> Option<int>`.
  `None` stands for `InvalidTimespan`.
- The platform's `get_channel` and `get_user` lookups are the predicates
  `channelKnown` and `userKnown`.
- Sending a message is a `Notice` that `CheckReminders` returns.

Three behaviours of the code that the model keeps:
- The due check saves only when it removed something
  (cogs/reminders.py:66-67). After a run that only rescheduled, the file is
  stale (`RescheduleOnlyLeavesSnapshotStale`).
- An unparsable interval raises out of the loop (cogs/reminders.py:56). The
  model returns `failure` with the offending id. Reminders rescheduled earlier
  in that run stay rescheduled in memory, and nothing is deleted or saved. The
  offending reminder's notification was already sent if its channel and user
  resolved (cogs/reminders.py:43-45).
- Ids are count-based (cogs/reminders.py:91, 135), so after a removal a new id
  can name a live reminder. `CancelThenCreateOverwrites` shows the collision:
  create "1" and "2", cancel "1", and the next create gets "2" and overwrites
  the live reminder.

## Model

| member | source | states |
|---|---|---|
| ReminderCog.Reminders.Load | cogs/reminders.py:19-26 | without a file the dictionary starts empty and the empty dictionary is written out; with a file the dictionary is the one the file's pairs build, and the snapshot is the file |
| ReminderCog.Reminders.Save | cogs/reminders.py:28-31 | the snapshot becomes the dictionary's pairs in key order |
| ReminderStore.ToPairs | cogs/reminders.py:28-31 | the i-th pair written is the i-th key with its record, one pair per key |
| ReminderStore.FromPairs | cogs/reminders.py:22-24 | loading pairs yields a key order that lists every loaded key exactly once, no longer than the file; which keys and records are loaded is stated by the two lemmas below |
| ReminderStore.FromPairsKeys | cogs/reminders.py:22-24 | the loaded dictionary has exactly the keys the file names |
| ReminderStore.FromPairsLastRecord | cogs/reminders.py:22-24 | each loaded key holds the record of its last occurrence in the file |
| ReminderStore.FromPairsToPairs | cogs/reminders.py:19-31 | loading what was saved from a repeat-free order gives back that order and the records it lists |
| ReminderStore.LoadAfterSave | cogs/reminders.py:19-31 | saving then loading gives back the same dictionary: the same ids, in the same order, with the same records |
| ReminderStore.PutOrder | cogs/reminders.py:93 | after `d[k] = v` a new key is appended last, an existing key keeps its place, and the order still lists each key once |
| ReminderStore.PutKeepsEnumeration | cogs/reminders.py:93 | assignment keeps the key order an exact, repeat-free listing of the keys |
| ReminderStore.Filter | cogs/reminders.py:64 | after deleting keys the order holds exactly the keys not deleted |
| ReminderStore.FilterKeepsDistinct | cogs/reminders.py:64 | deleting keys keeps the order free of repeats |
| ReminderStore.FilterTwice | cogs/reminders.py:63-64 | deleting one set of keys and then another is deleting both at once |
| ReminderStore.DeleteKeepsEnumeration | cogs/reminders.py:197 | `del d[k]` keeps the order an exact listing of the remaining keys |
| ReminderStore.DeleteOneMore | cogs/reminders.py:63-64 | one more `del` in the deletion loop equals deleting all ids so far from the original dictionary, and the order stays exact |
| ReminderStore.NextId | cogs/reminders.py:91 | the id `remind` allocates (and `remindme` at line 135) is `str(len + 1)`, a non-empty string of digits; NextIdFreshWhileConsecutive and CreateOverwritesTakenId state when it is fresh and when it collides |
| ReminderStore.DecimalString | cogs/reminders.py:91 | `str(n)` is a non-empty string of digits, one character exactly when n < 10 |
| ReminderStore.DecimalStringInjective | cogs/reminders.py:91 | different counts give different ids |
| ReminderStore.NextIdFreshWhileConsecutive | cogs/reminders.py:91-93 | while the ids are "1" to str(len), the next id is not yet taken |
| ReminderStore.CreateKeepsIdsConsecutive | cogs/reminders.py:91-93 | creating in such a store grows it by one and keeps the ids "1" to str(len) |
| ReminderStore.CreateOverwritesTakenId | cogs/reminders.py:91-93 | when the next id is already taken, creating replaces that reminder and the store does not grow |
| ReminderStore.CancelThenCreateOverwrites | cogs/reminders.py:135-137 | create a and b, cancel "1", create c: c gets id "2" and b is lost |
| ReminderCommands.CheckDuration | cogs/reminders.py:82-88 | a delay is accepted exactly when it parses and lies in [60, 604800]; otherwise it is refused with the matching error |
| ReminderCommands.DurationBoundaries | cogs/reminders.py:83-88 | 59 s and 604801 s are refused; 60 s and 604800 s are accepted |
| ReminderCommands.CancelDecision | cogs/reminders.py:195-212 | an absent id is not found, someone else's is forbidden, and only the owner's own is cancelled |
| ReminderCommands.ListReminders | cogs/reminders.py:165-168 | exactly the caller's entries, with their records |
| ReminderCommands.ListingsPartition | cogs/reminders.py:165-168 | each reminder is in its owner's listing and in no one else's |
| ReminderCommands.CancelledLeavesListing | cogs/reminders.py:195-198 | a cancelled id leaves every listing, and nothing else in any listing changes |
| ReminderCommands.RefusedCancelKeepsReminder | cogs/reminders.py:196-207 | a refused cancel leaves the reminder in its owner's listing and out of the requester's |
| ReminderCommands.CreatedShowsInListing | cogs/reminders.py:91-99 | a created reminder is in its owner's listing under the allocated id |
| ReminderCog.Reminders.Put | cogs/reminders.py:93-100 | the record is stored under the id, the order is updated as for a dict, and the file is rewritten |
| ReminderCog.Reminders.Remind | cogs/reminders.py:78-114 | a refused delay gives the error and changes nothing; an accepted one stores a one-time reminder due now + delay under str(len + 1) and saves |
| ReminderCog.Reminders.Remindme | cogs/reminders.py:122-160 | the same delay check on `time` only; an accepted one stores a recurring reminder with the interval text unparsed and saves |
| ReminderCog.Reminders.CancelReminder | cogs/reminders.py:193-212 | the outcome is CancelDecision; only Cancelled deletes the key and rewrites the file, and the other outcomes change nothing |
| ReminderCog.Reminders.CheckReminders | cogs/reminders.py:34-67 | a completed run leaves TickStore and saves exactly when something fired once; a stuck run keeps the partial reschedules, deletes and saves nothing; the new store does not depend on whether channels and users resolve |
| DueCheck.Scan | cogs/reminders.py:39-60 | the scan loop builds Advance, FiredIn and Notices over the visited keys and stops exactly at FirstStuck |
| ReminderCog.Reminders.DeleteAll | cogs/reminders.py:63-64 | the deletion loop removes exactly the collected ids from the map and the order |
| DueCheck.Rescheduled | cogs/reminders.py:54-58 | a recurring reminder moves from its old time by the parsed interval; nothing else in the record changes |
| DueCheck.Due | cogs/reminders.py:41 | a reminder is due once the clock has reached its time |
| DueCheck.FiresOnce | cogs/reminders.py:59-60 | a due one-time reminder, the kind the run collects for deletion |
| DueCheck.Stuck | cogs/reminders.py:54-56 | a due recurring reminder whose interval text does not parse, the case in which `parse_timespan` raises inside the due branch |
| DueCheck.StuckAt | cogs/reminders.py:54-56 | the key is present and its reminder is stuck |
| DueCheck.FirstStuck | cogs/reminders.py:54-56 | the first position whose reminder is due, recurring and has an unparsable interval; no earlier one is |
| DueCheck.Advance | cogs/reminders.py:39-58 | firing in place never adds or removes a key |
| DueCheck.FiredIn | cogs/reminders.py:59-60 | `to_remove` after n iterations; its own contract gives only that it holds at most n ids, and FiredInExactly states which ids |
| DueCheck.FiredInExactly | cogs/reminders.py:59-60 | `to_remove` holds exactly the visited due one-time ids |
| DueCheck.Notices | cogs/reminders.py:41-52 | the notifications after n iterations; its own contract gives only that there are at most n, NoticesComeFromDueReminders and NoticesReachKnownRecipients state that each notice is sound, and NoticesReachEveryResolvedDue that none is missing |
| DueCheck.NoticeOf | cogs/reminders.py:46-52 | a notification carries the reminder's channel, its owner to mention, and its text |
| DueCheck.NoticesComeFromDueReminders | cogs/reminders.py:41-52 | every notification is the text of a visited due reminder, sent to its channel and owner |
| DueCheck.NoticesReachKnownRecipients | cogs/reminders.py:42-45 | notifications go only where both channel and user resolve |
| DueCheck.NoticesReachEveryResolvedDue | cogs/reminders.py:41-52 | every visited due reminder whose channel and user both resolve is notified |
| DueCheck.FiredKeys | cogs/reminders.py:41-60 | the ids a completed run removes are exactly the due one-time ones |
| DueCheck.TickStore | cogs/reminders.py:39-64 | the store after a completed run keeps exactly the keys that did not fire once |
| DueCheck.FullScanIsTick | cogs/reminders.py:39-64 | a full scan followed by the batch deletion yields TickStore |
| DueCheck.FiredInAll | cogs/reminders.py:59-64 | a full scan collects exactly the ids that fire once |
| DueCheck.AdvanceStep | cogs/reminders.py:54-58 | visiting one more key fires its reminder in place if due and changes nothing else |
| DueCheck.ScanStep | cogs/reminders.py:39-60 | at each iteration the key still holds its original record, and the store, `to_remove` and the notifications grow by that key's contribution |
| DueCheck.NotYetVisited | cogs/reminders.py:39 | a key later in the order has not been visited yet |
| DueCheck.VisitedAll | cogs/reminders.py:39 | a full scan visits every key |
| DueCheck.InterruptedScan | cogs/reminders.py:54-58 | after a stop, the stuck reminder and all later ones keep their records, and every earlier due reminder has fired |
| DueCheck.NotDueUntouched | cogs/reminders.py:40-41 | a reminder that is not due stays exactly as it was |
| DueCheck.OneTimeFiresOnce | cogs/reminders.py:59-64 | a due one-time reminder is gone from the store and from its owner's listing, and nothing left fires once at the same clock |
| DueCheck.RecurringAdvancesFromDueTime | cogs/reminders.py:54-58 | a due recurring reminder stays, moved from its old time by the interval; it lands on now + interval only if it was due exactly now, and it is still due afterwards exactly when its new time is not after now |
| DueCheck.TickKeepsOwnership | cogs/reminders.py:54-58 | a run never changes a reminder's owner, channel, text or recurrence |
| DueCheck.TickSize | cogs/reminders.py:59-64 | the store shrinks by exactly the number of reminders that fired once |
| DueCheck.NothingDueNothingChanges | cogs/reminders.py:39-41 | with nothing due, the store is unchanged and nothing is removed, so nothing is saved |
| DueCheck.RescheduleOnlyLeavesSnapshotStale | cogs/reminders.py:54-67 | a run that only reschedules, by a non-zero interval, changes memory but does not save, so a file that held the old store no longer matches |

## Left out

- The async scheduling is left out: `@tasks.loop(seconds=30)`, `start()` and the `before_loop` wait for readiness (cogs/reminders.py:17, 33, 69-71). One run is the method `CheckReminders` called with `now`.
- Also left out is what `tasks.loop` does after an exception. The model ends the run with `failure`; whether the loop runs again is a property of discord.py.
- Embeds, message texts and `interaction.response.send_message` are left out. Each command returns an outcome value instead.
- `channel.send` is not modelled beyond the `Notice` it carries; the model treats every send as succeeding. In the source a send that raises (a missing permission, say, at cogs/reminders.py:52) leaves the loop like an unparsable interval: earlier reschedules stay in memory, and nothing is deleted or saved. A hang inside `await` is not modelled either.
- `parse_timespan` is an opaque parameter. Its float results and its grammar are not modelled; durations are integers.
- `datetime`, `pytz`, `isoformat`, `fromisoformat` and `strftime` are replaced by unbounded integer seconds on one clock. A stored time string that does not parse is not modelled. Python's datetime stops at year 9999, so `reminder_time + timedelta(seconds=interval)` (cogs/reminders.py:57) raises OverflowError for a huge interval such as "9000y"; that stops the run like an unparsable interval, while DueCheck.Rescheduled always succeeds.
- File I/O is reduced to the snapshot. `os.makedirs`, open and write failures, unreadable or malformed JSON, and records missing a field are left out. `Load` receives the file's pairs, or `None` when there is no file.
- Concurrency during `await` is left out. A `cancelreminder`, or a create under a fresh id, during the await at cogs/reminders.py:52 changes the dict's size, and the loop raises "dictionary changed size during iteration" at its next step. A create that overwrites a taken id does not raise, and the scan then sees the new record if that key comes later in the order. The model runs each operation to completion.
- DueCheck.Scan and ReminderCog.Reminders.DeleteAll work on a local copy of the map and the order, which is written back to the fields when the loop ends or stops. The source changes `self.reminders` in place. The final state is the same as long as no command handler changes the dict while the scan awaits a send at cogs/reminders.py:52; the concurrency line above leaves that case out.
- ReminderCommands.ListReminders returns the caller's entries as a map. The display order and formatting of the listing embed are left out.
- The bot's other commands, event handlers and configuration (bot.py, config.py) are not part of this model.
