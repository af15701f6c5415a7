# RemindMe: the WhatsApp reminder bot, modelled in Dafny

RemindMe is a small Flask webhook. A user can send it the quick command
`remind me at HH:MM message`. The bot stores a reminder with the next time
that clock time comes round, today or tomorrow, and replies with a
confirmation. A background worker wakes up every thirty seconds. On each
pass it hands a `⏰ Reminder: message` notice to the Twilio client for every
reminder whose time has come, and it removes those reminders from the list.

This project models both halves of `app.py`:

- **Text.dfy** (`module Text`) models the three Python string operations
  the handler relies on:
  - `str.strip()`, over the exact whitespace set of `str.isspace`;
  - the case-insensitive prefix test `lower().startswith(...)`;
  - `str.split(" ", maxsplit)`, which cuts on single spaces, keeps empty
    pieces and leaves the remainder whole.
- **Calendar.dfy** (`module Calendar`) models naive `datetime` values: a
  proleptic Gregorian date with leap-year February and a time of day down
  to microseconds. It also models their order, the reference "next calendar
  day", and `replace(day=…)`, which fails with `ValueError` on a day the
  month does not have.
- **QuickCommand.dfy** (`module QuickCommand`) turns one inbound message
  into a reply plus at most one new reminder, as a pure function
  `Handle(body, sender, now)`. Inside it:
  - `ParseTime` models `strptime(…, "%H:%M")`;
  - `FireTime` models the today-or-tomorrow computation;
  - `Confirmation` builds the reply text;
  - `CommandOutcome` and the lemmas beside it state what the handler does
    with a command built from its words.
- **Worker.dfy** (`module Worker`) describes one worker pass as values:
  - `DueAt` and `PendingAt` are the reminders that are due and not yet due
    at a clock reading, in list order;
  - `Notify` and `Notices` build the notices;
  - `RemoveFirst` is `list.remove`.
  It also proves how passes behave, one by one and in sequence.
- **App.dfy** (`module App`) holds the mutable state the source keeps at
  module level:
  - class `ReminderBot` owns the `reminders` list, the service's own
    number and the client. `Bot` appends what `Handle` produces.
    `Sweep` is the worker's loop over a copy of the list: it removes due
    entries from the live list one by one and is proved against
    `PendingAt` and `Notices(DueAt(…))`.
  - class `MessagingClient` records every send attempt. Whether the
    provider accepts a send is a nondeterministic outcome, and
    the sweep ignores it.
- **Wrappers.dfy** holds the `Option` type, and **Sequences.dfy** a few
  generic facts about sequences and multisets used in the proofs.

## How the source behaves, and how the model follows it

- On the last day of a month, a clock time that has already passed today
  makes `replace(day=day + 1)` raise. The `except` then answers with the
  format-error reply. The model follows the code as written here
  (`FireTime` returns `None`; see `MonthEndRefused` and `ExampleMonthEnd`).
  The next-calendar-day function `NextDay` is never used to compute the
  fire time. It is the reference that the contracts compare the computed
  date and the window `[now, now + 1 day)` against.
- The hour field of `%H:%M` accepts one or two digits with value at
  most 23, and the minute field one or two digits with value at most 59.
  Nothing may follow the minute, so `"7:5"`, `"07:05"` and `"7:05"` are all
  07:05, while `"24:00"`, `"12:60"` and `"12:30x"` are refused.
  `ParseTimeExactly` states exactly this.
- Only the prefix test is case-insensitive. Splitting and the message use
  the stripped text as typed, so case and inner spaces of the message are
  kept.
- A stored time has seconds and microseconds zero. The comparison with
  `now` takes `now`'s seconds and microseconds into account.
- `reminders.remove(r)` removes the first element equal to `r`. The proof
  of `Sweep` shows that this is always the entry just visited: every
  earlier equal entry is due as well and has already been removed.

## Model

| member | source | states |
|---|---|---|
| Text.Strip | app.py:42 | the stripped text neither starts nor ends with a whitespace character |
| Text.TrimStartDropsSpace | app.py:42 | left stripping removes a whitespace prefix, and that prefix only, stopping at the first other character |
| Text.TrimEndDropsSpace | app.py:42 | right stripping removes a whitespace suffix, and that suffix only, stopping at the last other character |
| Text.StripPadding | app.py:42 | any whitespace around a text with non-space ends is removed exactly: stripping gives that text back |
| Text.IgnoringCaseExactly | app.py:46 | against a prefix of lower-case letters and spaces, such as "remind me at", the case-insensitive test accepts a text exactly when it is at least as long and each of its first characters is the prefix's character or, for a letter, that letter's capital |
| Text.FirstSpace | app.py:49 | the index found holds a space and nothing before it is a space |
| Text.Split | app.py:49 | `split(" ", n)` yields between 1 and n + 1 pieces |
| Text.SplitPieces | app.py:49 | no piece but the last contains a space, and the last does not either when fewer than n cuts were made |
| Text.SplitJoin | app.py:49 | joining the pieces with single spaces gives back the text, so nothing is lost and the message keeps its inner spaces |
| Text.JoinSplit | app.py:49 | conversely, space-free pieces (the last may hold spaces once all cuts are used) joined by spaces split back into exactly those pieces |
| Text.SplitCount | app.py:49-50 | the number of pieces is 1 + min(number of spaces, n), so token 3 exists exactly when the text has three spaces |
| Text.SplitCons | app.py:49 | a space-free first word followed by a space is cut off as the first piece, and the rest is split with one cut fewer |
| QuickCommand.MessageIsRemainder | app.py:49-51 | the message is the whole text after the fourth single space, inner spaces kept, and is empty when the text has only three spaces |
| Calendar.DaysInMonth | app.py:59 | month lengths are between 28 and 31, and February has 29 days exactly in leap years |
| Calendar.NextDay | app.py:57-59 | the reference next day is valid, later than the given day, and no valid date lies strictly between them |
| Calendar.ReplaceDay | app.py:52-59 | `replace(day=d)` succeeds exactly when d is a day of the month, and then changes only the day |
| Calendar.ReplaceNextDay | app.py:58-59 | moving to `day + 1` gives the next calendar day, except on the last day of a month, where it fails |
| Calendar.BeforeIsStrictTotalOrder | app.py:26 | the timestamp comparison behind `<` and `>=` is irreflexive, transitive and total on valid timestamps |
| Calendar.TimeOfDayInjective | app.py:58 | two valid timestamps of one day with equal time of day are equal |
| QuickCommand.ParseTime | app.py:52 | a parsed time has hour 0-23 and minute 0-59 |
| QuickCommand.NumeralSpells | app.py:52 | a field reads as n exactly when it is n written with two digits, or with one digit when n < 10 |
| QuickCommand.ParseTimeExactly | app.py:52 | a token parses, and parses to c, exactly when it is c's hour in 1-2 digits, a colon at index 1 or 2, and c's minute in 1-2 digits |
| QuickCommand.FormatThenParse | app.py:52-65 | the HH:MM that the reply prints reads back as the same hour and minute |
| QuickCommand.FormatClock | app.py:65 | `strftime('%H:%M')` prints five characters: the hour in two digits, a colon, and the minute in two digits |
| QuickCommand.AtToday | app.py:52-56 | the parsed clock time moved to today's date keeps its hour and minute, has zero seconds and microseconds, and is a valid timestamp when the clock time and the date are valid |
| QuickCommand.FireTime | app.py:52-59 | there is no time exactly when today's moment has passed and today is the last day of the month; otherwise the time keeps the hour and minute with zero seconds, lies in [now, now + 1 day), is today exactly when today's moment has not passed, and is otherwise the next calendar day |
| QuickCommand.FireTimeIsNextOccurrence | app.py:57-59 | no timestamp at or after now with the same hour and minute and zero seconds comes before the fire time |
| QuickCommand.Confirmation | app.py:65 | the reply is the fixed head, the HH:MM that reads back as the fire time, a space, the message and a two-character closing mark (" ✅"); it never equals the help or the format-error text |
| QuickCommand.Schedule | app.py:47-64 | a reminder that is built goes to the sender, has a valid time with zero seconds, and lies in [now, now + 1 day) |
| QuickCommand.Handle | app.py:41-71 | the help reply comes exactly when the stripped text lacks the case-insensitive prefix, and then nothing is added; with no reminder the reply is help or format error; with one it goes to the sender, lies in [now, now + 1 day), and the reply is its confirmation |
| QuickCommand.CommandOutcome | app.py:46-67 | for a command made of three words, a time token and an optional message, a reminder is added exactly when the token parses and a fire time exists; it then carries that time, the whole message and the sender; otherwise the reply is the format error |
| QuickCommand.MissingTimeToken | app.py:49-50 | a command with fewer than three spaces has no token 3 and gets the format error, adding nothing |
| QuickCommand.MonthEndRefused | app.py:58-67 | on the last day of a month, a clock time already passed today gets the format error and adds nothing |
| QuickCommand.DrinkWaterIsCommand | app.py:42-46 | the text "remind me at 14:30 drink water" is already stripped and passes the prefix test |
| QuickCommand.DrinkWaterFields | app.py:49-52 | in that text, token 3 reads as 14:30 and the message is "drink water" |
| QuickCommand.ExampleLaterToday | app.py:40-65 | sent at 10:00 on 2025-08-16, that command is scheduled for 14:30 the same day |
| QuickCommand.ExampleTomorrow | app.py:40-65 | sent at 15:00 on 2025-08-16, it is scheduled for 14:30 on 2025-08-17 |
| QuickCommand.ExampleMonthEnd | app.py:58-67 | sent at 15:00 on 2025-08-31, it gets the format error and adds nothing |
| Worker.Notify | app.py:28-32 | the notice goes from the service's number to the reminder's recipient, and its body is the banner followed by the message |
| Worker.Notices | app.py:25-32 | there is one notice per reminder, in list order |
| Worker.IsDue | app.py:26 | on valid timestamps a reminder is due exactly when its time is now or earlier |
| Worker.RemoveFirst | app.py:35 | `list.remove` shortens the list by one and removes one occurrence of the element, leaving the rest unchanged as a multiset |
| Worker.RemoveFirstSkips | app.py:35 | when the element does not occur before a given position, the occurrence removed is the one at that position and list order is kept |
| Worker.DueMembers | app.py:26 | an entry is sent exactly when it is in the list and its time is at or before now, and is kept exactly when it is in the list and its time is after now |
| Worker.DuePendingPartition | app.py:25-35 | the sent and the kept entries together are the list, each entry exactly once |
| Worker.FiltersOfConcat | app.py:25-35 | both selections keep list order, distributing over concatenation |
| Worker.StepDue | app.py:26-35 | one step on a due entry: removing it from the live list leaves the kept entries so far followed by the unvisited rest, and its notice is the next one sent |
| Worker.StepPending | app.py:26 | one step on an entry not yet due changes neither the live list nor the notices |
| Worker.PassIdempotent | app.py:24-35 | a second pass at the same reading sends nothing and keeps the list as it is |
| Worker.PassesKeep | app.py:23-36 | a pass at a reading followed by a pass at a later one keeps what one pass at the later reading keeps |
| Worker.PassesSend | app.py:23-36 | between them, those two passes send what one pass at the later reading sends, each reminder once |
| Worker.DueLater | app.py:26 | a reminder due at one reading is due at every later one |
| App.MessagingClient.Create | app.py:28-32 | each call records exactly one send attempt, whatever the provider answers |
| App.ReminderBot.constructor | app.py:12-20 | the service starts with an empty reminder list |
| App.ReminderBot.Bot | app.py:41-71 | the reply is the handler's reply, and the list gains exactly the reminder the handler produces, at the end, or stays unchanged |
| App.ReminderBot.Sweep | app.py:24-35 | after one pass over a copy of the list, the list is exactly the entries not yet due, in their original order; every due entry got exactly one send attempt, in list order, whether the send succeeded or not |

## Left out

- database.py only creates two SQLite tables, and nothing in `app.py` uses
  them. It is not part of this model.
- The endless `while True` loop, `time.sleep(30)` and the daemon thread are
  left out. The model is one pass, `Sweep`, and `PassesKeep` and
  `PassesSend` relate consecutive passes.
- The webhook and the worker share the list without a lock. They run
  concurrently in the source and one after the other in the model.
- Flask routing, `request.values` and the TwiML `MessagingResponse` are
  left out. The body and the sender come in as strings, with the empty
  defaults being ordinary inputs, and the reply goes out as the text of its
  message.
- The Twilio client, its credentials and the network call are left out.
  `MessagingClient.Create` records the attempt and returns an arbitrary
  success flag. The `print` of a failed send is left out.
- `datetime.now()` is read several times in the handler, and the model
  uses one reading `now` for all of them. The race where the date changes
  between those reads is not modelled.
- QuickCommand.ParseTime: only ASCII digits are read. Python's `\d` in the
  `strptime` pattern also accepts other Unicode decimal digits, and those
  are not modelled.
- Text.StartsWithIgnoringCase folds ASCII letters only. This is exact for
  the prefix "remind me at":
  - the only non-ASCII characters that `lower()` maps into ASCII are the
    Kelvin sign (to "k") and U+0130 (to "i" plus a combining dot);
  - "k" does not occur in the prefix;
  - the prefix's only "i" must be followed by "n", while U+0130 puts the
    combining dot U+0307 in that place.
- Calendar.ValidDate has no upper year bound. `datetime`'s year 9999 limit
  cannot be reached from a real clock reading.
- Calendar.BeforeIsStrictTotalOrder: totality is stated for valid
  timestamps only, which are the only ones the service ever compares.
