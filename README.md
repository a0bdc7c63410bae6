# Discord move bot: message migration and purge

This project is a Dafny model of the two slash commands of `discord_move_bot.py`.

- `/move` (`move_messages`) collects messages from a source channel. It takes all of them (`-all`), or those no older than a time period (`-last`), or those by one user (`-from_user`). It re-posts each one to a destination channel, oldest first, with an author header and the re-uploaded attachments. Then it deletes the original.
- `/delete` (`delete_messages`) deletes every message older than a time period and reports how many it deleted.

Both handlers share an inline time-period parser. `"7 days"`, `"1 hour"` and `"90 minutes"` all become a `datetime.timedelta`.

The files, each holding one module:

- `results.dfy`: `Option` and `Result`.
- `period.dfy`: the parser, plus the clock. Instants and durations are integer microseconds, and an instant counts from 0001-01-01 as Python's `datetime` does.
- `channel.dfy`: messages, the posts the bot sends, and a `Channel` class whose methods update `history` and `posts` in place. It also holds the selection rules and the specification functions the handlers are proved against.
- `move.dfy`: the `/move` handler. It has a history scan loop and a replay loop.
- `purge.dfy`: the `/delete` handler. It has a delete loop.

The network is modelled as follows:

- A channel is its history, newest first, plus what the bot has posted to it.
- `datetime.now()` becomes a parameter `now`.
- The first transport failure of a run becomes an oracle parameter `Fault(step, stage)`. For `/move` the stage is the history fetch, an attachment fetch, a send or a delete. For `/delete` it is the history fetch or a delete.
- Neither handler catches a transport error, so that failure ends the handler with no reply. The model returns `Aborted(...)` and states exactly what was sent and deleted before it.

## Model

| member | source | states |
|---|---|---|
| Period.ParseTimePeriod | discord_move_bot.py:67-77 | the result is the friendly "invalid format" error exactly when the text is not two whitespace-separated words whose first is an integer |
| Period.Interpret | discord_move_bot.py:69-77 | the result is the malformed error exactly when the number is not an integer. It is `Raised(UnknownKeyword)` exactly when the number is an integer and the keyword (`unit` with one trailing `s` removed, then `s` appended) is not a `timedelta` keyword. It is `Ok` exactly when the number is an integer, the keyword is known and the product is within `timedelta`'s range, and then the value is the number times the keyword's microseconds |
| Period.Split | discord_move_bot.py:68 | every word `str.split()` produces is non-empty and free of Python whitespace |
| Period.SplitEmpty | discord_move_bot.py:68 | a text splits into no words exactly when it is all whitespace |
| Period.SplitBlankThen | discord_move_bot.py:68 | leading whitespace does not change the split |
| Period.SplitPadded | discord_move_bot.py:68 | two words with any whitespace before, between (at least one character) and after them split into exactly those two words |
| Period.SplitTwoWords | discord_move_bot.py:68 | two words joined by a space split back into exactly those two words |
| Period.Digits | discord_move_bot.py:69 | the decimal digits of `n` read back as `n` (round trip with `int()`) |
| Period.ShowIsInteger | discord_move_bot.py:69 | `int(str(n)) == n` for every integer, negative ones included, that has no more digits than `int()`'s limit |
| Period.IntegerValue | discord_move_bot.py:69 | `int()` gives a negative value only for a leading `-`, and never a positive one after it. What it accepts (`IsInteger`) is an optional sign and 1 to 4300 ASCII digits |
| Period.DurationFitsDigits | discord_move_bot.py:69-74 | any whole number of units that `timedelta` can hold is within `int()`'s digit limit |
| Period.DigitsLength | discord_move_bot.py:69 | a number below 10^k has at most k decimal digits |
| Period.Keyword | discord_move_bot.py:71-74 | a unit ending in `s` is its own keyword, and any other unit gets `s` appended |
| Period.KeywordMicros | discord_move_bot.py:74 | every `timedelta` keyword ends in `s` and stands for between one microsecond and one week |
| Period.PluralIsSingular | discord_move_bot.py:71-74 | `"<n> <unit>"` and `"<n> <unit>s"` parse to the same result |
| Period.UnknownUnitIsUncaught | discord_move_bot.py:74-75 | a unit that is not a `timedelta` keyword raises (TypeError), which the handler does not catch, rather than giving the friendly error |
| Period.ParseFormatted | discord_move_bot.py:67-74 | a formatted integer, a space and a known unit, singular or plural, parse back to that many units when in range |
| Period.ParseTwoWords | discord_move_bot.py:68-74 | two words joined by one space are interpreted as number and unit (any other whitespace is covered by SplitPadded) |
| Period.OneWordIsMalformed | discord_move_bot.py:67-77 | a single word is the friendly "invalid format" error |
| Period.NonIntegerIsMalformed | discord_move_bot.py:67-77 | a first word that is not an integer is the friendly "invalid format" error |
| Channel.Matches | discord_move_bot.py:60-83 | the selection rules: everything, no older than the window (inclusive), authored by the given user (nothing without one), or created strictly before the cutoff |
| Channel.Pick | discord_move_bot.py:59-83 | a selection never holds more messages than the history. Membership and order are stated by PickMembers and PickAppend |
| Channel.PickMembers | discord_move_bot.py:59-83 | a message is selected by a rule exactly when it is in the history and the rule holds for it (each rejected one exactly when it does not) |
| Channel.PickEverything | discord_move_bot.py:60-61 | `-all` collects the whole history |
| Channel.PickSizes | discord_move_bot.py:59-83 | selected and rejected messages together number the history |
| Channel.PickAppend | discord_move_bot.py:59-83 | the selection of a concatenation is the concatenation of the selections |
| Channel.PickDistinct | discord_move_bot.py:59-83 | selection keeps ids distinct |
| Channel.Reverse | discord_move_bot.py:86 | `reversed(messages)` has the same length and the same members |
| Channel.ReverseAt | discord_move_bot.py:86 | element `k` of the reversal is element `n - 1 - k` of the original |
| Channel.ReverseDistinct | discord_move_bot.py:86 | reversal keeps ids distinct |
| Channel.ReverseOfPick | discord_move_bot.py:59-86 | reversing the selection equals selecting from the reversed history, so the replay is oldest first |
| Channel.Carried | discord_move_bot.py:87 | the re-uploaded files are exactly the present attachment slots with a non-empty url, at most one per slot |
| Channel.CarriedAppend | discord_move_bot.py:87 | the files of two runs of slots are the files of the first followed by those of the second, so slot order is kept |
| Channel.CarriedOne | discord_move_bot.py:87 | one slot gives its attachment exactly when it is present and has a url |
| Channel.Compose | discord_move_bot.py:87-89 | the post carries those files, and its text ends with the original content after a non-empty header |
| Channel.Completed | discord_move_bot.py:86-90 | a run stops early exactly when the failing step is within the run, and then it stops at that step |
| Channel.Without | discord_move_bot.py:86-90 | deleting never adds messages. Membership is stated by WithoutMembers and order by DeletingSelectedLeavesRest |
| Channel.WithoutMembers | discord_move_bot.py:86-90 | after deleting a set of ids, a message remains exactly when it was there and its id is not in the set |
| Channel.WithoutDistinct | discord_move_bot.py:86-90 | deleting keeps a history's ids distinct |
| Channel.WithoutNone | discord_move_bot.py:86-90 | deleting nothing changes nothing |
| Channel.WithoutAbsent | discord_move_bot.py:86-90 | deleting an id no message has changes nothing |
| Channel.WithoutThenOne | discord_move_bot.py:86-90 | one more delete after a set of deletes equals deleting the union |
| Channel.DeleteNewest | discord_move_bot.py:86-90 | deleting the newest message by its unique id leaves exactly the older ones |
| Channel.DeletingSelectedLeavesRest | discord_move_bot.py:86-90 | deleting every selected message leaves exactly the rejected ones, in order |
| Channel.Channel.constructor | discord_move_bot.py:59 | a channel starts with a history of distinct ids and nothing posted by the bot |
| Channel.Channel.Send | discord_move_bot.py:89 | `channel_to.send` appends the post, changes nothing else and keeps the history's ids distinct |
| Channel.Channel.Delete | discord_move_bot.py:86-90 | `message.delete` removes that message from the history, changes nothing else and keeps ids distinct |
| Move.ParseAction | discord_move_bot.py:53-55 | each action is recognised exactly for its own string, and any other string is rejected |
| Move.Window | discord_move_bot.py:64-77 | a missing or empty period asks for one, a malformed period is the friendly error, and otherwise the window is the parsed duration. An unknown unit or an out-of-range duration aborts with that cause |
| Move.Scanned | discord_move_bot.py:57-83 | the scan ends the handler exactly when the history fetch fails at a position within the history (its end included), or under `-last` when the history is non-empty and the period is bad. The reply is the period's error when the first message was fetched, and otherwise `HistoryFailed` at that position. Otherwise the batch holds exactly the history's messages that the action selects: all, those by the given user, or those no older than the window |
| Move.ScanHistory | discord_move_bot.py:57-83 | the loop gives exactly what `Scanned` says: the messages the selection rule picks, in history order. Under `-last` it stops with the period's error once the first message is fetched, and never on an empty history. A failing history fetch stops it at that position |
| Move.SentCount | discord_move_bot.py:86-90 | a replay sends as many posts as it completes steps, plus one exactly when a delete after a send fails |
| Move.Replay | discord_move_bot.py:86-90 | after a replay that stops at step `k`, the destination holds the posts of the first `k` messages (plus one when the delete after a send failed), and the source lacks exactly those `k` messages. The reply is `Moved(n)` only when nothing failed |
| Move.MoveMessages | discord_move_bot.py:32-93 | the action defaults to `-all`. An invalid action, a period error or a failing history fetch changes nothing. Otherwise the outcome is the replay of the reversed selection. Distinct ids are preserved, and an empty source moves nothing |
| Move.NoUserSelectsNothing | discord_move_bot.py:82-83 | `-from_user` without a user selects nothing |
| Move.FullMove | discord_move_bot.py:57-93 | a completed move leaves exactly the unselected messages in the source and sends the selected ones oldest first |
| Move.PartialMove | discord_move_bot.py:86-90 | when step `k` fails, the messages replayed before it are gone and every later one, the failing one included, is still in the source |
| Move.SecondSendFails | discord_move_bot.py:86-90 | for three messages under `-all` with the second send failing: only the oldest is posted and deleted, and the other two stay |
| Purge.OlderThan | discord_move_bot.py:128-132 | the messages yielded are exactly those created strictly before the cutoff |
| Purge.Cutoff | discord_move_bot.py:128 | the cutoff exists exactly when `now - delta` is a valid `datetime`, and then it is `now - delta` |
| Purge.Outcome | discord_move_bot.py:131-137 | the reply is `Deleted(n)`, counting every older message, exactly when no fetch or delete fails within the run. Otherwise it names the failing call and its step |
| Purge.DeleteEach | discord_move_bot.py:131-134 | the count is the number of messages deleted before the step whose fetch or delete raises (all of them if none does), and exactly those messages are gone |
| Purge.DeleteMessages | discord_move_bot.py:101-137 | a malformed period gives the friendly error and changes nothing. An unknown unit, an out-of-range duration or an out-of-range cutoff aborts and changes nothing. Otherwise the older messages are deleted up to the first failing fetch or delete, and the reply is `Outcome` |
| Purge.PurgeKeepsNewer | discord_move_bot.py:128-134 | a completed purge leaves exactly the messages created at or after the cutoff |
| Purge.PurgeCountsEachOnce | discord_move_bot.py:131-134 | the deleted count plus the messages left equals the original history size |

## Left out

- Bot set-up, command registration, `interaction.response.defer()` and the wording of the follow-up messages are not modelled. The replies are a datatype, so the model keeps which message is sent and the counts it reports.
- The `async` iteration, pagination of `history(limit=None)` and any concurrency with other clients posting or deleting are not modelled. A handler sees its channel's history as it was when the handler started.
- Attachment bytes: `attachment.to_file()` is modelled only by which attachments are carried and by the failure it may raise (`AttachmentFails`). The fault oracle allows that failure at any replay step, including one whose message has no file to fetch.
- History fetches: `history()` fetches pages of up to 100 messages, so a real fetch can fail only at a page boundary. The fault oracle (`HistoryFails`) allows the failure at any position.
- `datetime.now()` is a parameter. Subtracting the timezone-aware `message.created_at` from the naive `datetime.now()` would raise TypeError in the `-last` branch. The model treats both as one clock.
- `int()` accepts underscores between digits, surrounding whitespace and non-ASCII decimal digits. The model accepts an optional sign followed by ASCII digits only.
- Period.IsInteger: the 4300-digit limit of `int()` is that of Python 3.11 and later, and of the 3.7.14 to 3.10.7 security releases. Older interpreters convert any length; on them a longer number gives `Raised(Overflow)`, or a value when zero-padded, or `Raised(UnknownKeyword)` when the unit is unknown, where the model gives the friendly error.
- Posts the bot sends to a channel are kept in its `posts` and do not enter its `history`. Moving a channel onto itself therefore does not re-scan the bot's own posts.
- `history(before = cutoff)` is taken to yield exactly the messages created strictly before the cutoff, in history order.
- Deleting a message twice (Discord's NotFound) cannot happen in the model, because ids are distinct and each selected message is deleted once.
- The handlers abort on the first failing history fetch, attachment fetch, send or delete, as the code does. Neither the move count nor the delete count is reported after a failure.
- Channel.Compose: states that the post ends with the original content after a non-empty header and carries the right files. It does not fix the header's exact text, `"<display name> (<user>):"` and a newline.
