# Community bot core: discussion votes, reminders, announcements, leaderboard

This project models the stateful core of a Telegram community bot (`bot.py`).
The bot keeps its data in MongoDB collections, schedules jobs with APScheduler
and answers through Telegram. The model keeps the logic that sits underneath
that plumbing:

- **Discussion ledger** (`Discussions`). `send_discussion_prompt` stores a
  topic with zero tallies. `vote` always goes to the latest topic. It refuses
  in four cases: no argument, an option other than `yes`/`no` after
  lowercasing, no topic yet, or a user who has already voted on that topic.
  Each refusal leaves everything unchanged. Otherwise it stores one vote
  record and bumps exactly one tally. The invariant `Consistent` says that
  each topic's tallies count its vote records and that no (user, topic) pair
  occurs twice.
- **Reminders** (`Reminders`). `set_reminder` checks its arguments and parses
  `YYYY-MM-DD HH:MM`. On success it stores a record with `notified = false`
  and registers a job under the record's id, replacing any job with that id.
  APScheduler's cron trigger accepts years from 1970 only. For an earlier
  year the trigger raises `ValueError` after the insert, so the record stays,
  no job is registered, and the reply is the format error.
  `send_reminder` sends only an existing, unnotified record and then sets its
  flag. The invariant says that a reminder has been sent exactly once if it is
  notified and never otherwise.
- **Reminder time format** (`Timestamps`). `strptime` and `strftime` with
  `%Y-%m-%d %H:%M`. An accepted input is a real calendar minute, leap years
  included, and each field is the value typed in its position. Month, day,
  hour and minute may be typed with one or two digits. Formatting and parsing
  again gives the same time. Parsing and formatting again gives the input
  with its one-digit fields zero-padded.
- **Announcements** (`Announcements`). An admin allow-list guards the insert.
  The daily send uses the latest announcement, or sends nothing when there is
  none.
- **Leaderboard** (`Leaderboard`). The top five users by points, ranked
  1, 2, ... Each name goes through the regex sanitiser
  `[_*[\]()~`>#+-=|{}.!]`. Inside that class, `+-=` is the range `+`..`=`, so
  the sanitiser also removes digits and `, - . / : ; <`. The model keeps this
  behaviour exactly (`SanitizeDropsDigits`).
- **Sentiment** (`Sentiment`). A three-way split on the sign of a polarity
  number, and the report, which counts the messages of each label.

Each MongoDB collection is a sequence whose index is the document's id.
"Latest" (`find_one({}, sort=[("_id", -1)])`) is therefore the last element.
The scheduler's job table is a map from reminder id to the time the job fires
at. Messages a handler sends are returned to the caller, or, for reminders,
appended to an outbox. Handler state lives in the classes `Ledger`,
`ReminderService` and `AnnouncementBoard`. Their methods change the sequences
in place and keep the invariants. The pure helpers are functions with lemmas.

Three facts about the code that the model keeps:
- the leaderboard query guarantees no order among equal points, so no tie
  order is assumed (`IsQueryAnswer`);
- `set_reminder` does not refuse a time in the past;
- the admin allow-list is the constant `{1186503158}` written in the handler.

## Model

| member | source | states |
|---|---|---|
| `Text.SplitJoin` | bot.py:265 | Joining arguments with single spaces is undone by splitting on a space, as long as no argument holds a space. |
| `Text.PadValue` | bot.py:241 | A zero-padded `%Y`/`%m`/`%d`/`%H`/`%M` field reads back as the number it was padded from. |
| `Timestamps.DaysInMonth` | bot.py:209 | A month has 28 to 31 days; February has 29 exactly in leap years. |
| `Timestamps.NumberField` | bot.py:209 | A `%m`/`%d`/`%H`/`%M` field is accepted exactly when it is one or two ASCII digits spelling a value in the field's range, and its result is that value. |
| `Timestamps.Parse` | bot.py:209 | Every accepted date/time is a real calendar minute: year 1-9999, month 1-12, a day that exists in that month, hour 0-23, minute 0-59. The date has exactly three `-`-separated fields and the time two `:`-separated fields. The year is the four digits typed, and month, day, hour and minute are the values of the one- or two-digit fields typed in their positions. Every other input is the `ValueError` result. |
| `Timestamps.ParseSpelling` | bot.py:209 | Every spelling of a valid time is accepted and parsed as that time: a four-digit year with month, day, hour and minute each written with one or two digits (`2024-2-29 9:5` as well as `2024-02-29 09:05`). |
| `Timestamps.ParseFormat` | bot.py:241 | Formatting a valid time with `%Y-%m-%d %H:%M` and parsing it again gives the same time. |
| `Timestamps.FormatParsed` | bot.py:209-241 | The time a reminder stores, shown in its message, is the date and time as typed with each one-digit field zero-padded. |
| `Timestamps.FormatParsedUnchanged` | bot.py:209-241 | A date and time typed with every field in two digits are shown in the reminder message exactly as typed. |
| `Discussions.TopicOrFallback` | bot.py:130-137 | The topic is the generated text when there is some; otherwise it is the fixed fallback question. It is never empty. |
| `Discussions.ParseChoiceSpellings` | bot.py:169-172 | A vote is accepted as yes exactly for `yes` in any letter case, and as no exactly for `no` in any letter case. |
| `Discussions.TallySplit` | bot.py:187-191 | Every vote record for a topic is counted by exactly one of its two tallies. |
| `Discussions.TalliesCountVotes` | bot.py:145-151 | In a consistent ledger, `yes_votes + no_votes` of a topic equals the number of its vote records. |
| `Discussions.AtMostOneVote` | bot.py:181-184 | With one vote per voter, there is at most one record per (user, topic). |
| `Discussions.OpenKeepsConsistent` | bot.py:145-151 | Storing a new topic with zero tallies keeps the ledger consistent. |
| `Discussions.VoteKeepsConsistent` | bot.py:186-191 | Recording a first vote on the latest topic, with its one tally increment, keeps the ledger consistent. |
| `Discussions.Ledger.SendDiscussionPrompt` | bot.py:140-157 | Appends one topic with zero tallies. Vote records are unchanged. The posted topic is the generated one or the fallback. |
| `Discussions.Ledger.Vote` | bot.py:160-193 | Four refusals, each under exactly its condition and each leaving topics and votes unchanged. Otherwise: one new record for the latest topic and the chosen tally of that topic raised by one. Older topics are unchanged. |
| `Reminders.ParseRequest` | bot.py:200-209 | With fewer than three arguments: usage. With a date/time that does not parse: the format error. Otherwise: a valid time that survives the format round trip. |
| `Reminders.ReminderTextRoundTrip` | bot.py:206 | The stored reminder text splits back into the words after the date and time. |
| `Reminders.AtMostOnce` | bot.py:239-247 | In a consistent state no reminder id has been sent more than once. |
| `Reminders.AddKeepsConsistent` | bot.py:212-228 | Storing an unnotified reminder and its job under the new id keeps the invariant. |
| `Reminders.FireKeepsConsistent` | bot.py:239-247 | Sending an unnotified reminder and setting its flag keeps the invariant. |
| `Reminders.ReminderService.SetReminder` | bot.py:197-233 | On bad arguments nothing is stored and no job is registered. Otherwise one record with `notified = false` is appended. For a year from 1970 on, the job under its id is set to its time and the reply echoes the date and time as typed. For an earlier year no job is registered and the reply is the format error. |
| `Reminders.AddUnscheduledKeepsConsistent` | bot.py:218-233 | Storing an unnotified reminder whose job could not be registered keeps the invariant. |
| `Reminders.ReminderService.SendReminder` | bot.py:236-247 | Sends exactly when the record exists and is unnotified, and then marks it notified. Otherwise nothing changes. Afterwards an existing record is notified. |
| `Reminders.FireTwice` | bot.py:236-247 | Two firings of the same reminder send at most one message, and none if it was already notified. |
| `Announcements.AnnouncementBoard.SetAnnouncement` | bot.py:251-271 | A caller outside the allow-list, or a command with no arguments, changes nothing. Otherwise exactly one announcement (the arguments joined by spaces) is appended. |
| `Announcements.AnnouncementBoard.SendScheduledAnnouncement` | bot.py:275-280 | Sends the latest announcement, or nothing if there is none. |
| `Sentiment.AnalyzeBySign` | bot.py:304-313 | Positive, negative and neutral stand exactly for polarity above, below and equal to zero. |
| `Sentiment.CountsPartition` | bot.py:323-325 | The three label counts add up to the number of logged messages. |
| `Sentiment.SentimentReport` | bot.py:317-335 | No data exactly on an empty log. Otherwise the positive, neutral and negative counts are the numbers of logged messages with that label, and they add up to the total. |
| `Leaderboard.Sanitize` | bot.py:123 | The output contains no character of the class (the range `+`..`=` included) and is no longer than the input. |
| `Leaderboard.SanitizeKeepsOthers` | bot.py:123 | Every character outside the class is kept, as often as it occurs. |
| `Leaderboard.SanitizeSubsequence` | bot.py:123 | The output is a subsequence of the input: kept characters stay in order. |
| `Leaderboard.SanitizeIdempotent` | bot.py:123 | Sanitising twice is the same as sanitising once. |
| `Leaderboard.SanitizeUnique` | bot.py:123 | Any subsequence of the input that has no class character and keeps every other character equals the sanitiser's output. |
| `Leaderboard.SanitizeConcat` | bot.py:123 | Sanitising a concatenation is the concatenation of the sanitised parts. |
| `Leaderboard.SanitizeDropsDigits` | bot.py:123 | The username `user_42` is shown as `user`: the range also removes digits. |
| `Leaderboard.Leaderboard` | bot.py:109-127 | No data exactly when the collection is empty. Otherwise 1 to 5 rows, ranked 1..n in order, with sanitised names (missing ones become `Unknown`) and non-increasing points. No user left out has more points than any user shown. |
| `Leaderboard.QueryAnswerExists` | bot.py:117 | Every collection has an answer to the top-5-by-points query, so the leaderboard's precondition can always be met. |

## Left out

- Telegram transport: handler registration, `reply_text`, `send_message`, `run_polling`, and the emoji/Markdown wording of replies. Replies are datatypes; sent messages are return values or an outbox.
- The text generator (Gemini): it is external network code. Its answer is an `Option<string>` parameter; an exception is `None`.
- TextBlob polarity: a floating-point library result. It is a `real` parameter, because only its sign is used.
- MongoDB: each collection is an in-memory sequence. Ordering by `_id` becomes insertion order; `ObjectId`s become indices.
- APScheduler timing and its background thread: jobs are a map from id to fire time. Firing is a call to `SendReminder`, and removing a job after it fires is not modelled.
- The daily jobs and their delivery target: the model treats `send_discussion_prompt` and `send_scheduled_announcement` as run to completion with a usable callback context. In the source neither does anything: both are `async` functions given to the `BackgroundScheduler` (bot.py:359-383) with `args=[None]`. Whether or not the scheduler's executor ever runs the coroutine it gets from them (this depends on how APScheduler's executor treats coroutine functions), no topic is stored and nothing is sent. If the body does run, `send_discussion_prompt` raises at bot.py:142, before the insert at bot.py:151, and `send_scheduled_announcement` raises at bot.py:279, after the lookup. Either way every `vote` ends with "No active discussion topics". `send_motivational_message` and `motivate` only produce text and are not modelled.
- Reminders.ReminderService.SendReminder: sending and setting the flag are one step. In the source, a `send_message` that raises (bot.py:244) leaves the record unnotified. An `update_one` that fails after a successful send (bot.py:247) leaves a delivered reminder unnotified. The background scheduler (bot.py:355) is given the `async` function `send_reminder` (bot.py:221-228) and may call it without awaiting the coroutine, so the body may never run; this depends on how APScheduler's executor treats coroutine functions. The invariant "sent once exactly when notified" holds only when every step succeeds.
- Concurrency: the check-then-insert in `vote` is not atomic in the source. The model is sequential and claims nothing about concurrent voters.
- `gemini_reply`, which writes the chat and sentiment logs, and the static handlers `start`, `faq` and `welcome_new_member`.
- Points updates for the leaderboard: nothing in `bot.py` writes that collection. A document with no `points` field (a `KeyError` in the source) is not modelled.
- Timestamps (`utcnow`): an abstract integer parameter.
- Timestamps.Parse: reads the date and time arguments as separate tokens and accepts only ASCII digits. CPython's `strptime` also accepts Unicode decimal digits. It also accepts whitespace inside the tokens (its `\s+` separator and the ` [1-9]` day pattern). Telegram's argument splitting never yields tokens with whitespace.
- Timestamps.FormatDate: pads the year to four digits. For years below 1000 the C library's `%Y` may print fewer digits; the model does not capture this.
- Text.Lower: folds ASCII letters only. This is exact for comparing with `yes`/`no`: no non-ASCII character lowercases to one of those letters.
