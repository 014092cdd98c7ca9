# MeetingBot core, modelled in Dafny

MeetingBot is a Telegram bot that keeps a per-chat list of meetings. This
project models the part of the bot that decides what it does. It leaves the
transport, the database driver and the scheduler out. The model covers:

- **Time format** (`TimeFormat`, built on `Strings` and `Calendar`). This is
  the `YYYY MM DD HHMM - HHMM` parser `parse_dt`, its single-timestamp variant
  `parse_single_dt`, and the `%Y %m %d %H%M` rendering used by `/list` and the
  digest. A timestamp is a wall-clock tuple (year, month, day, hour, minute) in
  the bot's one fixed zone. Validity is Python `datetime`'s: years 1 to 9999,
  Gregorian leap years, hour below 24, minute below 60. Adding days is checked
  against an independent day count, Python's `toordinal`.
- **Meeting store** (`MeetingStore`). The `meetings` table is a class that
  holds a `map` from id to row and an auto-increment counter. A ghost set
  records every id ever issued, so ids are never reused. Its methods insert,
  get, update an allow-listed column, and delete. Both listing queries are
  proved sorted by start and to hold exactly the selected rows: by chat, and
  by chat within a window that includes both ends. There is also the
  distinct-chats query.
- **Rendering** (`Render`). This covers `fmt_meeting_row`, the `/list` reply,
  and the weekly digest. The digest is built by a loop with an
  `enumerate`-style counter, as in `send_weekly_for_chat`, and the loop is
  proved equal to a declarative definition.
- **The `/add` conversation** (`AddConversation`). It is a transition
  function over the states `Idle`, `AwaitTitle`, `AwaitDesc` and
  `AwaitRange`, plus a class holding the state of one user's conversation in
  one chat and the `new_meeting` entry. Its `Handle` method performs the one store insertion that ends a
  successful conversation.
- **Commands** (`Commands`). These are `/list`, `/delete <id>`, `/weekly`,
  the per-chat digest, and the weekly job that sends one digest to every chat
  with a stored meeting.

Clock readings are parameters: "now" for the digest window and the creation
time of an inserted row. "Now" is an `Instant`: a whole minute plus the
microseconds into it. Stored times are whole minutes, and a meeting starting
in the current minute is inside the window only when "now" is exactly on the
minute. This matches how the code compares ISO strings. Ordering by start is
modelled as lexicographic order on the component tuple. For timestamps in one
fixed zone this is the order of their ISO strings; the model takes this as an
assumption and does not prove it.

Where the code differs from what the bot advertises, the model follows the
code:

- `delete_meeting` deletes by id alone. The chat check lives in `delete_cmd`
  (`Commands.DeleteCommand`).
- `add_meeting` returns nothing. The new id is visible only in the store's new
  state.
- After a successful `/add`, the `new_meeting` entry is completed with the
  start and end and left in the user's data. Only `/cancel` removes it.
- The conversation state is kept per chat and user, as `ConversationHandler`
  does by default. The `new_meeting` entry, however, lives in the user's data
  (`ctx.user_data`) and so is one entry for all of that user's chats.
- Listings are ordered by start, not strictly. Rows with equal starts may
  come in any order.

## Model

| member | source | states |
|---|---|---|
| Strings.Strip | meetingbot.py:120-124 | `strip()`, as called on the date part and the time part (and at meetingbot.py:135 on the whole text), leaves no whitespace at either end; the result is one slice of the text, and every character before or after that slice is whitespace |
| Strings.Words | meetingbot.py:120 | `split()` yields non-empty words free of whitespace |
| Strings.WordsCons | meetingbot.py:120 | a whitespace-free word followed by whitespace or by nothing is split off whole as the first word |
| Strings.WordsBlank | meetingbot.py:120 | `split()` skips a leading whitespace character of any kind |
| Strings.WordsAllBlank | meetingbot.py:120 | a text of whitespace only, the empty text included, splits into no words |
| Strings.SplitAtFirst | meetingbot.py:119 | `split("-", 1)`: the text is the part before, the `-`, and the part after; the part before has no `-` |
| Strings.ParseInt | meetingbot.py:126 | `int()` of a plain digit string is the number it denotes |
| Strings.ParseIntCore | meetingbot.py:126 | `int()` succeeds exactly when the text, stripped of its whitespace, is a numeral or a sign followed by a numeral, with the signed value; the empty text, a lone sign, a space between digits and a doubled sign all raise |
| Strings.ParseIntEmpty | meetingbot.py:126 | `int("")` raises |
| Strings.ParseIntPadded | meetingbot.py:126 | `int()` of digits with an optional `+` or `-` and `int()`'s whitespace on either side is the signed value of the digits |
| Strings.ParseIntText | meetingbot.py:222 | `int(str(n)) == n` for every integer, negative ones included, so an id as printed parses back in `/delete` |
| Strings.ParseIntRejects | meetingbot.py:126 | `int()` fails on any text holding a character that is not `int()`'s whitespace (SPACE, TAB to CR), a digit or a sign |
| Strings.NatText | meetingbot.py:147 | `str(n)` of a natural number is a non-empty run of ASCII digits |
| Strings.NatTextRoundTrip | meetingbot.py:147 | `int(str(n)) == n` for every n >= 0 |
| Strings.WordsOfJoin | meetingbot.py:147 | `split()` undoes joining whitespace-free words with single spaces |
| Strings.Join | meetingbot.py:213 | `sep.join(parts)` starts with the first part |
| Strings.JoinHasPart | meetingbot.py:213 | each part occurs in `sep.join(parts)` |
| Calendar.DaysInMonth | meetingbot.py:126-127 | 28 to 31 days; 29 exactly for February of a leap year, 30 exactly for April, June, September and November |
| Calendar.ValidOrdinals | meetingbot.py:126-127 | every timestamp `datetime()` accepts lies on a day from 1 to 3652059 of Python's proleptic day count (`toordinal`) |
| Calendar.NextDay | meetingbot.py:244 | the next calendar day: later, same time of day, ordinal day number one higher, still a valid date while the year stays within 9999 |
| Calendar.AddDays | meetingbot.py:244 | `+ timedelta(days=n)` lands exactly n days later by the ordinal day count, keeps the time of day, is later for n > 0, and stays a valid date while the year stays within 9999 |
| TimeFormat.StampOf | meetingbot.py:126-127 | a built timestamp is a valid `datetime`, and each component is `int()` of its token (hour from `hm[:2]`, minute from `hm[2:]`); it is built exactly when all five `int()` calls succeed and their values form a valid `datetime`, so unpadded tokens are accepted too |
| TimeFormat.SeparatorInTime | meetingbot.py:126-127 | a time `1\x1c30` is rejected, because `int("1\x1c")` raises |
| TimeFormat.SeparatorInEndTime | meetingbot.py:114-130 | `2024 06 10 1000 - 1\x1c30` does not parse, although `strip()` and `split()` treat U+001C as whitespace |
| TimeFormat.ShortTimeRejected | meetingbot.py:126-127 | a time token of at most two characters is rejected, because `int(hm[2:])` is `int("")` |
| TimeFormat.EndHourRejected | meetingbot.py:119-127 | an end hour that `int()` rejects makes `parse_dt` fail whatever the date part holds |
| TimeFormat.ParseRange | meetingbot.py:114-130 | never fails: `None` without a `-`; on success both stamps are valid and on the same date |
| TimeFormat.ParseRangeFields | meetingbot.py:118-127 | year, month and day come from tokens 1-3 before the first `-`, start time from token 4, end time from the stripped text after the `-` |
| TimeFormat.EndMayPrecedeStart | meetingbot.py:126-128 | `2024 06 10 1000 - 0900` parses to an end before its start |
| TimeFormat.ParseSingle | meetingbot.py:132-141 | success means exactly four tokens and a valid timestamp |
| TimeFormat.ParseSingleFields | meetingbot.py:135-139 | each field of a parsed timestamp is `int()` of its token (hour from `hm[:2]`, minute from `hm[2:]`), and any four tokens whose `int()` values form a valid timestamp parse to exactly that timestamp |
| TimeFormat.ParseRangeOfTimeLine | meetingbot.py:143-150 | the printed time line of any valid same-date start and end parses back to exactly that start and end |
| TimeFormat.ParseSingleOfTimeLine | meetingbot.py:146-147 | the printed start parses back with `parse_single_dt` |
| TimeFormat.ParseFormatParse | meetingbot.py:114-130 | parsing, printing and parsing again gives the first parse |
| TimeFormat.SampleStampText | meetingbot.py:147 | 10:00 on 10 June 2024 prints as `2024 06 10 1000` |
| TimeFormat.StampText | meetingbot.py:147 | `%Y %m %d %H%M` starts with the year and a space and is eleven characters longer than the year |
| TimeFormat.TimeLine | meetingbot.py:147-150 | the time line starts with the start's rendering, followed by ` - HHMM` (seven characters) exactly when there is an end |
| MeetingStore.ColumnNamed | meetingbot.py:97-98 | a column exactly for `title`, `description`, `start_ts`, `end_ts`, named by that string |
| MeetingStore.ColumnNameRoundTrip | meetingbot.py:97 | every writable column passes the allow-list under its own name |
| MeetingStore.SetColumn | meetingbot.py:99 | the named column takes the value written (`NULL` clears the end); every other column, including id, chat and creation time, is unchanged |
| MeetingStore.Insert | meetingbot.py:83 | placing a row into an ordered listing adds exactly that row |
| MeetingStore.InsertSorted | meetingbot.py:83 | placing a row keeps the listing ordered by start |
| MeetingStore.ListingMembers | meetingbot.py:81-86 | a listing holds exactly the selected rows |
| MeetingStore.ListingEmpty | meetingbot.py:208-209 | a listing is empty exactly when no row is selected |
| MeetingStore.WindowInclusive | meetingbot.py:108 | a start equal to either bound is selected; a start after the upper bound is not |
| MeetingStore.Store.constructor | meetingbot.py:46-56 | an empty table whose first id is 1 |
| MeetingStore.Store.Add | meetingbot.py:74-79 | exactly one new row under an id never issued before; a missing description is stored as `""` |
| MeetingStore.Store.Get | meetingbot.py:88-94 | the row with that id, or `None` exactly when there is none |
| MeetingStore.Store.UpdateField | meetingbot.py:96-100 | a name outside the allow-list is rejected and nothing changes; otherwise that row becomes `SetColumn` of it: the named column takes the value and nothing else changes |
| MeetingStore.Store.Delete | meetingbot.py:102-104 | only the row with that id disappears; other rows and the id counter are unchanged |
| MeetingStore.Store.Scan | meetingbot.py:83 | the answer is ordered by start and holds every selected row exactly once |
| MeetingStore.Store.ListForChat | meetingbot.py:81-86 | exactly the chat's rows, ordered by start |
| MeetingStore.Store.InRange | meetingbot.py:106-111 | exactly the chat's rows with from <= start <= to, ordered by start |
| MeetingStore.Store.Chats | meetingbot.py:283 | exactly the chats that have at least one row |
| Render.DigestText | meetingbot.py:246-262 | the loop yields the empty-week message for no rows, otherwise the header and entries numbered from 1, joined by blank lines |
| Render.DigestEntry | meetingbot.py:250-260 | an entry starts with its number and `. ` |
| Render.Digest | meetingbot.py:246-262 | a digest of a non-empty week starts with the header |
| Render.DigestEntryIsNumberedRow | meetingbot.py:250-260 | a digest entry is its number, `. `, and the meeting's `/list` row |
| Render.DigestIsNumberedListing | meetingbot.py:249-262 | a non-empty digest is the header followed by the `/list` rows in query order, numbered from 1 |
| Render.DigestEmpty | meetingbot.py:246-249 | the digest is the empty-week message exactly when the window is empty; otherwise it starts with the header |
| Render.DigestShowsRow | meetingbot.py:250-262 | every row appears in the digest behind its number |
| Render.FormatRow | meetingbot.py:143-153 | a row starts with the id and title line, a line break, and the time line |
| Render.FormatRowLines | meetingbot.py:143-153 | a row's lines are the id and title, the time line, and the `desc:` line when there is a description |
| Render.ListedRangeRoundTrip | meetingbot.py:143-150 | the time line of a listed meeting with an end parses back to its start and end |
| Render.ListedStartRoundTrip | meetingbot.py:146-147 | the time line of a meeting without an end parses as a single timestamp and is rejected by `parse_dt` |
| Render.ListText | meetingbot.py:209-213 | the reply starts with the first row; for one row it is exactly that row |
| Render.ListTextEmpty | meetingbot.py:207-213 | `/list` answers `No meetings stored.` exactly when there are no rows |
| Render.ListTextShowsRow | meetingbot.py:212-213 | every row appears in the `/list` reply |
| AddConversation.Transition | meetingbot.py:168-204 | each step keeps the entry holding what the next state needs; a store happens only on a parsed range and ends the conversation; an update nobody handles changes nothing |
| AddConversation.Fallback | meetingbot.py:201-204 | only `/cancel` gets an answer, and it ends the conversation and drops the entry; any other unhandled update changes nothing; nothing is stored |
| AddConversation.RangeReceived | meetingbot.py:187-199 | a meeting is stored exactly when the range parsed, with the collected title and description and the parsed times, and the entry is completed with those times; a failed parse keeps waiting with the entry untouched |
| AddConversation.CancelEnds | meetingbot.py:201-204 | `/cancel` in any active state discards the entry and ends |
| AddConversation.CommitIffParsed | meetingbot.py:187-199 | a meeting is stored exactly when a range that parses arrives while one is awaited, with the collected title and description and the parsed times |
| AddConversation.ParseFailureRetries | meetingbot.py:189-192 | an unparseable range keeps waiting for a range, with the entry untouched |
| AddConversation.SkipOnlyForDescription | meetingbot.py:182-185 | `/skip` sets an empty description while the description is awaited, and in every other state changes nothing and gets no answer |
| AddConversation.TextsStripped | meetingbot.py:172-180 | the title and the description are stored stripped |
| AddConversation.Run | meetingbot.py:316-324 | every sequence of updates from a valid state ends in a valid state and stores at most one meeting per update |
| AddConversation.RunToRange | meetingbot.py:168-185 | `/add`, a title and a description store nothing and wait for the range |
| AddConversation.RangeRun | meetingbot.py:187-199 | a range that parses stores one meeting and ends |
| AddConversation.CompleteConversation | meetingbot.py:168-199 | a full conversation stores exactly one meeting with the stripped title, the stripped or empty description and the parsed times |
| AddConversation.Conversation.constructor | meetingbot.py:316-324 | no conversation in progress and no entry |
| AddConversation.Conversation.Handle | meetingbot.py:168-204 | state, entry and reply follow the transition; the table changes only on a store, by exactly one new row in the user's chat |
| Commands.ListCommand | meetingbot.py:207-213 | the reply renders a correct listing of the chat, shows every one of its meetings, and is `No meetings stored.` exactly when it has none |
| Commands.DeleteCommand | meetingbot.py:216-234 | each of the five replies happens exactly in its case, and an id outside sqlite's 64-bit range ends in the driver's `OverflowError` with no reply; only `Deleted` changes the table, and it removes just that row |
| Commands.DeleteReplyText | meetingbot.py:218-234 | every outcome but the overflow is answered |
| Commands.WeekLater | meetingbot.py:244 | exactly seven days later by the ordinal day count, at the same time of day and microsecond |
| Commands.SendWeeklyForChat | meetingbot.py:241-262 | the chat's message is the digest of a correct window listing, names every meeting of the week, and is the empty-week message exactly when there is none |
| Commands.WeeklyCommand | meetingbot.py:237-239 | the requesting chat gets its digest, then `Weekly schedule sent.` |
| Commands.ScheduledWeeklyJob | meetingbot.py:282-285 | exactly the chats with a stored meeting get a digest, each its own |

## Left out

- The sqlite connection, commits and schema creation (meetingbot.py:44-72) are not modelled. The table is an in-memory map, and storage errors are not modelled.
- Column projections are not modelled. The queries return whole rows, not the selected columns.
- The Telegram transport is left out: `reply_text`, the bot lookup, `send_message` (meetingbot.py:264-279) and the `/start` help text. Replies are returned values and sends are returned messages.
- APScheduler timing, `create_task` asynchrony, `self_ping`, the Flask server, threads and `main` are left out. These are timers, concurrency and network I/O.
- Clock reads are parameters: `datetime.now()` for `created_at`, and "now" for the digest. Each task the weekly job starts would read its own clock; the model gives every chat the same reading.
- `ZoneInfo` and `astimezone` are not modelled. Every timestamp is a wall-clock tuple at the zone's present offset. Asia/Singapore's historical offset changes (the last on 1982-01-01, from +07:30 to +08:00) are not modelled.
- `ConversationHandler` internals are left out: keying by user and chat, and the handler groups. `/add` during an active conversation is one of the updates that change nothing. Commands such as `/list` are served by their own handlers and do not touch the conversation.
- The unused states `ADD_END` and `EDIT_*` and the advertised `/edit` are not modelled, because the code has no handlers for them.
- Strings.ParseInt: only SPACE and TAB to CR around the number, an optional sign and ASCII digits are accepted. Python's `int()` also accepts underscores between digits, non-ASCII digits and non-ASCII whitespace; those inputs are rejected here. Python 3.11 (and 3.10.7) `int()` raises `ValueError` on a numeral of more than 4300 digits, which this model parses. So `/delete` with a 4301-digit id ends here as an overflow, where the code sends the not-a-number reply. Telegram's 4096-character message limit keeps such a message from arriving.
- Strings.Words: only ASCII whitespace separates words. Python's `split()` and `strip()` also treat other Unicode spaces as whitespace.
- TimeFormat.ParseRangeOfTimeLine: years are printed as `str(year)`. This is four digits for years 1000 to 9999. The zero padding `%Y` may add below 1000 depends on the platform and is not modelled.
- Commands.WeekLater: a window end past year 9999 is computed instead of raising `OverflowError`.
- MeetingStore.Store.UpdateField: requires the value to suit the column (text for the title and description, a valid time for the start, a valid time or nothing for the end). This leaves out the error paths. `NULL` for `title` or `start_ts` breaks those columns' `NOT NULL` (meetingbot.py:51,53), and sqlite raises `IntegrityError`. A value of a type the driver cannot bind raises `ProgrammingError`. It also leaves out values sqlite would store: `NULL` in the description, or a number in a text column. No code calls `update_meeting_field`.
- AddConversation.Conversation: one object holds the handler state and the entry of one user in one chat. The code shares `new_meeting` between all chats of a user, so two `/add` conversations of one user in two chats at once write the same entry; that sharing is not modelled.
- MeetingStore.Store: only `/delete` models the `OverflowError` sqlite raises for an integer parameter outside 64 bits. The other store methods take ids and chat ids the bot obtains from Telegram or from the table, and do not model that bound.
- Commands.ScheduledWeeklyJob: the result maps each chat to its digest text, so the order in which the digests go out is not modelled; the code leaves that order open too.
