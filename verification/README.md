# ewsnotifier, modelled in Dafny

ewsnotifier is a Telegram bot that watches one Exchange account. It does four things:

- An update loop polls the calendar and the mailbox into a shared cache.
- An appointment loop announces each meeting shortly before it starts.
- A mail loop announces each new mail once.
- A daily digest loop sends, on working days, today's agenda with its free windows and a list of overlapping meetings.

Settings come from environment variables.

This project models the decision logic of that core as pure Dafny functions over immutable data:

- Timestamps are whole UTC seconds (`int`).
- The cache is a record of maps and sets.
- Every block the program runs under its cache lock is one function from cache to cache.
- The messenger's behaviour is a function from attempt number to outcome.
- The environment is a `map<string, string>`.

The modules follow the program:

| module | models |
|---|---|
| `Wrappers` | `Option` and `Result`, for `None` and for a raised `ValueError` |
| `Strings` | the Python `str` operations the program relies on: `strip`, `splitlines`, `split`, `join`, `lower`, `int()`, `str()` |
| `Models`, `SharedCache` | meetings, mail, snapshots and the shared cache |
| `Reconciler` | the reconcile block of the update loop and one whole update cycle |
| `Schedulers` | the selection blocks of the appointment and mail loops, and any interleaving of all blocks |
| `Digest` | the daily digest trigger |
| `Delivery` | the two delivery policies: best effort and until success |
| `Sorting`, `Clusters` | `sorted(..., key=start)` and the collision sweep of `build_check_list` |
| `OverlapTime` | `_overlap_minutes`, checked against a second-by-second reference count |
| `Agenda` | the line structure of `build_today_list` |
| `Formatting` | MarkdownV2 escaping, `format_duration` and `format_markdown_quote` |
| `TextSearch` | `contains_keyword` and `extract_url` |
| `Preview` | `build_preview` |
| `Config` | `config.py`: the env helpers and `load_settings` |
| `Messages` | the clamps, the venue line and the mention decision of the message builders, and `is_allowed` |

## Model

| member | source | states |
|---|---|---|
| SharedCache.Empty | notifier/cache.py:9-15 | A new cache has no meetings, no mail and no marks, and satisfies the cache invariant. |
| SharedCache.IndexBy | notifier/app.py:379-380 | The dict comprehension keys every item by its id. The keys are exactly the ids of the items. Each value is one of the items. An id's value is the last item carrying that id. |
| Reconciler.Rearm | notifier/app.py:368-375 | The re-arm pass removes from the marks exactly the snapshot meetings that were cached before and now start strictly later. |
| Reconciler.Reconcile | notifier/app.py:367-380 | After reconciling, the cache holds exactly the snapshot's meetings and mail. Mail marks are untouched. A meeting keeps its mark iff it was marked, is still present, and did not move to a later start. The cache invariant holds afterwards. |
| Reconciler.RescheduleLaterRearms | notifier/app.py:370-375 | An announced meeting that moved to a later start loses its mark, so it will be announced again. |
| Reconciler.RescheduleEarlierKeeps | notifier/app.py:370-378 | An announced meeting that is still present and did not move later keeps its mark. |
| Reconciler.UpdateCycle | notifier/app.py:340-350 | An authentication failure stops the update loop. Any other failure leaves the cache unchanged. A fetched snapshot is reconciled into the cache. |
| Schedulers.AppointmentScan | notifier/app.py:405-413 | The meetings returned are exactly the cached ones that are unmarked and start between now and now plus the notify interval. All of them are marked, and nothing else in the cache changes. A rescan at the same instant finds nothing. |
| Schedulers.ScanAppointments | notifier/app.py:405-413 | The loop over the cached meetings returns the same set and cache as the one-step transition, and no meeting twice. |
| Schedulers.MailScan | notifier/app.py:450-455 | The mail returned is exactly the cached mail not yet marked. All of it gets marked, and nothing else changes. Afterwards every cached mail is marked. |
| Schedulers.ScanMail | notifier/app.py:450-455 | The loop over the cached mail returns the same set and cache as the one-step transition, and no mail twice. |
| Schedulers.RunPreservesValid | notifier/app.py:367-380 | The cache invariant holds under any interleaving of update, appointment and mail blocks: maps keyed by id, and only present meetings marked. |
| Schedulers.NotifiedMailOnlyGrows | notifier/app.py:450-455 | No block ever removes a mail mark, so each mail id is announced at most once. |
| Schedulers.MarksSurviveScans | notifier/app.py:405-413 | Between update cycles no meeting mark is lost. A meeting marked before is never due again. |
| Digest.SentDatesExactly | notifier/app.py:483-517 | With dates that do not go backwards, a date gets a digest iff some poll on it falls on a weekday at or after the digest time, and the date is not the one already served. |
| Digest.AtMostOncePerDate | notifier/app.py:487-517 | Digest dates strictly increase, so no date gets two digests. All of them come after the date already served. |
| Digest.NoTimeNoDigest | notifier/app.py:483-484 | Without a digest time, no digest is ever sent. |
| Delivery.BestEffortFrom | notifier/app.py:46-70 | From a given attempt on, every retry follows a transport error. The attempts stop at the first other outcome or at the cap. Success means the last answer was a delivery. The pauses double each time. |
| Delivery.BestEffortChat | notifier/app.py:46-70 | One chat gets one to three attempts. Only timeouts and network errors are retried, after pauses of 1 s and then 2 s. Delivered iff the last attempt got through. |
| Delivery.UntilSuccessFrom | notifier/app.py:81-109 | From a given attempt on, every retry follows a failed attempt. The attempts stop at the first delivery or at the cap. The pauses are 60 s each. |
| Delivery.UntilSuccessChat | notifier/app.py:81-109 | One chat gets up to ten attempts, 60 s apart. If it is not delivered, all ten were made and failed. |
| Delivery.SendToChats | notifier/app.py:38-70 | There is one report per chat, in order. The report for chat i is exactly the best-effort outcome of that chat's own answers, so it stays within the best-effort bounds. |
| Delivery.ChatsAreIndependent | notifier/app.py:38-109 | A chat's report depends only on the answers for that chat, in both delivery modes: changing the other chats' answers leaves it unchanged. |
| Delivery.BestEffortAgrees | notifier/app.py:46-70 | Two chats that get the same answer on every attempt get the same best-effort report. |
| Delivery.UntilSuccessAgrees | notifier/app.py:81-109 | Two chats that get the same answer on every attempt get the same until-success report. |
| Delivery.SendToChatsUntilSuccess | notifier/app.py:73-109 | There is one report per chat, in order. The report for chat i is exactly the until-success outcome of that chat's own answers, so it stays within the until-success bounds. |
| Delivery.TwoTimeoutsThenDelivered | notifier/app.py:47-61 | Two timeouts followed by success give three attempts, pauses of 1 s and 2 s, and delivery. |
| Delivery.AlwaysTransientGivesUp | notifier/app.py:48-67 | A transport that always times out is tried exactly three times, and the message is not delivered. |
| Delivery.OtherErrorIsNotRetried | notifier/app.py:68-70 | Any other error ends the attempts for that chat after the first one. |
| Sorting.SortBy | notifier/app.py:226 | The sort is ascending by key and a permutation of its input. It is stable: for every key value, the elements with that key come out in their input order. |
| Sorting.InsertIsStable | notifier/app.py:226 | Inserting into a sorted list keeps the relative order of the elements sharing each key, the new element ahead of the old ones with its key. |
| Clusters.SortByStart | notifier/app.py:226 | Meetings are sorted by start, as a permutation of the input. Meetings with the same start keep their input order. |
| Clusters.SweepPartitions | notifier/app.py:232-248 | The runs of the sweep, concatenated, are exactly the open run followed by the remaining meetings, in order. |
| Clusters.SweepChains | notifier/app.py:237-240 | Every run is non-empty. Each meeting of a run starts before the latest end of the meetings ahead of it. |
| Clusters.SweepSeparates | notifier/app.py:241-245 | Each run begins at or after the latest end of the run before it. |
| Clusters.Runs | notifier/app.py:229-248 | The runs partition the sorted meetings in order. Each run is chained, and consecutive runs are separated. |
| Clusters.KeepOverlaps | notifier/app.py:242-243 | Only runs of two or more meetings are kept, and every such run is kept. |
| Clusters.OverlapGroups | notifier/app.py:225-248 | Every reported group has at least two meetings and is chained. Together, the groups use meetings of the input only. |
| Clusters.OverlapsAreReported | notifier/app.py:225-248 | Completeness: when one meeting starts strictly inside another, some reported group holds both. |
| Clusters.JoinsOpenRun | notifier/app.py:237-240 | A later meeting that starts before the open run ends joins that run. |
| OverlapTime.EventKeyIsTupleOrder | notifier/app.py:257 | The integer event key orders events exactly as the `(time, delta)` tuples do: end events before start events at the same instant. |
| OverlapTime.SweepCountsFrom | notifier/app.py:259-266 | From any point of the sorted events, the sweep adds exactly the number of seconds, up to the last event, in which at least two meetings are running. |
| OverlapTime.OverlapSecondsIsCount | notifier/app.py:250-266 | The event sweep's total equals the reference count of seconds covered by at least two meetings. Meetings that end before they start are ignored. |
| OverlapTime.OverlapMinutesIsCount | notifier/app.py:250-267 | The overlap in minutes is the whole minutes of that reference count of doubly-covered seconds. |
| OverlapTime.StaggeredPairOverlap | notifier/app.py:250-267 | For two meetings where the second starts inside the first and ends no earlier, the overlap is the second's start to the first's end. |
| OverlapTime.HalfHourOverlap | notifier/app.py:250-267 | Meetings at 0–60 min and 30–90 min overlap by 30 minutes. |
| Agenda.GapAfter | notifier/app.py:209-219 | A free window follows a meeting iff it ends strictly before the next one starts. The window spans from that end to that start. |
| Agenda.LeadWindow | notifier/app.py:188-200 | A leading window exists iff there are meetings and the workday starts strictly before the first one. It spans to that start. |
| Agenda.EntryLinesListsMeetings | notifier/app.py:201-208 | The entries of the body, in order, are exactly the sorted meetings. |
| Agenda.EntryLinesShape | notifier/app.py:201-219 | Every non-entry line is a window between two entries. It runs from the earlier meeting's end to the later one's start and is non-empty. Adjacent entries touch or overlap. |
| Agenda.TodayListsEveryMeeting | notifier/app.py:182-219 | The list shows every meeting exactly once, in start order. |
| Agenda.TodayShape | notifier/app.py:186-219 | After the header, every line is an entry or a well-placed free window. |
| Agenda.TodayLeadingWindow | notifier/app.py:188-200 | The list opens with a window iff the workday starts before every meeting. That window ends at the earliest start. |
| Agenda.NoticeNeverSent | notifier/app.py:220-221 | As written, the "no meetings" notice is never produced. An empty day yields only the header. |
| Agenda.TodayReply | notifier/app.py:182-222 | Corrected: the notice appears iff there are no meetings. Otherwise the reply is the header plus every meeting once. |
| Formatting.EscapeMarkdownV2 | notifier/utils.py:16-19 | Each of the 19 reserved characters gains one backslash, so the length grows by their count. Line breaks are kept. |
| Formatting.EscapeRoundTrip | notifier/utils.py:75-76 | Escaped text is well formed, and unescaping it gives the original back. |
| Formatting.UnescapeRoundTrip | notifier/utils.py:75-76 | Escaping the unescaping of well-formed escaped text gives it back. |
| Formatting.EscapeIdentity | notifier/utils.py:75-76 | Text with no reserved character is left unchanged. |
| Formatting.FormatDurationReadsBack | notifier/utils.py:36-42 | `H:MM` reads back as two integers, minutes below 60 and written with two digits, where 60·H+MM is the whole minutes of the clamped interval. Both parts are all digits and the hours part is non-empty. |
| Formatting.NegativeDurationIsZero | notifier/utils.py:37-39 | An interval that ends at or before its start is shown as `0:00`. |
| Formatting.FormatMarkdownQuote | notifier/utils.py:79-86 | The quote is empty iff the text is. |
| Formatting.QuoteKeepsLines | notifier/utils.py:79-86 | The quote has the same lines as the text. Each starts with `> ` and unescapes to the original line. |
| TextSearch.FirstOccurrence | notifier/utils.py:91 | Finds the leftmost occurrence at or after the start, or reports that none exists. |
| TextSearch.ContainsKeyword | notifier/utils.py:89-91 | True iff some keyword, lower-cased, occurs in the lower-cased text. |
| TextSearch.EmptyKeywordAlwaysMatches | notifier/utils.py:89-91 | An empty keyword matches any text. |
| TextSearch.KeywordIgnoresCase | notifier/utils.py:89-91 | A match does not depend on the letter case of the text or of the keyword. |
| TextSearch.FindUrl | notifier/utils.py:10 | Finds the leftmost `http://` or `https://`, matched case-insensitively, followed by a maximal run of non-whitespace. |
| TextSearch.ExtractUrl | notifier/utils.py:22-26 | Gives nothing for a missing or empty text. Otherwise it finds a link iff one occurs. The link is the leftmost match, extended over all following non-whitespace. |
| Preview.Candidates | notifier/utils.py:59-65 | The lines considered are stripped and non-empty, and none starts with a `cid:`, `image:` or `img:` marker. |
| Preview.CollectTakesCandidates | notifier/utils.py:58-68 | The loop with its early break keeps exactly the first `max_lines` candidate lines. |
| Preview.PreviewLinesAreCandidates | notifier/utils.py:58-69 | The preview's lines are the first `max_lines` candidates, joined by line breaks. |
| Preview.PreviewIsBoundedPrefix | notifier/utils.py:69-72 | The preview is a prefix of the joined lines. It is no longer than `max_chars`, and unchanged when it fits. |
| Preview.PreviewSplitsBack | notifier/utils.py:56-72 | When no cut happens, splitting the preview's lines gives back the kept candidates. |
| Strings.StripIsSlice | notifier/utils.py:60 | `strip()` removes only whitespace at both ends, and what remains starts and ends with a non-space. |
| Strings.SplitLinesOfJoin | notifier/utils.py:82 | Joining non-empty break-free lines with line breaks and splitting them again gives the lines back. |
| Strings.JoinOfSplit | notifier/config.py:62 | Splitting on a separator and joining on it again gives the text back. |
| Strings.SplitOfJoin | notifier/config.py:62 | Joining separator-free parts and splitting them again gives the parts back. |
| Strings.ParseIntOfDecimal | notifier/config.py:48 | `int(str(n)) == n` for every integer. |
| Strings.ParseIntOfDigits | notifier/config.py:79 | A string of digits reads as its decimal value, leading zeros included. |
| Strings.ColonFieldsReadBack | notifier/config.py:76-79 | Two digit fields around a colon split into those fields, each read as its value. |
| Config.RequireEnv | notifier/config.py:35-39 | Succeeds iff the variable is set and non-empty, with its value. Otherwise it names the variable as missing. |
| Config.GetInt | notifier/config.py:42-48 | An unset or empty variable gives the default, or the missing error without one. Otherwise the value goes through `int()`. |
| Config.GetIntReadsDecimal | notifier/config.py:42-48 | A number written in decimal reads back as itself. |
| Config.GetBool | notifier/config.py:51-55 | An unset or empty variable gives the default. Otherwise the result is true iff the stripped, lower-cased value is one of `1`, `true`, `yes`, `on`. |
| Config.GetBoolReadsWords | notifier/config.py:51-55 | `true` reads as true and `false` as false, whatever the default. |
| Config.GetList | notifier/config.py:58-62 | The items are stripped and non-empty. An unset variable gives no items. |
| Config.NonEmptyItemsMembers | notifier/config.py:62 | A text is an item iff some part strips to it and it is not blank. |
| Config.NonEmptyItemsDropsBlank | notifier/config.py:62 | The items are the parts, each stripped, in their order, with the blank ones dropped. |
| Config.NonEmptyItemsConcat | notifier/config.py:62 | Items of consecutive stretches of parts come out stretch after stretch: the order of the parts is kept. |
| Config.GetListOfJoined | notifier/config.py:58-62 | Any comma-free parts joined by commas read back as exactly their stripped non-blank parts, in order. |
| Config.PaddedListReadsBack | notifier/config.py:58-62 | ` 1 ,, 2` reads as the items `1` and `2`: padding and blank items are dropped. |
| Config.GetListReadsJoined | notifier/config.py:58-62 | Clean items joined with commas are read back item for item. |
| Config.ParseAll | notifier/config.py:69 | Succeeds iff every item reads as an integer. The values then correspond one for one. |
| Config.ParseChatIds | notifier/config.py:65-69 | An empty list is the missing-variable error. Success gives one integer per item, and at least one. |
| Config.ChatIdsReadBack | notifier/config.py:65-69 | Chat ids written in decimal with commas read back as the same ids. |
| Config.ParseTime | notifier/config.py:74-82 | A blank value gives no time. Anything other than two colon-separated fields is a format error. An accepted time is in range, and its fields read as hour and minute. |
| Config.GetTime | notifier/config.py:72-82 | A blank variable gives no time. Any accepted time is a valid clock time. |
| Config.ParseTimeOfFields | notifier/config.py:76-82 | Digit fields in range are taken. Fields out of range are a value error. |
| Config.GetTimeReadsBack | notifier/config.py:72-82 | A valid time written as `HH:MM` reads back as itself. |
| Config.GetTimeRejectsRange | notifier/config.py:80-81 | `24:00` is refused as a value error, not wrapped. |
| Config.LoadExchange | notifier/config.py:88-93 | Succeeds iff the four Exchange variables are set. The values are kept as given, with authentication type `NTLM` and certificate check on by default. |
| Config.LoadIntervals | notifier/config.py:95-98 | The four intervals are required, and each is read as an integer. |
| Config.LoadTelegram | notifier/config.py:100-104 | The bot tokens are kept as given. There is at least one allowed chat, read item for item, and the admin chat id is an integer. |
| Config.LoadLocale | notifier/config.py:106-111 | Time zone required. Keywords as a list. The mention is stripped, `@poznik` by default. Log level `INFO` by default. The digest time is read as `_get_time` reads it. |
| Config.LoadSettings | notifier/config.py:85-133 | Succeeds iff every stage does. The record is assembled field by field, and the first stage's error wins. |
| Config.LoadedSettingsAreComplete | notifier/config.py:85-133 | A successful load had every required variable set. It keeps the secrets as given, has at least one chat, and any digest time is valid. |
| Config.LoadDefaults | notifier/config.py:92-111 | Unset optional variables take the program's defaults: `NTLM`, SSL checked, `@poznik`, `INFO`, no keywords, no digest. |
| Config.MissingServerReported | notifier/config.py:88 | Without `EWS_SERVER` the load fails, naming that variable. |
| Messages.ClampedMinutes | notifier/app.py:117-126 | Negative intervals give zero. Otherwise the result is the whole minutes: 60·r ≤ seconds < 60·(r+1). |
| Messages.MinutesUntil | notifier/app.py:117 | Zero once the meeting has begun. Otherwise the whole minutes until the start. |
| Messages.DurationMinutes | notifier/app.py:124-126 | Zero when the meeting ends before it starts. Otherwise its whole minutes. |
| Messages.MeetingVenue | notifier/app.py:135-141 | A non-empty join link wins. Otherwise the stripped location shows if non-empty. There is no venue line iff neither is present. |
| Messages.MailMention | notifier/app.py:145-179 | The mail is flagged iff a keyword occurs in subject, sender or preview (with the placeholders for empty fields). The mention text follows iff it is not blank. |
| Messages.NoKeywordsNoMention | notifier/app.py:151-153 | Without keywords no mail is ever flagged. |
| Messages.SubjectKeywordFlags | notifier/app.py:146-153 | A keyword found in the subject, in any letter case, flags the mail. |
| Messages.IsAllowed | notifier/app.py:290-291 | True iff the chat id is one of the allowed ids. |
| Messages.AllowedIffConfigured | notifier/app.py:290-291 | With loaded settings, a chat is allowed iff some item of `ALLOWED_CHAT_IDS` reads as its id. |

## Left out

- Exchange access (`exchangelib`, `ews_client.py`): the update cycle receives the fetched snapshot, or the kind of failure, as input. Mapping calendar and mail items into meetings and mail is not part of this model.
- The Telegram API: sending is the messenger's answer per attempt. Pauses are returned as data rather than slept. The command handlers' replies and inline keyboards are not modelled, except `is_allowed`.
- Concurrency: `asyncio` tasks, `asyncio.to_thread` and the lock. Each locked block is one atomic transition, and `Schedulers.Run` covers every interleaving of blocks.
- Clocks and time zones: the current instant, the local date, the weekday and the local time of day are inputs.
  - `Agenda.TodayLines` takes the workday start (09:00 local on the first meeting's day) as a parameter.
- Floating point: `total_seconds()` on whole-second timestamps is modelled as integer seconds, and `//` on it as floor division.
- `_clean_mail_text` (HTML, entity and link removal): `Preview.BuildPreview` starts from the already cleaned text.
- The Russian wording, dates as `strftime` renders them, and the exact MarkdownV2 layout of messages. The model keeps the decisions that shape those texts: venue, mention, window lines and durations.
- The update loop's logging statistics (future meetings, minutes to the nearest one, new unread mail). They are only logged.
- `load_dotenv`: the environment map is given after the `.env` file has been read.
- Config.LoadLocale: keeps `LOCAL_TIMEZONE` as a name and does not resolve it. An unknown zone name makes `load_settings` raise at notifier/config.py:106 (`ZoneInfo`), but `Config.LoadSettings` succeeds on it.
- Config.LoadSettings: succeeds on an unknown `LOCAL_TIMEZONE` name, where the program raises; the zone database is not modelled.
- Strings.ParseInt: accepts only the ASCII digits 0-9, with an optional sign and surrounding white space. Python's `int()` also accepts other Unicode decimal digits (Arabic-Indic, full-width and so on), so such values are refused here but read by the program.
- Schedulers.AppointmentScan: returns the due meetings as a set. The order in which they are announced, the insertion order of the cache's meetings dict, is not modelled.
- Schedulers.ScanAppointments: the loop visits the cached meetings in an order the model leaves open. The result is the same set whatever that order, and the announcement order is not modelled.
- Schedulers.MailScan: returns the unmarked mail as a set. The order in which it is announced, the insertion order of the cache's mail dict, is not modelled.
- Schedulers.ScanMail: the loop visits the cached mail in an order the model leaves open. The result is the same set whatever that order, and the announcement order is not modelled.
- Strings.Lower: folds letter case only for ASCII and the basic Cyrillic block. Python's `str.lower` covers all of Unicode.
- TextSearch.ContainsKeyword: uses `Strings.Lower`, so keyword matching shares the same limitation on letter case.
- TextSearch.MatchesIgnoreCase: the IGNORECASE matching of the link pattern covers the ASCII pattern letters and the non-ASCII characters that fold to `i` and `s`. No other letter occurs in the pattern.

## Findings

| source | as written | input that shows it | evidently intended | confidence | as-written member | corrected member |
|---|---|---|---|---|---|---|
| notifier/app.py:186-221 | `lines` starts with the header, so `if not lines` never holds and the "no meetings today" text is never returned | a day with no meetings: the reply is the header alone | a day without meetings answers with the "no meetings today" notice | high, not executed | Agenda.NoticeNeverSent | Agenda.TodayReply |
