# Perceval fetchers: Bugzilla, Supybot, Telegram

This project models three parts of Perceval, a tool that collects data from software-project
repositories, and proves properties of each:

- **Bugzilla incremental fetcher** (`bugzilla.dfy`, `bugzilla_client.dfy`, `datetimes.dfy`).
  Bugzilla's CSV bug list has no pagination cursor. `__fetch_buglist` therefore takes rows off
  the front of a page one at a time. When the page runs dry, it asks again from the last row's
  `changeddate` plus one second, and it stops at the first page with no rows.
  - The server, the CSV decoder and `str_to_datetime` are the three functions of an `Env` value.
  - The query parameters of the client's four calls are modelled exactly, including the
    `%Y-%m-%dT%H:%M:%S` rendering of a civil date-time and its one-second step with carries.
- **Supybot IRC log parser** (`supybot.dfy`, `supybot_patterns.dfy`, `text.dfy`).
  `SupybotParser` is a class whose fields are the stream of lines and the line counter `nline`.
  - The four regular expressions are character-level matchers. They follow Python's `re`
    semantics: the lazy nick group with an optional greedy `!…` part and its backtracking order,
    `$` also matching before one final newline, and `\s` as Python's whitespace set.
  - `Parse` is proved against `ParseLog`, a function over the lines.
- **Telegram offset-driven fetch loop** (`telegram.dfy`). `TelegramBackend` is a class whose
  cache is a field.
  - `Fetch` is the `while True` loop over the offset. It is proved against `Poll`, a recursive
    definition of the run, whose properties are proved as lemmas.
  - `FetchFromCache` replays the cache.
  - The server and the JSON decoder are the two functions of an `Env` value.

`wrappers.dfy` (Option and Result) and `seqs.dfy` (small sequence facts) are shared helpers.

The fetch loops of both backends run until the server has nothing more to give. Termination
rests on an explicit precondition about the server.
- Bugzilla: `HonoursChangedFrom(env)`. The server never lists a row whose readable `changeddate`
  is before the requested date. Dates are bounded by the `datetime` range, so the requested date
  strictly increases and the loop ends.
- Telegram: `Drains(env, horizon)`. From some offset on, every page is empty or the call fails.
  The offsets strictly increase whatever the server returns. This is proved in `OffsetsIncrease`.

The code is followed where its documentation says otherwise. The docstring of `Telegram.fetch`
(perceval/backends/telegram.py:88) says an empty chat list raises `ValueError`. The code
(perceval/backends/telegram.py:93-98) only logs a warning, and then yields nothing because no
chat passes the filter. The model does the same: `Filter(us, Some([])) == []`.

## Model

| member | source | states |
|---|---|---|
| BugzillaClient.BuglistOrder | perceval/backends/bugzilla.py:138-141 | the order is `Last+Changed` exactly when the version is `3.2.3` or `3.2.2`, otherwise `changeddate`, also when the version is unknown |
| BugzillaClient.Metadata | perceval/backends/bugzilla.py:121-130 | `metadata` targets `show_bug.cgi` and sends only `ctype=xml` |
| BugzillaClient.Buglist | perceval/backends/bugzilla.py:132-153 | `buglist` targets `buglist.cgi` and sends exactly `chfieldfrom` (the date as `YYYY-MM-DDTHH:MM:SS`), `ctype=csv` and the version's `order` |
| BugzillaClient.Bugs | perceval/backends/bugzilla.py:155-168 | `bugs` targets `show_bug.cgi` and sends exactly `id` (all the ids), `ctype=xml` and `excludefield=attachmentdata` |
| BugzillaClient.BugActivity | perceval/backends/bugzilla.py:170-181 | `bug_activity` targets `show_activity.cgi` and sends only `id` |
| BugzillaClient.RequestsDistinguishable | perceval/backends/bugzilla.py:121-181 | the four calls never build the same request, and two bug-list requests are equal only for equal dates |
| BugzillaClient.DefaultBuglistDate | perceval/backends/bugzilla.py:132-143 | the default starting date is sent as `1970-01-01T00:00:00` |
| DateTimes.AddSecond | perceval/backends/bugzilla.py:69-70 | adding one second moves exactly one second forward, carrying into minute, hour, day, month and year; it overflows exactly at 9999-12-31T23:59:59 |
| DateTimes.Format | perceval/backends/bugzilla.py:143 | the rendering is 19 characters long |
| DateTimes.FormatParses | perceval/backends/bugzilla.py:143 | the rendered date reads back as the same date-time, so no two dates are sent as the same text |
| DateTimes.Pad2Number | perceval/backends/bugzilla.py:143 | a two-digit field is all digits and reads back as its value |
| DateTimes.Pad4Number | perceval/backends/bugzilla.py:143 | the four-digit year is all digits and reads back as its value |
| DateTimes.SecondsInjective | perceval/backends/bugzilla.py:69-70 | two date-times with the same count of seconds since 0001-01-01 are the same date-time, so one second later is a single date-time |
| DateTimes.EpochFormat | perceval/backends/bugzilla.py:143 | the Unix epoch is rendered as `1970-01-01T00:00:00` |
| Bugzilla.FetchPage | perceval/backends/bugzilla.py:73-76 | one bug-list request for the date, always without a server version; a failing response is a transport error, a body is decoded into its CSV rows |
| Bugzilla.Harvest | perceval/backends/bugzilla.py:57-71 | the whole bug list from a date: the request, then the rows of its page through `Resume`, or the request's error |
| Bugzilla.Resume | perceval/backends/bugzilla.py:60-67 | the rows left of a page: none ends the list normally; a first row without `changeddate` raises `KeyError` before it is yielded; otherwise it is yielded and the rest follows, and after the page's last row comes `AfterPage` |
| Bugzilla.AfterPage | perceval/backends/bugzilla.py:68-71 | after a page's last row the next request is at its `changeddate` plus one second, unless that date cannot be read or advanced, which ends the list with that error |
| Bugzilla.NextFrom | perceval/backends/bugzilla.py:69-70 | a next starting date exists exactly when the last row's date is readable and is not 9999-12-31T23:59:59, and it is that date plus one second; an unreadable date fails with `InvalidChangedDate` carrying its text, the latest date with `DateOverflow` |
| Bugzilla.FetchBuglist | perceval/backends/bugzilla.py:57-71 | the loop produces exactly the run that `Harvest` defines: the requests and yielded rows in order, and how it ended |
| Bugzilla.RequestPage | perceval/backends/bugzilla.py:73-76 | a page request either fails and ends the run, or yields rows that are not older than the requested date, which the loop goes through next |
| Bugzilla.Fetch | perceval/backends/bugzilla.py:45-55 | `fetch` returns every bug of the run, or the error that stopped it |
| Bugzilla.HarvestCases | perceval/backends/bugzilla.py:73-76 | a run starts with the request for its date, then stops on a failed request or goes through the rows of that page |
| Bugzilla.ResumeStep | perceval/backends/bugzilla.py:60-63 | a row that is not the last of its page is yielded, then the rest of the page follows |
| Bugzilla.ResumeLast | perceval/backends/bugzilla.py:60-71 | the last row of a page is yielded, then the run continues from its date |
| Bugzilla.ResumeLastRow | perceval/backends/bugzilla.py:60-71 | after the last row of a page, the next request is for that row's date plus one second |
| Bugzilla.ResumeMissing | perceval/backends/bugzilla.py:62 | a row without a `changeddate` stops the run before that row is yielded |
| Bugzilla.ResumeEmpty | perceval/backends/bugzilla.py:60 | an emptied page with no next request ends the run normally |
| Bugzilla.AfterPageCases | perceval/backends/bugzilla.py:68-71 | once a page is emptied, an unreadable or overflowing date stops the run; otherwise the run restarts strictly later |
| Bugzilla.ResumeDone | perceval/backends/bugzilla.py:60-71 | a page in a run that ends normally is yielded in full, then the run restarts one second after its last row |
| Bugzilla.ResumeDoneContinues | perceval/backends/bugzilla.py:62-71 | in a run that ends normally, each non-empty page's last row has a readable date that can move one second forward |
| Bugzilla.ResumeRequests | perceval/backends/bugzilla.py:60-71 | the only request made after a page is the one following its last row |
| Bugzilla.HarvestChained | perceval/backends/bugzilla.py:68-71 | the first request is for the starting date; each later one is one second after the `changeddate` of the last row of the non-empty page before it |
| Bugzilla.HarvestIncreasing | perceval/backends/bugzilla.py:68-71 | requested dates strictly increase, so no date is requested twice |
| Bugzilla.ChainIncreasing | perceval/backends/bugzilla.py:68-71 | when each date follows the last row of the previous page and the server honours `chfieldfrom`, the dates strictly increase |
| Bugzilla.HarvestDone | perceval/backends/bugzilla.py:58-71 | a normal run is request, every row of its page, request, and so on; every page but the last had rows and the last had none, so the requests are the non-empty pages plus one |
| Bugzilla.HarvestLaidOut | perceval/backends/bugzilla.py:58-71 | a normal run interleaves each request with all the rows of its page, and its last page is empty |
| Bugzilla.Keyed | perceval/backends/bugzilla.py:60-63 | the rows the loop yields from a page before it meets one without `changeddate`: a prefix of the page whose rows all carry `changeddate`, and the row after it, if any, lacks it |
| Bugzilla.ResumeLayout | perceval/backends/bugzilla.py:60-71 | going through a page yields its rows up to the first without `changeddate`, where the run fails with `MissingChangedDate`; an empty page ends the run normally; a page whose rows all carry `changeddate` is yielded in full and the run goes on one second after its last row's date |
| Bugzilla.HarvestLayout | perceval/backends/bugzilla.py:57-76 | every run, however it ends, starts with the request for its date and follows each request but the last with all rows of its page; after the last request come only the rows before the first one without `changeddate`; the run ends normally exactly on an empty last page, and otherwise with the failed request's error, with `MissingChangedDate`, or with the error of the last row's date |
| Bugzilla.LayoutCons | perceval/backends/bugzilla.py:57-71 | a request and all rows of its page, in front of a run laid out page by page, gives a run laid out page by page that ends where that run ends |
| Bugzilla.LayoutOne | perceval/backends/bugzilla.py:57-63 | a request followed by the rows of its page up to the first without `changeddate` is laid out page by page, with that request alone |
| Bugzilla.FailureOnSecondPage | perceval/backends/bugzilla.py:57-76 | when every row of the first page carries `changeddate`, the next date can be computed and the request for it fails, the run is the first request, every row of the first page, the second request, and that transport error |
| Bugzilla.LaidOutCons | perceval/backends/bugzilla.py:58-71 | a request followed by all its page's rows, in front of a laid-out run, gives a laid-out run |
| Bugzilla.EmptyPageLaidOut | perceval/backends/bugzilla.py:58-60 | a single request whose page was empty is laid out as that request alone |
| Bugzilla.InterleaveBugs | perceval/backends/bugzilla.py:60-63 | the bugs of a laid-out run are the pages' rows, page after page |
| Bugzilla.FetchReturnsAllPages | perceval/backends/bugzilla.py:53-71 | `fetch` returns the concatenation of the rows of every page requested, in page order |
| Bugzilla.EmptyFirstPage | perceval/backends/bugzilla.py:58-60 | an empty first page gives one request, no bugs and a normal end |
| Bugzilla.RequestsAppend | perceval/backends/bugzilla.py:57-71 | the requests of two runs in a row are the first run's followed by the second's |
| Bugzilla.BugsAppend | perceval/backends/bugzilla.py:57-71 | the bugs of two runs in a row are the first run's followed by the second's |
| Bugzilla.YieldsOnlyBugs | perceval/backends/bugzilla.py:60-63 | yielding a page makes no request and hands out exactly its rows |
| Text.LStrip | perceval/backends/supybot.py:134 | the result is a suffix of the text and starts with no whitespace |
| Text.LStripDrops | perceval/backends/supybot.py:134 | what `lstrip()` drops is whitespace |
| Text.RStrip | perceval/backends/supybot.py:134 | the result is a prefix of the text and ends with no whitespace |
| Text.RStripDrops | perceval/backends/supybot.py:134 | what `rstrip()` drops is whitespace |
| Text.StripTrims | perceval/backends/supybot.py:134 | `strip()` keeps a contiguous middle of the text and drops only whitespace on either side |
| Text.StripKeeps | perceval/backends/supybot.py:134 | a text with no whitespace at either end is unchanged by `strip()` |
| SupybotPatterns.NewlineFrom | perceval/backends/supybot.py:57-61 | this is the position of the first newline from a point, or the end of the text |
| SupybotPatterns.GreedyBangEnd | perceval/backends/supybot.py:60-61 | the greedy `(!.*)?` part ends at the last separator in range, or there is none |
| SupybotPatterns.NickEnd | perceval/backends/supybot.py:60-61 | a nick match ends at a separator, with no newline inside the nick |
| SupybotPatterns.NickEndComplete | perceval/backends/supybot.py:60-61 | whenever some separator can end a nick on the same line, the nick group matches |
| SupybotPatterns.NickEndFirst | perceval/backends/supybot.py:60-61 | when no `!` comes before the first separator, the lazy nick ends at that separator |
| SupybotPatterns.BangNickRunsToLastSeparator | perceval/backends/supybot.py:60 | with a `!` in the nick, the nick runs to the last `>` on the line (`<a!b> c> d` gives the nick `a!b> c`) |
| SupybotPatterns.MatchTimestamp | perceval/backends/supybot.py:57-59 | the timestamp pattern: the 24-character `YYYY-MM-DDTHH:MM:SS+HHMM` shape (digits, with `+` or `-` before the zone), two whitespace characters, and a message of at least one character with no newline, `$` also matching before one final newline |
| SupybotPatterns.MatchComment | perceval/backends/supybot.py:60 | the comment pattern: `<`, the lazy `(.*?)` nick with a greedy optional `(!.*)?` part, `>`, one whitespace character, and a body of at least one character with no newline (`.` excludes `\n`), `$` also matching before one final newline |
| SupybotPatterns.MatchServer | perceval/backends/supybot.py:61 | the server pattern: `***`, one whitespace character, then a body group holding the same lazy nick, one whitespace character and at least one character with no newline |
| SupybotPatterns.IsBlank | perceval/backends/supybot.py:62 | the empty-line pattern `^\s*$`: the line is whitespace only, using Python's whitespace set |
| SupybotPatterns.MatchTimestampSound | perceval/backends/supybot.py:57-58 | a timestamp match splits the line into a timestamp of the right shape, two whitespace characters and a non-empty one-line message |
| SupybotPatterns.MatchCommentSound | perceval/backends/supybot.py:60 | a comment match splits the message into `<`, the nick, `>`, a whitespace and a non-empty one-line body |
| SupybotPatterns.MatchServerSound | perceval/backends/supybot.py:61 | a server match is `***`, a whitespace and the body |
| SupybotPatterns.MatchServerBody | perceval/backends/supybot.py:61 | a server body is the nick (with no newline), one whitespace character (which may itself be a newline), then at least one character with no newline among them |
| SupybotPatterns.TimestampRoundTrip | perceval/backends/supybot.py:57-58 | a well-shaped timestamp, two whitespace characters and a one-line message match back into that timestamp and message |
| SupybotPatterns.CommentRoundTrip | perceval/backends/supybot.py:60 | `<nick>`, a whitespace and a body match back into that nick and body |
| SupybotPatterns.ServerRoundTrip | perceval/backends/supybot.py:61 | `***`, a whitespace, a nick, a whitespace and text match back, with the nick included in the body |
| SupybotPatterns.ServerNeedsText | perceval/backends/supybot.py:61 | `*** X ` is not a server message |
| SupybotPatterns.CommentServerDisjoint | perceval/backends/supybot.py:120-127 | no message matches both patterns, so trying the comment pattern first changes nothing |
| Supybot.TypeName | perceval/backends/supybot.py:71-72 | the item types are named `comment` and `server` |
| Supybot.RStripNewlines | perceval/backends/supybot.py:90 | `rstrip('\n')` drops exactly the trailing newlines |
| Supybot.ParseTimestamp | perceval/backends/supybot.py:103-115 | without the timestamp shape it raises "date expected" on the current line; otherwise it returns the timestamp and message the pattern captured |
| Supybot.ParseMessage | perceval/backends/supybot.py:117-136 | a comment if the comment pattern matches, else a server message if the server pattern does, else "invalid message" on the current line; the body is stripped |
| Supybot.ParseLine | perceval/backends/supybot.py:89-99 | one turn of the loop: the line without its ending newlines is skipped when blank, otherwise its timestamp and then its message are parsed, and the first failure is the error |
| Supybot.ParseLineSkips | perceval/backends/supybot.py:90-94 | a line gives nothing exactly when it is whitespace only once its trailing newlines are dropped |
| Supybot.ParseLineErrors | perceval/backends/supybot.py:106-127 | an error quotes the line number; it is "date expected" exactly when a non-blank line lacks the timestamp |
| Supybot.ParseLineItems | perceval/backends/supybot.py:134-144 | an item has a timestamp of the right shape and a body with no outer whitespace |
| Supybot.LineOutcomes | perceval/backends/supybot.py:89-101 | each line read gives exactly one outcome |
| Supybot.Tally | perceval/backends/supybot.py:89-101 | the loop reads no more lines than there are, reads them all when no line is rejected, and has read at least the rejected line when one is |
| Supybot.SupybotParser.constructor | perceval/backends/supybot.py:74-76 | a new parser holds the stream with its line counter at zero |
| Supybot.SupybotParser.ParseNext | perceval/backends/supybot.py:89-99 | one turn reads the next line, counts it, and gives that line's outcome |
| Supybot.SupybotParser.Parse | perceval/backends/supybot.py:78-101 | `parse` yields the items of `ParseLog`, raises its error, and leaves the counter at the number of lines read, the rejected one included |
| Supybot.ParseLog | perceval/backends/supybot.py:78-101 | the whole `parse`: each line's outcome in turn, with line numbers continuing from those read before, up to the first rejected line |
| Supybot.LineOutcomeAt | perceval/backends/supybot.py:89-91 | the line at position `k` is parsed with line number `nline + k + 1` |
| Supybot.TallyStep | perceval/backends/supybot.py:89-101 | one turn of the loop moves the outcome on by that line's outcome |
| Supybot.LineOutcomesAppend | perceval/backends/supybot.py:89-91 | two runs of lines are numbered one after the other |
| Supybot.TallyAppend | perceval/backends/supybot.py:89-101 | after a rejected line nothing more is read; otherwise the second run carries on after the first |
| Supybot.ParseLogAppend | perceval/backends/supybot.py:89-101 | a log parsed in two parts gives the same result as parsing it whole |
| Supybot.TallyYieldsEmitted | perceval/backends/supybot.py:96-101 | the items yielded are those of the lines read, in line order |
| Supybot.TallyStopsAtRejected | perceval/backends/supybot.py:89-101 | the parse fails exactly when some line is rejected, and it stops at the first such line |
| Supybot.ErrorNamesRejectedLine | perceval/backends/supybot.py:89-110 | the error quotes the 1-based number of the rejected line, and no earlier line was rejected |
| Supybot.NonBlankCount | perceval/backends/supybot.py:93-94 | there are no more non-blank lines than lines |
| Supybot.OneItemPerLine | perceval/backends/supybot.py:93-101 | a log that parses yields exactly one item per non-blank line |
| Supybot.BlankLinesSkipped | perceval/backends/supybot.py:90-94 | `""`, `" \t \r"` and a line of spaces ending in a newline give nothing |
| Supybot.MessageTextOneLine | perceval/backends/supybot.py:57-61 | a writable item's message is one non-empty line |
| Supybot.CommentMessageRoundTrip | perceval/backends/supybot.py:117-136 | a comment written as `<nick> body` parses back into the same comment |
| Supybot.ServerMessageRoundTrip | perceval/backends/supybot.py:117-136 | a server message written as `*** body` parses back into the same server message |
| Supybot.LogLineRoundTrip | perceval/backends/supybot.py:103-136 | a writable item written as a log line parses back into the same item |
| Telegram.UpdatesRequest | perceval/backends/telegram.py:255-258 | `offset` is sent exactly when it is given and non-zero, and it is the only parameter |
| Telegram.UpdatesParams | perceval/backends/telegram.py:255-258 | `None` and `0` send no parameters; the default offset sends `offset=1` |
| Telegram.Filter | perceval/backends/telegram.py:118-126 | filtering never adds updates |
| Telegram.Passes | perceval/backends/telegram.py:167-184 | `_filter_message_by_chats`: every update passes without a chat list, otherwise exactly those whose chat is on it |
| Telegram.FilterMembers | perceval/backends/telegram.py:167-184 | an update is kept exactly when there is no chat list or its chat is in the list |
| Telegram.FilterAppend | perceval/backends/telegram.py:118-126 | filtering page after page is filtering the pages together |
| Telegram.FilterBounds | perceval/backends/telegram.py:179-184 | without a chat list everything is kept; an empty chat list keeps nothing |
| Telegram.Raise | perceval/backends/telegram.py:118-119 | the offset never goes down while a page is read |
| Telegram.RaiseIsMax | perceval/backends/telegram.py:118-119 | the raised offset is the maximum of the previous offset and every `update_id` of the page, filtered or not |
| Telegram.Poll | perceval/backends/telegram.py:104-129 | the first request is made at the given offset |
| Telegram.Origin | perceval/backends/telegram.py:64-65 | the origin is the one given when it is non-empty; otherwise it is the Telegram URL joined with the bot name |
| Telegram.TelegramBackend.constructor | perceval/backends/telegram.py:64-69 | the backend keeps the bot, the server and the cache, and takes the default origin when none is given |
| Telegram.TelegramBackend.Store | perceval/backends/telegram.py:110-111 | a raw response is appended to the cache, if there is one |
| Telegram.TelegramBackend.TakePage | perceval/backends/telegram.py:118-127 | reading a page raises the offset to its maximum and yields exactly the updates that pass the filter |
| Telegram.TelegramBackend.Fetch | perceval/backends/telegram.py:71-129 | the loop makes the requests of `Poll`, yields its updates, ends the same way, and appends every response it got to the cache |
| Telegram.TelegramBackend.FetchFromCache | perceval/backends/telegram.py:134-165 | without a cache it raises `CacheError`; otherwise it returns every update of every cached response, in the order they were stored |
| Telegram.StoredTwice | perceval/backends/telegram.py:110-111 | storing twice is storing everything once, in order |
| Telegram.PollChained | perceval/backends/telegram.py:104-129 | each request after the first asks from one past the maximum of the previous offset and that page's `update_id`s; every page but the last was non-empty and cached as it came |
| Telegram.OffsetsIncrease | perceval/backends/telegram.py:119-129 | the offsets requested strictly increase, whatever the server returns |
| Telegram.ChainUp | perceval/backends/telegram.py:119-129 | offsets that increase step by step increase overall |
| Telegram.PollEnds | perceval/backends/telegram.py:104-116 | the run ends at the first empty page, whose response was cached too, or at the first failing call, whose response was not |
| Telegram.EndedCons | perceval/backends/telegram.py:104-129 | a page in front of an ended run still gives an ended run |
| Telegram.EmptyFirstPage | perceval/backends/telegram.py:113-116 | an empty first page gives one request, one cached response, no updates and a normal end |
| Telegram.DecodedSnoc | perceval/backends/telegram.py:157-161 | one more cached response adds its updates at the end |
| Telegram.DecodedAppend | perceval/backends/telegram.py:157-161 | replaying two runs of cached responses is replaying each in turn |
| Telegram.EmptyResponseAddsNothing | perceval/backends/telegram.py:113-116 | a cached response that decodes to no updates adds nothing to the filtered updates of the cache, so the page that ends the run yields nothing |
| Telegram.PollYieldsFilteredCache | perceval/backends/telegram.py:105-127 | the updates yielded are exactly those in the cached responses that pass the filter, page after page and in order within each page |
| Telegram.YieldsCons | perceval/backends/telegram.py:105-127 | a page in front of a run that yields its filtered cache still gives such a run |
| Telegram.FilterKeepsRequests | perceval/backends/telegram.py:118-129 | the chat list decides only what is yielded: the requests made and the responses cached are the same for every chat list |
| Telegram.RunsAgree | perceval/backends/telegram.py:104-129 | two runs from the same offset against the same server make the same requests, cache the same responses and end the same way |
| Telegram.LinkAt | perceval/backends/telegram.py:104-129 | every step of a chained run is linked by the page it got |
| Telegram.AgreeUpTo | perceval/backends/telegram.py:104-129 | two chained runs from the same offset agree request by request |
| Telegram.CacheReplaysFetch | perceval/backends/telegram.py:104-165 | without a chat list, replaying the cache gives exactly the updates the fetch yielded |

## Left out

- HTTP transport is left out. `requests.get`, `raise_for_status`, the URL templates and the
  headers are replaced by an oracle from request to response; a failure stands for `HTTPError`.
- CSV decoding is left out. `csv.DictReader` (perceval/backends/bugzilla.py:78-82) is the
  abstract `decode` of `Bugzilla.Env`.
- `str_to_datetime` is left out. It belongs to `perceval/utils.py`, which is not part of this
  model. It is the abstract `toDateTime` of `Bugzilla.Env`, returning `None` where it raises.
  Time zones are not modelled: date-times are naive civil ones.
- DateTimes.Format: `strftime("%Y")` is rendered with four zero-padded digits. Some C libraries
  do not pad years below 1000.
- JSON decoding is left out. `parse_messages` (perceval/backends/telegram.py:209-224) is the
  abstract `decode` of `Telegram.Env`; malformed JSON is not modelled.
- An update is reduced to the fields the backend reads: `update_id`, `message_id` and `chat.id`.
- Telegram.Poll and Telegram.TelegramBackend.Fetch: every update is taken to carry
  `message.message_id` and `message.chat.id`. Updates without a `message` key (an edited message
  or a channel post, say) are not modelled. On them the source raises `KeyError` after the
  response was cached: at perceval/backends/telegram.py:182 when a chat list is given, and at the
  debug call of perceval/backends/telegram.py:123 when the update is filtered out.
- `metadata_id`, `metadata_updated_on` (a float conversion), the `@metadata` decoration,
  logging and the `nmsgs` counters are left out.
- The cache implementation is left out. `_push_cache_queue`, `_flush_cache_queue`,
  `_purge_cache_queue` and `self.cache` come from the `Backend` base class imported at
  perceval/backends/telegram.py:28. The `perceval/backend.py` read for this model defines only
  `__init__` and `get_argument_parser` (not even `metadata`), so their behaviour is assumed.
  - Telegram.TelegramBackend.Store: `_push_cache_queue` followed by `_flush_cache_queue` is an
    append to a sequence.
  - `_purge_cache_queue` has no effect, because every push is flushed at once.
  - `not self.cache` is modelled as "no cache" (`None`): a cache object that was given is taken as truthy.
- Telegram.Origin: `urljoin` belongs to `perceval/utils.py`, which is not part of this model. It
  is modelled as the URL, a `/` and the bot name.
- The bot token and the API URL of `TelegramBotClient` are left out.
- Generators are not modelled as lazy.
  - Bugzilla.FetchBuglist, Supybot.SupybotParser.Parse and Telegram.TelegramBackend.Fetch run to
    completion and return what the generator yields, as a sequence, with how it ended.
  - A consumer that stops early is not modelled. The lemmas about prefixes (`ParseLogAppend`,
    `TallyYieldsEmitted`, the chained run predicates) state what any prefix of the run holds.
- Termination preconditions are explicit.
  - Bugzilla.FetchBuglist and Bugzilla.Fetch require `HonoursChangedFrom`: the server never lists
    rows older than the requested date. Without it the source can loop forever.
  - Telegram.TelegramBackend.Fetch requires `Drains` with a ghost horizon: from some offset on
    the server has nothing more. Without it the source can loop forever.
- Rows that share a second with a page's last row, but were not in that page, are skipped by the
  one-second step. This is the source's behaviour, and the model keeps it.
- `ParseError` is modelled as its kind and the line number. The text of the message is not
  modelled.
- `\d` matches ASCII digits only. Python's `str` patterns also accept other Unicode decimal digits.
- `re.VERBOSE` has no effect on the comment and server patterns, which hold no literal
  whitespace. For the timestamp pattern it drops the line break and the indentation.
- The thin REST clients, the mailbox backend, `parse_bugs_details` and the command-line
  arguments are not part of this model.
