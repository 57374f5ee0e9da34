# TwitterUserAnalyzerPrototype2 in Dafny

A Dafny model of the analysis core of TwitterUserAnalyzerPrototype2, a tool
that downloads a Twitter user's timeline and renders a report of it.

- **Fetch** (`TwitterGateway`). The model covers the profile request and the
  paged timeline walk. The walk uses max-id paging: every request after the
  first carries the id of the last tweet of the previous page. It stops on an
  empty page, or on a page holding only the cursor's own tweet, and a tweet is
  appended only when its id is not yet present. The walk is a loop over an
  injected client function. It is proved equal to a recursive specification,
  `Walk`.
- **Stub client** (`Stub`). It serves 200-tweet slices of a fixed list. Each
  slice starts at the cursor's own tweet. For a list with distinct ids, the
  fetch over the stub returns exactly the whole list.
- **Summaries** (`Summarize`, `Ranking`, `TweetCounts`):
  - a day-by-day histogram of tweets, by their date shifted to UTC+9;
  - a weekday × hour grid of mutable cell objects, over an inclusive time
    window;
  - reply-target and hashtag rankings: a find-or-push grouping loop, then an
    in-place sort by count descending, then key ascending.
- **Report data** (`HtmlConverter`). This builds the 31-day bar chart and the
  colour of each cell of the weekday × hour heat map.
- **Helpers**:
  - `FileSystemUtil`: the first free `./<name>-<date>[_<i>]` file or
    directory name;
  - `DownloadProfileImage`: the content-type to extension mapping, the
    full-size image URL, and the accept/reject decision of the image
    download.

Instants are integer seconds since 1970-01-01T00:00Z, and the machine's
local time zone is taken to be UTC. Calendar dates are day numbers. The day
of month shown on chart labels uses the proleptic Gregorian calendar
(`Dates`).

## Model

| member | source | states |
|---|---|---|
| TweetModel.FindIndexById | stub.ts:24 | `findIndex` by id, here and at line 69 of twitterGateway.ts: the index of the first tweet with the id, or -1 exactly when no tweet has it. |
| TwitterGateway.ProfileRequest | twitterGateway.ts:11-18 | With no screen name the request is `account/verify_credentials` with empty options. Otherwise it is `users/show` with only `screen_name` set. |
| TwitterGateway.GetProfile | twitterGateway.ts:20-29 | The profile request rejects exactly when the client reports an error, and then carries that error. It resolves with the client's response otherwise. It stays pending exactly when the callback never comes. |
| TwitterGateway.TimelineOptions | twitterGateway.ts:37-48 | Every timeline request has count 200, exclude_replies false, include_rts false and trim_user true. `screen_name` and `max_id` are set exactly when given. |
| TwitterGateway.AppendNewKeeps | twitterGateway.ts:67-72 | Appending a page keeps the accumulated tweets as a prefix. The id of every page tweet ends up in the result. Distinct ids stay distinct. |
| TwitterGateway.AppendNewPicks | twitterGateway.ts:67-72 | Every appended tweet is a page tweet whose id was not already accumulated, and it is the first tweet of the page with that id. |
| TwitterGateway.AppendNewOrder | twitterGateway.ts:67-72 | The appended tweets keep the order in which their ids first occur in the page. |
| TwitterGateway.AppendNewFresh | twitterGateway.ts:67-72 | When no page id is already present and the page's ids are distinct, the whole page is appended in order. |
| TwitterGateway.AppendNewAll | twitterGateway.ts:67-72 | Starting from nothing, a page with distinct ids is taken whole. |
| TwitterGateway.Settle | twitterGateway.ts:50-59 | A walk ends in rejection exactly on an error reply, carrying its error. It ends with the accumulated tweets exactly on a page. Any other reply, such as a callback that never comes, leaves it `Unsettled`. |
| TwitterGateway.WalkSettles | twitterGateway.ts:50-66 | An error reply, an empty page, or a page holding only the cursor's own tweet ends the walk without appending anything. A missing callback leaves it `Unsettled` for good. |
| TwitterGateway.WalkStops | twitterGateway.ts:56-66 | An empty page, or a page holding only the cursor's own tweet, ends the walk with the tweets accumulated so far. |
| TwitterGateway.WalkContinues | twitterGateway.ts:61-74 | Any other page appends its new tweets, and the next request's cursor is the id of the page's last tweet. |
| TwitterGateway.WalkKeepsAccumulated | twitterGateway.ts:34-75 | A completed walk's result starts with everything accumulated before it. If the accumulated ids were distinct, the result's ids are distinct too. |
| TwitterGateway.FetchedDistinct | twitterGateway.ts:67-72 | A completed fetch never returns two tweets with the same id. |
| TwitterGateway.WalkReturnsPage | twitterGateway.ts:61-74 | From a state whose cursor tweet is already accumulated, the id of every tweet of the page the walk receives is in the final result. This includes the lone repeated tweet that ends the walk, since it was added on the page before. |
| TwitterGateway.AppendUnseen | twitterGateway.ts:68-72 | The dedupe loop appends exactly the specification's new tweets (`AppendNew`), searching the accumulated tweets by id for each page tweet. |
| TwitterGateway.NextCursor | twitterGateway.ts:61 | The next cursor exists exactly when the reply is a non-empty page, and it is the id of its last tweet. |
| TwitterGateway.LogExtends | twitterGateway.ts:74 | The request made with the last reply's cursor keeps the request log chained. The first request never has a cursor. |
| TwitterGateway.FetchPage | twitterGateway.ts:50-75 | One request gets the client's reply for the current cursor. Either the walk settles on that reply, or the new accumulated list is `AppendNew` of the page and the walk continues from the next cursor with it. |
| TwitterGateway.GetTweets | twitterGateway.ts:32-81 | The fetch loop's outcome equals `Walk`, and a fetched result has distinct ids. The first request carries no `max_id`. Each later request carries the last id of the page before. A rejection carries the error of the last request. |
| Stub.BeginIndex | stub.ts:19-28 | A page starts at 0 when there is no cursor or no tweet has the cursor's id. Otherwise it starts at the first tweet with that id. |
| Stub.TimelinePage | stub.ts:30-31 | A page holds at most 200 consecutive tweets from the begin index and never runs past the end. |
| Stub.StubGet | stub.ts:14-41 | The timeline endpoint answers with the page for `max_id`. Both profile endpoints answer with the stored profile. Any other endpoint never calls back. |
| Stub.StubServesProfile | stub.ts:35-40 | The profile request over the stub resolves with the stored profile, with or without a screen name. |
| Stub.StubFirstPage | stub.ts:20-21 | Without a cursor the stub serves the first page of the list. |
| Stub.StubPageFrom | stub.ts:24-31 | With distinct ids, the cursor naming tweet `b` gets the slice starting at `b`, so the boundary tweet is served again. |
| Stub.StubServesPages | stub.ts:14-31 | The stub serves the first page and the page from every tweet in that way. |
| Stub.PageStep | stub.ts:24-31 | Over the stub, one step of the walk appends exactly the unseen part of the next slice. |
| Stub.WalkFrom | stub.ts:19-31 | Once the first `e` tweets are accumulated, the walk ends with the whole list, given one request per remaining tweet. |
| Stub.FirstPageStep | stub.ts:20-31 | The first page is taken whole. |
| Stub.WalkFromTop | stub.ts:19-31 | A client that serves pages the way the stub does hands over the whole list in order, given `n + 1` requests. |
| Stub.RepeatedPageNeverSettles | twitterGateway.ts:56-74 | A client that answers the first request, and every request whose cursor is the page's first id, with the same page of two or more tweets whose last id is its first never lets the walk settle: every request budget runs out. |
| Stub.StubRepeatedEndNeverSettles | stub.ts:21-31 | A stub list that fits one page and ends with the id it starts with is served whole for every request, so the walk never settles. |
| Stub.StubFetchesAll | stub.ts:13-42 | For a list of `n` tweets with distinct ids, fetching from the stub with at least `n + 1` requests returns exactly the list, in order. An empty list gives an empty result. |
| Summarize.JstDates | summarize.ts:11-16 | Each tweet's date is the calendar day of its creation instant shifted by +9 hours. |
| Summarize.ShiftedDates | summarize.ts:9-16 | The loop computes exactly those shifted dates. |
| Summarize.FindDate | summarize.ts:27 | The result is the index of the first entry for the date, or -1 exactly when there is none. |
| Summarize.EachDay | summarize.ts:20-24 | The days from the earliest to the latest date, inclusive, ascending, each with count 0. |
| Summarize.TotalCountUpdate | summarize.ts:33 | Raising one entry's count raises the total by the same amount. |
| Summarize.TallyStep | summarize.ts:33 | Incrementing the entry for a date keeps every entry equal to the number of dates counted so far that fall on its day. |
| Summarize.CountDates | summarize.ts:26-34 | Every entry counts the dates of its day, the counts sum to the number of dates, and the warning branch is never taken. |
| Summarize.SummarizeDailyTweetCount | summarize.ts:8-37 | There is one entry per day from the earliest to the latest shifted date, ascending and without gaps. Each entry counts that day's tweets. The counts sum to the number of tweets, and no warning is issued. No tweets give no entries. |
| Summarize.InWindow | summarize.ts:41-47 | The kept instants lie inside the window, both ends included, and there are no more of them than tweets. |
| Summarize.InWindowMembers | summarize.ts:41-47 | An instant is kept exactly when it is inside the window and some tweet was created at it. |
| Summarize.CreatedInWindow | summarize.ts:40-47 | The filtering loop keeps exactly `InWindow`. |
| Summarize.NewWeek | summarize.ts:49-52 | There are 7 rows labelled Sun to Sat. Each row has 24 fresh, distinct cells for hours 0 to 23, each with its row's label and count 0. |
| Summarize.SummarizeDayHourTweetCount | summarize.ts:39-59 | Cell (d, h) counts the in-window tweets whose unshifted instant falls on weekday d and hour h. The grid keeps its 7 × 24 shape and labels. |
| Summarize.TallyInstant | summarize.ts:54-56 | Counting one more instant keeps every cell equal to its weekday-and-hour count, and the cells stay distinct objects. |
| Summarize.CountAtAppend | summarize.ts:55 | One more instant raises exactly the cell of its weekday and hour. |
| Summarize.GridTotalIsCount | summarize.ts:54-56 | The cells sum to the number of instants counted. |
| Summarize.DayHourTotal | summarize.ts:54-56 | The grid's cells sum to the number of in-window tweets. |
| Summarize.ReplyTargets | summarize.ts:64-67 | There are no more reply targets than tweets. |
| Summarize.ReplyTargetsMembers | summarize.ts:64-67 | A name is a reply target exactly when some tweet replies to it. A tweet replying to no one contributes nothing. |
| Summarize.HashtagTextsLength | summarize.ts:103-104 | Every hashtag entry is counted, repeats within a tweet included. |
| Summarize.SummarizeReplyCount | summarize.ts:61-98 | There is one entry per distinct reply target, and each count, at least 1, is that name's number of replies. The counts sum to the number of replies. The entries are ordered strictly by count descending, then name ascending. |
| Summarize.BumpAll | summarize.ts:104-112 | Bumping each hashtag of a tweet keeps the entries an exact tally of all hashtags seen. |
| Summarize.SummarizeHashtagCount | summarize.ts:100-135 | There is one entry per distinct hashtag text, each counting its entries, repeats included. The counts sum to the number of entries. The order is the same as for replies. |
| Ranking.StrLessIrreflexive | summarize.ts:85-90 | No string sorts before itself. |
| Ranking.StrLessAsymmetric | summarize.ts:85-90 | Two strings never sort before each other. |
| Ranking.StrLessTransitive | summarize.ts:85-90 | String order is transitive. |
| Ranking.StrLessTotal | summarize.ts:85-90 | Two different strings are always ordered one way or the other. |
| Ranking.BeforeAsymmetric | summarize.ts:79-94 | The comparator never puts two entries each before the other. |
| Ranking.NotBeforeTransitive | summarize.ts:79-94 | "Not after" is transitive, which is what sorting relies on. |
| Ranking.RankedDistinctIsStrict | summarize.ts:78-95 | Sorted entries with distinct keys are strictly ordered by count descending, then key ascending, so the order is fully determined. |
| Ranking.StrictRankingUnique | summarize.ts:78-95 | Two strict rankings of the same entries are the same list, so any correct sort of entries with distinct keys gives the same result. |
| Ranking.SumPermutation | summarize.ts:78 | Reordering entries does not change the sum of their counts. |
| Ranking.TalliesPermutation | summarize.ts:78-95 | A reordering of a tally is the same tally, with the same sum. |
| Ranking.FindKey | summarize.ts:69 | The result is the index of the first entry with the key, or -1 exactly when there is none. |
| Ranking.TalliesPush | summarize.ts:70-75 | A new key gets a new entry with count 1, and the entries stay an exact tally. |
| Ranking.TalliesIncrement | summarize.ts:75 | A known key's entry is raised by one, and the entries stay an exact tally. |
| Ranking.Bump | summarize.ts:69-75 | Find-or-push then increment keeps the entries an exact tally of the keys seen, with the sum raised by one. |
| Ranking.InsertNext | summarize.ts:78-95 | Moving the next entry into place extends the sorted prefix by one, only permutes the array, and leaves the entries after it unchanged. |
| Ranking.SortInPlace | summarize.ts:78-95 | The in-place sort leaves the array in comparator order, as a permutation of its old contents. |
| Ranking.Rank | summarize.ts:78-95 | The ranked list is a permutation of the grouped entries, in comparator order. |
| SeqOps.Min | summarize.ts:17 | The earliest date is one of the dates and no later than any of them. |
| SeqOps.Max | summarize.ts:18 | The latest date is one of the dates and no earlier than any of them. |
| SeqOps.Occurrences | summarize.ts:26-34 | A value's count is at most the list's length, and 0 exactly when it is absent. |
| Dates.WeekdayOf | summarize.ts:55 | The weekday index of an instant lies in 0..6. What it means is fixed by `Dates.WeekdaySteps`. |
| Dates.WeekdaySteps | summarize.ts:55 | 1970-01-04, a Sunday, has weekday 0, and each following day has the next weekday, Saturday (6) wrapping to Sunday (0). Every instant has the weekday of its own day's midnight. |
| Dates.HourOf | summarize.ts:55 | The hour lies in 0..23 and is the hour of the instant's day that the instant falls in. |
| Dates.DayOfMonth | htmlConverter.ts:18 | The day of month of a day number lies in 1..31. |
| Dates.DayLabel | htmlConverter.ts:18 | A bar's label is two decimal digits that read back as the day of month of its day. |
| TweetCounts.HourlyTweetCount.constructor | hourlyTweetCount.ts:6-10 | A new cell stores its day and hour, and starts at count 0. |
| TweetCounts.DailyHourlyTweetCount.constructor | daylyHourlyTweetCount.ts:7-14 | A new row stores its day and holds 24 new, distinct cells for hours 0 to 23 in order, each with the row's day and count 0. |
| HtmlConverter.CountOn | htmlConverter.ts:16-22 | A day's count is that of the first record for the day, or 0 when there is none. |
| HtmlConverter.RoundsToNearest | htmlConverter.ts:26 | `Math.round` of a quotient is within a half of it, and ties round up. |
| HtmlConverter.HalfLabel | htmlConverter.ts:26 | The middle vertical label is half the largest count, rounded up. |
| HtmlConverter.HeightBounds | htmlConverter.ts:28-31 | With a positive largest count, every bar's height lies in 0..185 and the tallest bar is exactly 185. |
| HtmlConverter.DayBars | htmlConverter.ts:10-23 | There is one bar per day, ascending. Each carries its day-of-month label and its record's count, or 0. |
| HtmlConverter.ScaleBars | htmlConverter.ts:29-31 | Every bar gets its scaled height, and labels and counts are kept. |
| HtmlConverter.ConvertDailyTweetCount | htmlConverter.ts:7-37 | There are 31 bars, for the last record's day and the 30 days before it, ascending. Each bar is labelled with its day of month and carries that day's count, or 0. The heights are scaled to the largest count. The vertical labels are 0, half the largest count, and the largest count. |
| HtmlConverter.CountOnSummary | htmlConverter.ts:16-22 | Charting a daily summary gives every bar the number of tweets of its day, whether or not the day lies inside the summary. |
| HtmlConverter.ReachedMonotone | htmlConverter.ts:44-59 | A larger count never reaches fewer colour thresholds. |
| HtmlConverter.CellColorByLevel | htmlConverter.ts:44-59 | The corrected colour is the palette entry for the number of thresholds (1, 10, 20, 30) the count reaches. |
| HtmlConverter.CellColor | htmlConverter.ts:44-59 | The intended colour is one of the five shades, and the blank shade exactly when the count is below 1. |
| HtmlConverter.ShadeNeverLighter | htmlConverter.ts:44-59 | With the intended colours, a busier cell is never drawn in a lighter shade. |
| HtmlConverter.CellColorAsWritten | htmlConverter.ts:44-59 | The colour as written is one of the five shades, and the blank shade exactly when the count is below 1. |
| HtmlConverter.ShadeNeverLighterAsWritten | htmlConverter.ts:44-59 | As written too, a busier cell is never drawn in a lighter shade. |
| HtmlConverter.MediumShadeUnreachable | htmlConverter.ts:51 | As written, `#7bc96f` is never chosen and every count from 1 to 19 gets `#c6e48b`. At 15 this differs from the corrected colour. Outside 10..19 the two agree. |
| HtmlConverter.ColorRow | htmlConverter.ts:43-62 | Each cell of a row is copied with its day, hour and count, plus the colour the source computes for its count as written (`#c6e48b` for 1 to 19). |
| HtmlConverter.ConvertDayHourTweetCount | htmlConverter.ts:39-66 | The grid is copied with the same shape, labels and counts, and each cell gets the colour as written for its count. The input objects are not changed. |
| FileSystemUtil.DecimalString | fileSystemUtil.ts:14 | The decimal text of a number is non-empty and all digits, and starts with `0` exactly for 0, so it has no leading zero. |
| FileSystemUtil.Numbering | fileSystemUtil.ts:10-15 | Index 0, and only index 0, adds no suffix. |
| FileSystemUtil.NumberingText | fileSystemUtil.ts:14 | Every other index adds `_` followed by digits with no leading zero that read back as the index. |
| FileSystemUtil.DecimalRoundTrip | fileSystemUtil.ts:14 | The decimal text of a number reads back as that number. |
| FileSystemUtil.DecimalInjective | fileSystemUtil.ts:14 | Different numbers print differently. |
| FileSystemUtil.CandidateInjective | fileSystemUtil.ts:9-15 | Different indices give different candidate names. |
| FileSystemUtil.DirectoryNamesMatchFileNames | fileSystemUtil.ts:29-35 | The directory names number the same way as the file names, without the `.json` suffix. |
| FileSystemUtil.FirstFreeUnique | fileSystemUtil.ts:17-19 | There is only one first free candidate. |
| FileSystemUtil.FirstFreeName | fileSystemUtil.ts:9-22 | The search returns a candidate that does not exist, and every earlier candidate exists. It ends because only finitely many names exist. |
| FileSystemUtil.CreateFileName | fileSystemUtil.ts:5-23 | The result is the first free `./<name>-<date>.json`, `./<name>-<date>_1.json`, and so on. |
| FileSystemUtil.CreateDirName | fileSystemUtil.ts:25-43 | The result is the first free `./<name>-<date>`, `./<name>-<date>_1`, and so on. |
| DownloadProfileImage.GetExtension | downloadProfileImage.ts:5-14 | `image/jpeg` gives `jpg` and `image/png` gives `png`, each exactly then. Anything else, including an array-valued or missing header, gives `""`. |
| DownloadProfileImage.IndexOf | downloadProfileImage.ts:17 | The result is the first index where the pattern occurs, or -1 exactly when it does not occur. |
| DownloadProfileImage.GetOriginalImageUrl | downloadProfileImage.ts:16-18 | A URL without `_normal` is unchanged. Otherwise the result is shorter by exactly `_normal`. |
| DownloadProfileImage.OriginalImageUrlRoundTrip | downloadProfileImage.ts:17 | Only the first `_normal` is removed: putting it back at its position gives the original URL, and no earlier `_normal` exists. |
| DownloadProfileImage.ConcatAppend | downloadProfileImage.ts:38-44 | Joining two runs of chunks joins their data, so the chunks' order is kept. |
| DownloadProfileImage.ConcatLength | downloadProfileImage.ts:44 | The saved data is exactly as long as all chunks together. |
| DownloadProfileImage.DownloadProfileImage | downloadProfileImage.ts:20-50 | The full-size URL is requested. A status other than 200 rejects, and otherwise an unsupported content type rejects. Otherwise the file `<base>.<extension>` is saved with the chunks concatenated in order, exactly then. |

## Left out

- `index.ts` is not part of this model: command-line parsing, credentials from the environment, and report output.
- date-fns parsing and formatting are not modelled. Instants are integers and the machine's time zone is UTC. `YYYY-MM-DD` strings are day numbers, whose order agrees with the strings' order for four-digit years.
- HTTP is a parameter: the Twitter client is a function from endpoint and options to a reply, and `http.get` is a function from URL to response.
- `fs.existsSync` is a set of existing names, and the current date is a parameter.
- File writes are not modelled. The download returns the directory, file name and data it would write. `path.join` is not modelled, so the directory and file name are kept apart.
- The stub's JSON files are parameters: the tweet list and the profile.
- `console.log` is not modelled. `console.warn` becomes the daily summary's `warnings` output.
- Promises and callbacks are not modelled. A callback that never comes is an outcome (`Pending`, `Unsettled`), not a hang.
- TwitterGateway.GetTweets: the loop is bounded by a `fuel` count of requests, and running out gives `Unsettled`. The source has no bound. For the stub, `Stub.StubFetchesAll` shows that `n + 1` requests suffice when the ids are distinct. Without distinct ids the source's walk may never end, as `Stub.StubRepeatedEndNeverSettles` shows for a list that ends with its first tweet's id.
- Tweet ids are JavaScript numbers, so ids above 2^53 are rounded when the JSON is parsed. `Tweet.id` is the id's value as the program holds it after parsing, and ids that differ only before parsing are treated as equal.
- TwitterGateway.Settle takes a profile reply on the timeline endpoint as `Unsettled`. The source would throw a TypeError there, at twitterGateway.ts:61, since `lodash.last` of a non-array is undefined. Only the model's shared `Reply` type allows this input.
- The client's `error` is reduced to a message string. JavaScript truthiness of the error value is not modelled.
- Rejection messages are a `Failure` value, not formatted text.
- HtmlConverter.ConvertDailyTweetCount requires a non-empty input, because the source takes the `date` of `lodash.last` of it, which fails on an empty list.
- HtmlConverter.HeightOf computes `Math.round(185 * count / maxCount)` with exact rational arithmetic, not floating point. When the largest count is 0 the height is `None`, standing for the source's NaN.
- The heat map takes the colours as the code computes them (`HtmlConverter.CellColorAsWritten`). The intended colours (`HtmlConverter.CellColor`) are modelled and proved beside them; see "## Findings".
- `lodash.cloneDeep` is a value copy. `HtmlConverter.ConvertDayHourTweetCount` returns `ColoredRow`/`ColoredCell` values where the source returns cloned objects with an added `color` field.
- Summarize.SummarizeDailyTweetCount returns an empty summary for no tweets. The code does not check this case: `lodash.min` and `lodash.max` of no dates are undefined, and date-fns' `eachDay` over two invalid dates yields no day. The model follows that behaviour rather than treating the empty list as a precondition.
- Summarize.SummarizeDayHourTweetCount buckets by the unshifted instant's weekday and hour, as the code does (`getDay`/`getHours` in the machine's zone). It does not use the +9 hour shift of the daily summary.
- Summarize.ReplyTargets: its own contract only bounds the length. What it contains is stated by `Summarize.ReplyTargetsMembers` and by the tallies of `Summarize.SummarizeReplyCount`.
- The sort is modelled as an insertion sort. JavaScript's `Array.prototype.sort` may use another algorithm. With distinct keys the sorted list is strictly ordered (`Ranking.RankedDistinctIsStrict`), and two strict orderings of the same entries are equal (`Ranking.StrictRankingUnique`), so every correct sort gives the same result.
- Ranking.StrLess compares strings by Unicode scalar values (Dafny's `char`). JavaScript's `<` compares UTF-16 code units. The two orders differ only when a character above U+FFFF meets one in U+E000 to U+FFFF at the first difference, for example `𠮷` against `ｱ`. Between equal counts, such keys may rank in the other order than in the source.
- Dates.DayOfMonth: its contract only bounds the result to 1..31. That it agrees with the Gregorian calendar rests on the civil-from-days algorithm it transcribes, not on a proof.

## Findings

| source | as written | input that shows it | evidently intended | confidence | as-written member | corrected member |
|---|---|---|---|---|---|---|
| htmlConverter.ts:51 | The third colour branch compares the cell's `color`, which is still undefined at that point, instead of its `count`. The comparison is always false, so `#7bc96f` is never used. | a cell with count 15 gets `#c6e48b` | counts 10 to 19 get `#7bc96f` | not executed | HtmlConverter.CellColorAsWritten | HtmlConverter.CellColor |
