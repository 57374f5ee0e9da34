/**
 * The four summaries of summarize.ts. None of them changes the tweets it is
 * given; each builds its result by pushing into a fresh list and then
 * updating the entries it finds.
 */
module Summarize {
  import opened Wrappers
  import opened TweetModel
  import opened Dates
  import opened SeqOps
  import opened Ranking
  import opened TweetCounts

  // ===========================================================================
  // summarizeDailyTweetCount

  /** A `DailyTweetCount`: a "YYYY-MM-DD" date, here a day number, and its count. */
  datatype DailyTweetCount = DailyTweetCount(date: int, count: int)

  /** The +9h-shifted calendar date of every tweet, in input order. */
  function JstDates(tweets: seq<Tweet>): (dates: seq<int>)
    ensures |dates| == |tweets|
    ensures forall i :: 0 <= i < |tweets| ==> dates[i] == JstDayOf(tweets[i].createdAt)
  {
    seq(|tweets|, i requires 0 <= i < |tweets| => JstDayOf(tweets[i].createdAt))
  }

  /** The sum of the daily counts. */
  function TotalCount(s: seq<DailyTweetCount>): int
  {
    if s == [] then 0 else TotalCount(s[..|s| - 1]) + s[|s| - 1].count
  }

  lemma {:induction false} TotalCountUpdate(s: seq<DailyTweetCount>, k: int, e: DailyTweetCount)
    requires 0 <= k < |s|
    ensures TotalCount(s[k := e]) == TotalCount(s) - s[k].count + e.count
  {
    var n := |s| - 1;
    if k < n {
      assert s[k := e][..n] == s[..n][k := e];
      TotalCountUpdate(s[..n], k, e);
    } else {
      assert s[k := e][..n] == s[..n];
    }
  }

  /** The first entry for `date` (line 27), as its index, or -1 when there is none. */
  method FindDate(result: seq<DailyTweetCount>, date: int) returns (k: int)
    ensures -1 <= k < |result|
    ensures k >= 0 ==> result[k].date == date && forall j :: 0 <= j < k ==> result[j].date != date
    ensures k == -1 ==> forall j :: 0 <= j < |result| ==> result[j].date != date
  {
    k := 0;
    while k < |result|
      invariant 0 <= k <= |result|
      invariant forall j :: 0 <= j < k ==> result[j].date != date
    {
      if result[k].date == date {
        return;
      }
      k := k + 1;
    }
    k := -1;
  }

  /** `DateFns.eachDay(minDate, maxDate)`, each day pushed with count 0 (the key recomputed at line 22 is the day itself). */
  method EachDay(minDate: int, maxDate: int) returns (result: seq<DailyTweetCount>)
    requires minDate <= maxDate
    ensures |result| == maxDate - minDate + 1
    ensures forall i :: 0 <= i < |result| ==> result[i] == DailyTweetCount(minDate + i, 0)
    ensures TotalCount(result) == 0
  {
    result := [];
    for day := minDate to maxDate + 1
      invariant |result| == day - minDate
      invariant forall i :: 0 <= i < |result| ==> result[i] == DailyTweetCount(minDate + i, 0)
      invariant TotalCount(result) == 0
    {
      assert (result + [DailyTweetCount(day, 0)])[..|result|] == result;
      result := result + [DailyTweetCount(day, 0)];
    }
  }

  /** Entry `i` is the day `minDate + i`, and counts how often that day occurs among `dates`. */
  ghost predicate CountsEachDay(result: seq<DailyTweetCount>, dates: seq<int>, minDate: int)
  {
    forall i :: 0 <= i < |result| ==>
      result[i].date == minDate + i && result[i].count == Occurrences(dates, minDate + i)
  }

  /**
   * One entry per day from the earliest to the latest shifted date, in order,
   * each counting the tweets of that day; `warnings` lists the dates that
   * found no entry (there are none). With no tweets, the earliest and latest
   * dates are undefined, the day range they span is empty, and so is the
   * summary.
   */
  method SummarizeDailyTweetCount(tweets: seq<Tweet>) returns (result: seq<DailyTweetCount>, warnings: seq<int>)
    ensures |tweets| == 0 ==> result == []
    ensures |tweets| > 0 ==> |result| == Max(JstDates(tweets)) - Min(JstDates(tweets)) + 1
    ensures |tweets| > 0 ==> CountsEachDay(result, JstDates(tweets), Min(JstDates(tweets)))
    ensures TotalCount(result) == |tweets|
    ensures warnings == []
  {
    var tweetsDate := ShiftedDates(tweets);
    if |tweetsDate| == 0 {
      return [], [];
    }
    var minDate := Min(tweetsDate);
    var maxDate := Max(tweetsDate);

    result := EachDay(minDate, maxDate);
    assert forall j :: 0 <= j < |tweetsDate| ==> minDate <= tweetsDate[j] < minDate + |result|;
    result, warnings := CountDates(result, tweetsDate, minDate);
  }

  /** Lines 9-16: every creation instant shifted by +9h, then reduced to its calendar date. */
  method ShiftedDates(tweets: seq<Tweet>) returns (tweetsDate: seq<int>)
    ensures tweetsDate == JstDates(tweets)
  {
    var tweetsCreatedAtJst: seq<int> := [];
    for i := 0 to |tweets|
      invariant |tweetsCreatedAtJst| == i
      invariant forall j :: 0 <= j < i ==> tweetsCreatedAtJst[j] == AddHours(tweets[j].createdAt, JstOffsetHours)
    {
      tweetsCreatedAtJst := tweetsCreatedAtJst + [AddHours(tweets[i].createdAt, JstOffsetHours)];
    }
    tweetsDate := seq(|tweetsCreatedAtJst|, i requires 0 <= i < |tweetsCreatedAtJst| => DayOf(tweetsCreatedAtJst[i]));
    forall i | 0 <= i < |tweets|
      ensures tweetsDate[i] == JstDates(tweets)[i]
    {
      assert tweetsCreatedAtJst[i] == AddHours(tweets[i].createdAt, JstOffsetHours);
    }
  }

  /** Counting one more date at its own entry keeps every entry's count equal to its date's occurrences. */
  lemma TallyStep(result: seq<DailyTweetCount>, done: seq<int>, date: int, minDate: int, k: int)
    requires 0 <= k < |result| && result[k].date == date
    requires CountsEachDay(result, done, minDate)
    ensures CountsEachDay(result[k := result[k].(count := result[k].count + 1)], done + [date], minDate)
  {
    forall i | 0 <= i < |result| {
      OccurrencesAppend(done, date, minDate + i);
    }
  }

  /**
   * Lines 26-34: for each date, find its entry and `count++`; a date with no
   * entry would be reported and skipped, which cannot happen when every date
   * lies within the days.
   */
  method CountDates(days: seq<DailyTweetCount>, dates: seq<int>, minDate: int)
    returns (result: seq<DailyTweetCount>, warnings: seq<int>)
    requires forall i :: 0 <= i < |days| ==> days[i] == DailyTweetCount(minDate + i, 0)
    requires TotalCount(days) == 0
    requires forall j :: 0 <= j < |dates| ==> minDate <= dates[j] < minDate + |days|
    ensures |result| == |days|
    ensures CountsEachDay(result, dates, minDate)
    ensures TotalCount(result) == |dates|
    ensures warnings == []
  {
    result, warnings := days, [];
    for j := 0 to |dates|
      invariant |result| == |days|
      invariant CountsEachDay(result, dates[..j], minDate)
      invariant TotalCount(result) == j
      invariant warnings == []
    {
      var tweetDate := dates[j];
      assert dates[..j + 1] == dates[..j] + [tweetDate];
      assert result[tweetDate - minDate].date == tweetDate;
      var k := FindDate(result, tweetDate);
      if k == -1 {
        warnings := warnings + [tweetDate];
        continue;
      }
      TallyStep(result, dates[..j], tweetDate, minDate, k);
      TotalCountUpdate(result, k, result[k].(count := result[k].count + 1));
      result := result[k := result[k].(count := result[k].count + 1)];
    }
    assert dates[..|dates|] == dates;
  }

  // ===========================================================================
  // summarizeDayHourTweetCount

  const WeekdayNames: seq<string> := ["Sun", "Mon", "Tue", "Wed", "Thu", "Fri", "Sat"]

  /** The creation instants of the tweets inside [fromDate, toDate], both ends included, in order. */
  function InWindow(tweets: seq<Tweet>, fromDate: int, toDate: int): (instants: seq<int>)
    ensures |instants| <= |tweets|
    ensures forall i :: 0 <= i < |instants| ==> fromDate <= instants[i] <= toDate
  {
    if tweets == [] then []
    else
      var rest := InWindow(tweets[..|tweets| - 1], fromDate, toDate);
      var date := tweets[|tweets| - 1].createdAt;
      if date < fromDate || date > toDate then rest else rest + [date]
  }

  /** An instant is kept exactly when it is inside the window and some tweet was created then. */
  lemma {:induction false} InWindowMembers(tweets: seq<Tweet>, fromDate: int, toDate: int, x: int)
    ensures x in InWindow(tweets, fromDate, toDate) <==>
      fromDate <= x <= toDate && exists i :: 0 <= i < |tweets| && tweets[i].createdAt == x
  {
    if tweets != [] {
      var init := tweets[..|tweets| - 1];
      InWindowMembers(init, fromDate, toDate, x);
      if fromDate <= x <= toDate && exists i :: 0 <= i < |tweets| && tweets[i].createdAt == x {
        var i :| 0 <= i < |tweets| && tweets[i].createdAt == x;
        if i < |tweets| - 1 {
          assert init[i].createdAt == x;
        }
      }
      if exists i :: 0 <= i < |init| && init[i].createdAt == x {
        var i :| 0 <= i < |init| && init[i].createdAt == x;
        assert tweets[i].createdAt == x;
      }
    }
  }

  /** How many of the instants fall on weekday `day` at hour `hour` (unshifted). */
  function CountAt(instants: seq<int>, day: int, hour: int): nat
  {
    if instants == [] then 0
    else
      var last := instants[|instants| - 1];
      CountAt(instants[..|instants| - 1], day, hour)
        + (if WeekdayOf(last) == day && HourOf(last) == hour then 1 else 0)
  }

  /** No cell object is shared between two positions of the grid. */
  ghost predicate DistinctCells(rows: seq<DailyHourlyTweetCount>)
    reads rows
  {
    forall d, e, h, k ::
      (0 <= d < |rows| && 0 <= e < |rows| && 0 <= h < |rows[d].hours| && 0 <= k < |rows[e].hours|
       && (d != e || h != k)) ==> rows[d].hours[h] != rows[e].hours[k]
  }

  /** Lines 40-47: the creation instants inside the window, in order. */
  method CreatedInWindow(tweets: seq<Tweet>, fromDate: int, toDate: int) returns (tweetsCreated: seq<int>)
    ensures tweetsCreated == InWindow(tweets, fromDate, toDate)
  {
    tweetsCreated := [];
    for i := 0 to |tweets|
      invariant tweetsCreated == InWindow(tweets[..i], fromDate, toDate)
    {
      assert tweets[..i + 1][..i] == tweets[..i];
      var date := tweets[i].createdAt;
      if date < fromDate || date > toDate {
        continue;
      }
      tweetsCreated := tweetsCreated + [date];
    }
    assert tweets[..|tweets|] == tweets;
  }

  /** Lines 49-52: seven new rows Sun..Sat, each of 24 new cells at zero, no cell shared. */
  method NewWeek() returns (result: seq<DailyHourlyTweetCount>)
    ensures |result| == 7 && DistinctCells(result)
    ensures forall d :: 0 <= d < 7 ==>
      fresh(result[d]) && result[d].day == WeekdayNames[d] && |result[d].hours| == 24
    ensures forall d, h :: 0 <= d < 7 && 0 <= h < 24 ==>
      && fresh(result[d].hours[h])
      && result[d].hours[h].day == WeekdayNames[d]
      && result[d].hours[h].hour == h
      && result[d].hours[h].count == 0
  {
    result := [];
    for d := 0 to 7
      invariant |result| == d
      invariant forall e :: 0 <= e < d ==>
        fresh(result[e]) && result[e].day == WeekdayNames[e] && |result[e].hours| == 24
      invariant forall e, h :: 0 <= e < d && 0 <= h < 24 ==>
        && fresh(result[e].hours[h])
        && result[e].hours[h].day == WeekdayNames[e]
        && result[e].hours[h].hour == h
        && result[e].hours[h].count == 0
      invariant DistinctCells(result)
    {
      var row := new DailyHourlyTweetCount(WeekdayNames[d]);
      result := result + [row];
    }
  }

  /**
   * The grid has the shape NewWeek builds, Sun..Sat by 24 hours, and the cell
   * for weekday `d` and hour `h` counts the instants on that weekday at that hour.
   */
  ghost predicate CountsGrid(rows: seq<DailyHourlyTweetCount>, instants: seq<int>)
    reads rows, set d, h | 0 <= d < |rows| && 0 <= h < |rows[d].hours| :: rows[d].hours[h]
  {
    && |rows| == 7
    && (forall d :: 0 <= d < 7 ==> rows[d].day == WeekdayNames[d] && |rows[d].hours| == 24)
    && forall d, h :: 0 <= d < 7 && 0 <= h < 24 ==>
      && rows[d].hours[h].day == WeekdayNames[d]
      && rows[d].hours[h].hour == h
      && rows[d].hours[h].count == CountAt(instants, d, h)
  }

  /** Line 55: one more instant raises its own cell and no other. */
  method TallyInstant(rows: seq<DailyHourlyTweetCount>, x: int, ghost seen: seq<int>)
    requires CountsGrid(rows, seen) && DistinctCells(rows)
    modifies rows[WeekdayOf(x)].hours[HourOf(x)]
    ensures CountsGrid(rows, seen + [x]) && DistinctCells(rows)
  {
    forall d, h | 0 <= d < 7 && 0 <= h < 24
      ensures CountAt(seen + [x], d, h)
        == CountAt(seen, d, h) + (if WeekdayOf(x) == d && HourOf(x) == h then 1 else 0)
    {
      CountAtAppend(seen, x, d, h);
    }
    var cell := rows[WeekdayOf(x)].hours[HourOf(x)];
    cell.count := cell.count + 1;
  }

  /**
   * Seven new rows Sun..Sat of 24 new cells; the cell for weekday `d` and hour
   * `h` counts the in-window tweets created on that weekday at that hour.
   */
  method SummarizeDayHourTweetCount(tweets: seq<Tweet>, fromDate: int, toDate: int)
    returns (result: seq<DailyHourlyTweetCount>)
    ensures CountsGrid(result, InWindow(tweets, fromDate, toDate)) && DistinctCells(result)
    ensures forall d :: 0 <= d < 7 ==> fresh(result[d])
    ensures forall d, h :: 0 <= d < 7 && 0 <= h < 24 ==> fresh(result[d].hours[h])
  {
    var tweetsCreated := CreatedInWindow(tweets, fromDate, toDate);
    result := NewWeek();
    ghost var cells := set d, h | 0 <= d < 7 && 0 <= h < 24 :: result[d].hours[h];
    for j := 0 to |tweetsCreated|
      modifies cells
      invariant CountsGrid(result, tweetsCreated[..j]) && DistinctCells(result)
    {
      PrefixStep(tweetsCreated, j);
      TallyInstant(result, tweetsCreated[j], tweetsCreated[..j]);
    }
    assert tweetsCreated[..|tweetsCreated|] == tweetsCreated;
  }

  lemma PrefixStep(s: seq<int>, j: nat)
    requires j < |s|
    ensures s[..j + 1] == s[..j] + [s[j]]
  {
  }

  /** The cells of weekday `day` for hours below `hours`, added up. */
  function HoursTotal(instants: seq<int>, day: int, hours: nat): nat
  {
    if hours == 0 then 0 else HoursTotal(instants, day, hours - 1) + CountAt(instants, day, hours - 1)
  }

  /** The cells of the weekdays below `days`, all 24 hours each, added up. */
  function GridTotal(instants: seq<int>, days: nat): nat
  {
    if days == 0 then 0 else GridTotal(instants, days - 1) + HoursTotal(instants, days - 1, 24)
  }

  lemma CountAtAppend(instants: seq<int>, x: int, day: int, hour: int)
    ensures CountAt(instants + [x], day, hour)
      == CountAt(instants, day, hour) + (if WeekdayOf(x) == day && HourOf(x) == hour then 1 else 0)
  {
    assert (instants + [x])[..|instants|] == instants;
  }

  lemma {:induction false} HoursTotalAppend(instants: seq<int>, x: int, day: int, hours: nat)
    ensures HoursTotal(instants + [x], day, hours)
      == HoursTotal(instants, day, hours) + (if WeekdayOf(x) == day && HourOf(x) < hours then 1 else 0)
  {
    if hours > 0 {
      HoursTotalAppend(instants, x, day, hours - 1);
      CountAtAppend(instants, x, day, hours - 1);
    }
  }

  lemma {:induction false} GridTotalAppend(instants: seq<int>, x: int, days: nat)
    ensures GridTotal(instants + [x], days) == GridTotal(instants, days) + (if WeekdayOf(x) < days then 1 else 0)
  {
    if days > 0 {
      GridTotalAppend(instants, x, days - 1);
      HoursTotalAppend(instants, x, days - 1, 24);
    }
  }

  lemma {:induction false} GridTotalEmpty(days: nat)
    ensures GridTotal([], days) == 0
  {
    if days > 0 {
      GridTotalEmpty(days - 1);
      HoursTotalEmpty(days - 1, 24);
    }
  }

  lemma {:induction false} HoursTotalEmpty(day: int, hours: nat)
    ensures HoursTotal([], day, hours) == 0
  {
    if hours > 0 {
      HoursTotalEmpty(day, hours - 1);
    }
  }

  /** Every instant lands in exactly one of the 7 x 24 cells. */
  lemma {:induction false} GridTotalIsCount(instants: seq<int>)
    ensures GridTotal(instants, 7) == |instants|
  {
    if instants == [] {
      GridTotalEmpty(7);
    } else {
      var n := |instants| - 1;
      assert instants == instants[..n] + [instants[n]];
      GridTotalIsCount(instants[..n]);
      GridTotalAppend(instants[..n], instants[n], 7);
    }
  }

  /** The weekday/hour cells add up to the number of tweets inside the window. */
  lemma DayHourTotal(tweets: seq<Tweet>, fromDate: int, toDate: int)
    ensures GridTotal(InWindow(tweets, fromDate, toDate), 7) == |InWindow(tweets, fromDate, toDate)|
  {
    GridTotalIsCount(InWindow(tweets, fromDate, toDate));
  }

  // ===========================================================================
  // summarizeReplyCount and summarizeHashtagCount

  /** The `in_reply_to_screen_name` of every tweet that has one, in order. */
  function ReplyTargets(tweets: seq<Tweet>): (names: seq<string>)
    ensures |names| <= |tweets|
  {
    if tweets == [] then []
    else
      var rest := ReplyTargets(tweets[..|tweets| - 1]);
      match tweets[|tweets| - 1].inReplyToScreenName
      case None => rest
      case Some(name) => rest + [name]
  }

  /** A name is a reply target exactly when some tweet replies to it. */
  lemma {:induction false} ReplyTargetsMembers(tweets: seq<Tweet>, name: string)
    ensures name in ReplyTargets(tweets) <==>
      exists i :: 0 <= i < |tweets| && tweets[i].inReplyToScreenName == Some(name)
  {
    if tweets != [] {
      var init := tweets[..|tweets| - 1];
      ReplyTargetsMembers(init, name);
      if exists i :: 0 <= i < |tweets| && tweets[i].inReplyToScreenName == Some(name) {
        var i :| 0 <= i < |tweets| && tweets[i].inReplyToScreenName == Some(name);
        if i < |tweets| - 1 {
          assert init[i].inReplyToScreenName == Some(name);
        }
      }
      if exists i :: 0 <= i < |init| && init[i].inReplyToScreenName == Some(name) {
        var i :| 0 <= i < |init| && init[i].inReplyToScreenName == Some(name);
        assert tweets[i].inReplyToScreenName == Some(name);
      }
    }
  }

  /** The text of every hashtag entry of every tweet, repeats included, in order. */
  function HashtagTexts(tweets: seq<Tweet>): seq<string>
  {
    if tweets == [] then [] else HashtagTexts(tweets[..|tweets| - 1]) + tweets[|tweets| - 1].hashtags
  }

  /** The number of hashtag entries across all tweets. */
  function HashtagEntries(tweets: seq<Tweet>): nat
  {
    if tweets == [] then 0 else HashtagEntries(tweets[..|tweets| - 1]) + |tweets[|tweets| - 1].hashtags|
  }

  lemma {:induction false} HashtagTextsLength(tweets: seq<Tweet>)
    ensures |HashtagTexts(tweets)| == HashtagEntries(tweets)
  {
    if tweets != [] {
      HashtagTextsLength(tweets[..|tweets| - 1]);
    }
  }

  /**
   * One entry per distinct reply target, counting its replies, ranked by count
   * then name; tweets that reply to no one count nowhere.
   */
  method SummarizeReplyCount(tweets: seq<Tweet>) returns (result: seq<RankedCount>)
    ensures Tallies(result, ReplyTargets(tweets))
    ensures Sum(result) == |ReplyTargets(tweets)|
    ensures StrictlyRanked(result)
  {
    var groups: seq<RankedCount> := [];
    for i := 0 to |tweets|
      invariant Tallies(groups, ReplyTargets(tweets[..i]))
      invariant Sum(groups) == |ReplyTargets(tweets[..i])|
    {
      ghost var before := ReplyTargets(tweets[..i]);
      assert tweets[..i + 1][..i] == tweets[..i];
      match tweets[i].inReplyToScreenName {
        case None =>
          assert ReplyTargets(tweets[..i + 1]) == before;
        case Some(name) =>
          assert ReplyTargets(tweets[..i + 1]) == before + [name];
          groups := Bump(groups, name, before);
      }
    }
    assert tweets[..|tweets|] == tweets;
    result := Rank(groups);
    TalliesPermutation(groups, result, ReplyTargets(tweets));
    RankedDistinctIsStrict(result);
  }

  /** Lines 104-112: `Bump` for each hashtag entry of one tweet, in order. */
  method BumpAll(groups: seq<RankedCount>, hashtags: seq<string>, ghost keys: seq<string>)
    returns (next: seq<RankedCount>)
    requires Tallies(groups, keys) && Sum(groups) == |keys|
    ensures Tallies(next, keys + hashtags) && Sum(next) == |keys + hashtags|
  {
    next := groups;
    assert keys + hashtags[..0] == keys;
    for j := 0 to |hashtags|
      invariant Tallies(next, keys + hashtags[..j])
      invariant Sum(next) == |keys + hashtags[..j]|
    {
      assert keys + hashtags[..j + 1] == keys + hashtags[..j] + [hashtags[j]];
      next := Bump(next, hashtags[j], keys + hashtags[..j]);
    }
    assert hashtags[..|hashtags|] == hashtags;
  }

  /**
   * One entry per distinct hashtag text, counting every entry (a tag repeated
   * inside one tweet counts twice), ranked by count then text.
   */
  method SummarizeHashtagCount(tweets: seq<Tweet>) returns (result: seq<RankedCount>)
    ensures Tallies(result, HashtagTexts(tweets))
    ensures Sum(result) == HashtagEntries(tweets)
    ensures StrictlyRanked(result)
  {
    var groups: seq<RankedCount> := [];
    for i := 0 to |tweets|
      invariant Tallies(groups, HashtagTexts(tweets[..i]))
      invariant Sum(groups) == |HashtagTexts(tweets[..i])|
    {
      assert tweets[..i + 1][..i] == tweets[..i];
      assert HashtagTexts(tweets[..i + 1]) == HashtagTexts(tweets[..i]) + tweets[i].hashtags;
      groups := BumpAll(groups, tweets[i].hashtags, HashtagTexts(tweets[..i]));
    }
    assert tweets[..|tweets|] == tweets;
    HashtagTextsLength(tweets);
    result := Rank(groups);
    TalliesPermutation(groups, result, HashtagTexts(tweets));
    RankedDistinctIsStrict(result);
  }
}
