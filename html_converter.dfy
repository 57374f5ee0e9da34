/**
 * htmlConverter.ts: the data behind the two charts of the report, a 31-day
 * bar chart and a weekday/hour heat map.
 */
module HtmlConverter {
  import opened Wrappers
  import opened Dates
  import opened SeqOps
  import opened TweetCounts
  import opened Summarize

  // ===========================================================================
  // convertDailyTweetCount

  /** How many days before the last one the bar chart starts. */
  const ChartDaysBefore := 30
  /** The height of the tallest bar. */
  const MaxHeight := 185

  /** One bar: the day-of-month label (`label` in the source), the count, and the height once scaled (`None` while unset, or when the scale is 0/0). */
  datatype Bar = Bar(labelText: string, count: int, height: Option<int>)

  datatype DailyChart = DailyChart(data: seq<Bar>, verticalLabels: seq<int>)

  /** The count of the first record for `date`, 0 when there is none. */
  function CountOn(records: seq<DailyTweetCount>, date: int): (n: int)
    ensures (forall j :: 0 <= j < |records| ==> records[j].date != date) ==> n == 0
    ensures forall k :: (0 <= k < |records| && records[k].date == date
      && forall j :: 0 <= j < k ==> records[j].date != date) ==> n == records[k].count
  {
    if records == [] then 0
    else if records[0].date == date then records[0].count
    else
      assert forall k :: 1 <= k < |records| ==> records[k] == records[1..][k - 1];
      CountOn(records[1..], date)
  }

  /**
   * `Math.round(p / q)`: the integer nearest to p/q, halves rounded up.
   */
  function RoundHalfUp(p: int, q: int): int
    requires q != 0
  {
    if q > 0 then (2 * p + q) / (2 * q) else (-2 * p - q) / (-2 * q)
  }

  /** `RoundHalfUp(p, q)` is within a half of p/q, and a tie goes to the larger neighbour. */
  lemma RoundsToNearest(p: int, q: int)
    requires q != 0
    ensures var r := RoundHalfUp(p, q);
      && (q > 0 ==> q * (2 * r - 1) <= 2 * p < q * (2 * r + 1))
      && (q < 0 ==> q * (2 * r + 1) < 2 * p <= q * (2 * r - 1))
  {
  }

  /** Line 30: the count scaled to 185 against the largest count, rounded; a zero largest count gives no finite height. */
  function HeightOf(count: int, maxCount: int): Option<int>
  {
    if maxCount == 0 then None else Some(RoundHalfUp(MaxHeight * count, maxCount))
  }

  /** A bar no taller than the tallest is scaled to at most 185, and the tallest to exactly 185. */
  lemma HeightBounds(count: int, maxCount: int)
    requires 0 <= count <= maxCount && maxCount > 0
    ensures HeightOf(count, maxCount).Some?
    ensures 0 <= HeightOf(count, maxCount).value <= MaxHeight
    ensures count == maxCount ==> HeightOf(count, maxCount).value == MaxHeight
  {
    var r := HeightOf(count, maxCount).value;
    RoundsToNearest(MaxHeight * count, maxCount);
    if r > MaxHeight {
      MulMonotone(maxCount, 2 * MaxHeight + 1, 2 * r - 1);
    }
    if r < 0 {
      MulMonotone(maxCount, 2 * r + 1, -1);
    }
    if count == maxCount && r < MaxHeight {
      MulMonotone(maxCount, 2 * r + 1, 2 * MaxHeight - 1);
    }
  }

  lemma MulMonotone(d: int, a: int, b: int)
    requires d > 0 && a <= b
    ensures d * a <= d * b
  {
    assert d * b - d * a == d * (b - a);
  }

  /** The middle vertical label is half the largest count, rounded up. */
  lemma HalfLabel(maxCount: int)
    ensures 2 * RoundHalfUp(maxCount, 2) == maxCount || 2 * RoundHalfUp(maxCount, 2) == maxCount + 1
  {
    RoundsToNearest(maxCount, 2);
  }

  function BarCounts(bars: seq<Bar>): (counts: seq<int>)
    ensures |counts| == |bars|
    ensures forall i :: 0 <= i < |bars| ==> counts[i] == bars[i].count
  {
    seq(|bars|, i requires 0 <= i < |bars| => bars[i].count)
  }

  /**
   * The 31 days ending at the last record's date, each labelled with its day
   * of month and carrying its record's count (0 without one), heights scaled
   * so that the largest count is 185 tall; vertical labels 0, half and the
   * largest count.
   */
  method ConvertDailyTweetCount(dailyTweetCount: seq<DailyTweetCount>) returns (chart: DailyChart)
    requires |dailyTweetCount| > 0
    ensures |chart.data| == ChartDaysBefore + 1
    ensures LabelsDays(chart.data, dailyTweetCount, FirstChartDay(dailyTweetCount))
    ensures ScaledTo(chart.data, Max(BarCounts(chart.data)))
    ensures chart.verticalLabels == [0, RoundHalfUp(Max(BarCounts(chart.data)), 2), Max(BarCounts(chart.data))]
  {
    var maxDate := dailyTweetCount[|dailyTweetCount| - 1].date;
    var minDate := FirstChartDay(dailyTweetCount);
    var bars := DayBars(dailyTweetCount, minDate, maxDate);
    var maxCount := Max(BarCounts(bars));
    var halfCount := RoundHalfUp(maxCount, 2);
    var result := ScaleBars(bars, maxCount);
    LabelsKept(bars, result, dailyTweetCount, minDate);
    assert Max(BarCounts(result)) == maxCount;
    chart := DailyChart(result, [0, halfCount, maxCount]);
  }

  /** The first day of the chart: 30 days before the last record's date. */
  function FirstChartDay(records: seq<DailyTweetCount>): (day: int)
    requires |records| > 0
    ensures day + ChartDaysBefore == records[|records| - 1].date
  {
    records[|records| - 1].date - ChartDaysBefore
  }

  /** Bar `i` is labelled with day `minDate + i` and carries its count. */
  ghost predicate LabelsDays(bars: seq<Bar>, records: seq<DailyTweetCount>, minDate: int)
  {
    forall i :: 0 <= i < |bars| ==>
      bars[i].labelText == DayLabel(minDate + i) && bars[i].count == CountOn(records, minDate + i)
  }

  /** Setting heights keeps every label and count. */
  lemma LabelsKept(bars: seq<Bar>, scaled: seq<Bar>, records: seq<DailyTweetCount>, minDate: int)
    requires LabelsDays(bars, records, minDate)
    requires BarCounts(scaled) == BarCounts(bars)
    requires |scaled| == |bars| && forall i :: 0 <= i < |bars| ==> scaled[i].labelText == bars[i].labelText
    ensures LabelsDays(scaled, records, minDate)
  {
    forall i | 0 <= i < |bars|
      ensures scaled[i].count == bars[i].count
    {
      assert BarCounts(scaled)[i] == BarCounts(bars)[i];
    }
  }

  /** Every bar has its height against `maxCount`. */
  ghost predicate ScaledTo(bars: seq<Bar>, maxCount: int)
  {
    forall i :: 0 <= i < |bars| ==> bars[i].height == HeightOf(bars[i].count, maxCount)
  }

  /** Lines 10-23: one unscaled bar per day from `minDate` to `maxDate`. */
  method DayBars(dailyTweetCount: seq<DailyTweetCount>, minDate: int, maxDate: int) returns (result: seq<Bar>)
    requires minDate <= maxDate
    ensures |result| == maxDate - minDate + 1
    ensures LabelsDays(result, dailyTweetCount, minDate)
    ensures forall i :: 0 <= i < |result| ==> result[i].height.None?
  {
    result := [];
    for day := minDate to maxDate + 1
      invariant |result| == day - minDate
      invariant forall i :: 0 <= i < |result| ==>
        result[i] == Bar(DayLabel(minDate + i), CountOn(dailyTweetCount, minDate + i), None)
    {
      var k := FindDate(dailyTweetCount, day);
      if k == -1 {
        result := result + [Bar(DayLabel(day), 0, None)];
      } else {
        result := result + [Bar(DayLabel(dailyTweetCount[k].date), dailyTweetCount[k].count, None)];
      }
    }
  }

  /** Lines 28-31: every bar given its height against `maxCount`, nothing else changed. */
  method ScaleBars(bars: seq<Bar>, maxCount: int) returns (result: seq<Bar>)
    ensures |result| == |bars|
    ensures forall i :: 0 <= i < |bars| ==>
      result[i] == bars[i].(height := HeightOf(bars[i].count, maxCount))
    ensures BarCounts(result) == BarCounts(bars)
    ensures ScaledTo(result, maxCount)
  {
    result := bars;
    for i := 0 to |bars|
      invariant |result| == |bars|
      invariant forall j :: 0 <= j < i ==> result[j] == bars[j].(height := HeightOf(bars[j].count, maxCount))
      invariant forall j :: i <= j < |bars| ==> result[j] == bars[j]
    {
      result := result[i := result[i].(height := HeightOf(result[i].count, maxCount))];
    }
  }

  /**
   * Charting a daily summary: every bar counts the tweets of its day, whether
   * or not the day lies inside the summary.
   */
  lemma CountOnSummary(records: seq<DailyTweetCount>, dates: seq<int>, minDate: int, day: int)
    requires CountsEachDay(records, dates, minDate)
    requires forall j :: 0 <= j < |dates| ==> minDate <= dates[j] < minDate + |records|
    ensures CountOn(records, day) == Occurrences(dates, day)
  {
    if minDate <= day < minDate + |records| {
      assert records[day - minDate].date == day;
    } else {
      assert day !in dates;
    }
  }

  // ===========================================================================
  // convertDayHourTweetCount

  const Darkest := "#196127"
  const Dark := "#239a3b"
  const Medium := "#7bc96f"
  const Light := "#c6e48b"
  const Blank := "#ebedf0"

  /** The shades from no tweet to many, and the count each one starts at. */
  const Palette: seq<string> := [Blank, Light, Medium, Dark, Darkest]
  const Thresholds: seq<int> := [1, 10, 20, 30]

  /** How many of the thresholds a count reaches. */
  function Reached(thresholds: seq<int>, count: int): (n: nat)
    ensures n <= |thresholds|
  {
    if thresholds == [] then 0
    else (if thresholds[0] <= count then 1 else 0) + Reached(thresholds[1..], count)
  }

  /** A larger count never reaches fewer thresholds. */
  lemma {:induction false} ReachedMonotone(thresholds: seq<int>, a: int, b: int)
    requires a <= b
    ensures Reached(thresholds, a) <= Reached(thresholds, b)
  {
    if thresholds != [] {
      ReachedMonotone(thresholds[1..], a, b);
    }
  }

  /** Lines 44-59 as intended: the shade for a cell's count; blank exactly for an empty cell. */
  function CellColor(count: int): (color: string)
    ensures color in Palette
    ensures color == Blank <==> count < 1
  {
    if count >= 30 then Darkest
    else if count >= 20 then Dark
    else if count >= 10 then Medium
    else if count >= 1 then Light
    else Blank
  }

  /** The shade is the palette entry for the number of thresholds the count reaches. */
  lemma CellColorByLevel(count: int)
    ensures CellColor(count) == Palette[Reached(Thresholds, count)]
  {
    var t3: seq<int> := [30];
    var t2: seq<int> := [20, 30];
    var t1: seq<int> := [10, 20, 30];
    assert t3[1..] == [];
    assert t2[1..] == t3;
    assert t1[1..] == t2;
    assert Thresholds[1..] == t1;
    assert Reached(t3, count) == if count >= 30 then 1 else 0;
    assert Reached(t2, count) == (if count >= 20 then 1 else 0) + Reached(t3, count);
    assert Reached(t1, count) == (if count >= 10 then 1 else 0) + Reached(t2, count);
    assert Reached(Thresholds, count) == (if count >= 1 then 1 else 0) + Reached(t1, count);
  }

  /** Busier cells are never drawn in a lighter shade. */
  lemma ShadeNeverLighter(a: int, b: int)
    requires a <= b
    ensures exists i, j :: 0 <= i <= j < |Palette| && CellColor(a) == Palette[i] && CellColor(b) == Palette[j]
  {
    ReachedMonotone(Thresholds, a, b);
    CellColorByLevel(a);
    CellColorByLevel(b);
    var i, j := Reached(Thresholds, a), Reached(Thresholds, b);
    assert CellColor(a) == Palette[i] && CellColor(b) == Palette[j];
  }

  /**
   * Lines 44-59 as written: line 51 tests the cell's `color`, which is still
   * undefined when it is read, and `undefined >= 10` is false, so that branch
   * is never taken.
   */
  function CellColorAsWritten(count: int): (color: string)
    ensures color in Palette
    ensures color == Blank <==> count < 1
  {
    if count >= 30 then Darkest
    else if count >= 20 then Dark
    else if false then Medium
    else if count >= 1 then Light
    else Blank
  }

  /**
   * A cell with 15 tweets should take the third shade, but as written takes
   * the second: every count from 1 to 19 gets the lightest non-blank shade,
   * and the third shade is never used. Elsewhere the two agree.
   */
  lemma MediumShadeUnreachable(count: int)
    ensures CellColor(15) == Medium && CellColorAsWritten(15) == Light
    ensures CellColorAsWritten(count) != Medium
    ensures 1 <= count < 20 ==> CellColorAsWritten(count) == Light
    ensures count < 10 || count >= 20 ==> CellColorAsWritten(count) == CellColor(count)
  {
  }

  /** As written too, busier cells are never drawn in a lighter shade. */
  lemma ShadeNeverLighterAsWritten(a: int, b: int)
    requires a <= b
    ensures exists i, j :: 0 <= i <= j < |Palette| && CellColorAsWritten(a) == Palette[i] && CellColorAsWritten(b) == Palette[j]
  {
    var i := if a >= 30 then 4 else if a >= 20 then 3 else if a >= 1 then 1 else 0;
    var j := if b >= 30 then 4 else if b >= 20 then 3 else if b >= 1 then 1 else 0;
    assert CellColorAsWritten(a) == Palette[i] && CellColorAsWritten(b) == Palette[j];
  }

  /** A copy of one cell with its colour. */
  datatype ColoredCell = ColoredCell(day: string, hour: int, count: int, color: string)

  /** A copy of one weekday row. */
  datatype ColoredRow = ColoredRow(day: string, hours: seq<ColoredCell>)

  /**
   * Line 40 and lines 42-63: a deep copy of the grid, each copied cell given
   * the colour lines 44-59 compute for its count, as written.
   */
  method ConvertDayHourTweetCount(dayHourTweetCount: seq<DailyHourlyTweetCount>) returns (result: seq<ColoredRow>)
    ensures |result| == |dayHourTweetCount|
    ensures forall d :: 0 <= d < |result| ==>
      result[d].day == dayHourTweetCount[d].day && |result[d].hours| == |dayHourTweetCount[d].hours|
    ensures forall d, h :: 0 <= d < |result| && 0 <= h < |result[d].hours| ==>
      var cell := dayHourTweetCount[d].hours[h];
      result[d].hours[h] == ColoredCell(cell.day, cell.hour, cell.count, CellColorAsWritten(cell.count))
  {
    result := [];
    for d := 0 to |dayHourTweetCount|
      invariant |result| == d
      invariant forall e :: 0 <= e < d ==>
        result[e].day == dayHourTweetCount[e].day && |result[e].hours| == |dayHourTweetCount[e].hours|
      invariant forall e, h :: 0 <= e < d && 0 <= h < |result[e].hours| ==>
        var cell := dayHourTweetCount[e].hours[h];
        result[e].hours[h] == ColoredCell(cell.day, cell.hour, cell.count, CellColorAsWritten(cell.count))
    {
      var outer := dayHourTweetCount[d];
      var hours := ColorRow(outer.hours);
      result := result + [ColoredRow(outer.day, hours)];
    }
  }

  /** Lines 43-62 for one row. */
  method ColorRow(cells: seq<HourlyTweetCount>) returns (hours: seq<ColoredCell>)
    ensures |hours| == |cells|
    ensures forall h :: 0 <= h < |cells| ==>
      hours[h] == ColoredCell(cells[h].day, cells[h].hour, cells[h].count, CellColorAsWritten(cells[h].count))
  {
    hours := [];
    for h := 0 to |cells|
      invariant |hours| == h
      invariant forall k :: 0 <= k < h ==>
        hours[k] == ColoredCell(cells[k].day, cells[k].hour, cells[k].count, CellColorAsWritten(cells[k].count))
    {
      var inner := cells[h];
      hours := hours + [ColoredCell(inner.day, inner.hour, inner.count, CellColorAsWritten(inner.count))];
    }
  }
}
