/**
 * The cells of the weekday/hour histogram (hourlyTweetCount.ts) and the row
 * of 24 cells for one weekday (daylyHourlyTweetCount.ts). summarize.ts
 * increments the cells' `count` in place.
 */
module TweetCounts {

  class HourlyTweetCount {
    var day: string
    var hour: int
    var count: int
    // No `color` field: htmlConverter.ts only adds one to its own copy.

    constructor (day: string, hour: int)
      ensures this.day == day && this.hour == hour && this.count == 0
    {
      this.day := day;
      this.hour := hour;
      this.count := 0;
    }
  }

  class DailyHourlyTweetCount {
    var day: string
    var hours: seq<HourlyTweetCount>

    /** Builds the row for `day`: 24 new cells, for hours 0 to 23 in order, all at zero. */
    constructor (day: string)
      ensures this.day == day
      ensures |hours| == 24
      ensures forall h :: 0 <= h < 24 ==>
        fresh(hours[h]) && hours[h].day == day && hours[h].hour == h && hours[h].count == 0
      ensures forall h, k :: 0 <= h < k < 24 ==> hours[h] != hours[k]
    {
      this.day := day;
      this.hours := [];
      new;
      for hour := 0 to 24
        invariant this.day == day
        invariant |hours| == hour
        invariant forall h :: 0 <= h < hour ==>
          fresh(hours[h]) && hours[h].day == day && hours[h].hour == h && hours[h].count == 0
        invariant forall h, k :: 0 <= h < k < hour ==> hours[h] != hours[k]
      {
        var cell := new HourlyTweetCount(day, hour);
        hours := hours + [cell];
      }
    }
  }
}
