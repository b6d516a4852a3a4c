/** Display labels shared by the Article and Category virtuals: the
    "time ago" buckets (src/models/Article/virtuals.js,
    src/models/Category/virtuals.js), count labels and status labels. */
module Labels {
  import opened Wrappers
  import opened Js

  /** Milliseconds in a minute, an hour, a day, 30 days and 365 days. */
  const MinuteMs := 60000
  const HourMs := 3600000
  const DayMs := 86400000
  const MonthMs := 2592000000
  const YearMs := 31536000000

  /** The bucket an elapsed time falls in. */
  datatype Ago = JustNow | MinutesAgo(n: int) | HoursAgo(n: int) | DaysAgo(n: int)
               | MonthsAgo(n: int) | YearsAgo(n: int)

  /** The bucket chosen by the `...TimeAgo` virtuals for an elapsed time in
      milliseconds (`now - date`, which is negative for a date in the
      future).  Whole days decide first; within the first day whole hours,
      and within the first hour whole minutes. */
  function TimeAgo(elapsedMs: int): (r: Ago)
    ensures r.JustNow? <==> 0 <= elapsedMs < 2 * MinuteMs
    ensures r.MinutesAgo? ==> 2 <= r.n <= 59 && r.n * MinuteMs <= elapsedMs < (r.n + 1) * MinuteMs
    ensures r.HoursAgo? ==> 1 <= r.n <= 23 && r.n * HourMs <= elapsedMs < (r.n + 1) * HourMs
    ensures r.DaysAgo? ==> r.n != 0 && r.n < 30 && r.n * DayMs <= elapsedMs < (r.n + 1) * DayMs
    ensures r.MonthsAgo? ==> 1 <= r.n <= 12 && MonthMs <= elapsedMs < YearMs &&
                             r.n * MonthMs <= elapsedMs < (r.n + 1) * MonthMs
    ensures r.YearsAgo? ==> r.n >= 1 && YearMs <= elapsedMs &&
                            r.n * YearMs <= elapsedMs < (r.n + 1) * YearMs
    ensures elapsedMs < 0 ==> r.DaysAgo?
  {
    var days := elapsedMs / DayMs;
    if days == 0 then
      var hours := elapsedMs / HourMs;
      if hours == 0 then
        var minutes := elapsedMs / MinuteMs;
        if minutes <= 1 then JustNow else MinutesAgo(minutes)
      else HoursAgo(hours)
    else if days < 30 then DaysAgo(days)
    else if days < 365 then MonthsAgo(days / 30)
    else YearsAgo(days / 365)
  }

  /** The text of a bucket.  The sources spell out the singular forms
      ('1 giờ trước', '1 ngày trước', ...) separately, but they coincide with
      the general template for n = 1. */
  function AgoText(a: Ago): string {
    match a
    case JustNow => "Vừa xong"
    case MinutesAgo(n) => IntToString(n) + " phút trước"
    case HoursAgo(n) => IntToString(n) + " giờ trước"
    case DaysAgo(n) => IntToString(n) + " ngày trước"
    case MonthsAgo(n) => IntToString(n) + " tháng trước"
    case YearsAgo(n) => IntToString(n) + " năm trước"
  }

  /** `publishedTimeAgo`, `createdTimeAgo`, `updatedTimeAgo`: null for an
      unset date. */
  function TimeAgoLabel(date: Option<int>, now: int): (r: Option<string>)
    ensures r.None? <==> date.None?
  {
    if date.None? then None else Some(AgoText(TimeAgo(now - date.value)))
  }

  /** The buckets follow elapsed time: a later moment never lands in an
      earlier kind of bucket. */
  lemma TimeAgoOrdered(e1: int, e2: int)
    requires 0 <= e1 <= e2
    ensures Rank(TimeAgo(e1)) <= Rank(TimeAgo(e2))
  {
  }

  function Rank(a: Ago): nat {
    match a
    case JustNow => 0
    case MinutesAgo(_) => 1
    case HoursAgo(_) => 2
    case DaysAgo(_) => 3
    case MonthsAgo(_) => 4
    case YearsAgo(_) => 5
  }

  /** A label for a count: a fixed text for zero, else the number and a
      unit (`commentCountDisplay`, `articleCountDisplay`,
      `readingTimeDisplay`).  The sources' special case for one coincides
      with the general template. */
  function CountLabel(n: int, zeroText: string, unit: string): (r: string)
    ensures n == 0 ==> r == zeroText
    ensures n != 0 ==> StartsWith(r, IntToString(n)) && EndsWith(r, unit)
  {
    if n == 0 then zeroText else IntToString(n) + unit
  }

  /** Different counts get different labels, provided the zero text cannot
      be mistaken for a number. */
  lemma CountLabelInjective(a: int, b: int, zeroText: string, unit: string)
    requires zeroText != [] && !IsDigit(zeroText[0]) && zeroText[0] != '-'
    requires CountLabel(a, zeroText, unit) == CountLabel(b, zeroText, unit)
    ensures a == b
  {
    if a != 0 && b != 0 {
      var x, y := IntToString(a), IntToString(b);
      assert |x| == |y|;
      assert x == (x + unit)[..|x|] && y == (y + unit)[..|y|];
      IntToStringInjective(a, b);
    } else if a != 0 {
      assert IntToString(a)[0] == CountLabel(a, zeroText, unit)[0];
      IntToStringFirst(a);
    } else if b != 0 {
      assert IntToString(b)[0] == CountLabel(b, zeroText, unit)[0];
      IntToStringFirst(b);
    }
  }

  lemma IntToStringFirst(n: int)
    ensures IsDigit(IntToString(n)[0]) || IntToString(n)[0] == '-'
  {
  }

  /** A lookup of a status in a fixed label table, returning an unknown
      status unchanged (`statusDisplay`, `roleDisplay`). */
  function StatusLabel(table: map<string, string>, status: string): (r: string)
    ensures status in table && table[status] != "" ==> r == table[status]
    ensures status !in table ==> r == status
  {
    if status in table && table[status] != "" then table[status] else status
  }
}
