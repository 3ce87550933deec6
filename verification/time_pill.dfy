/**
 * The "time ago" pill (components/Card/ui/TimePill.tsx). `new Date()`, `setMonth` and
 * `toLocaleDateString()` are left to the caller: `now` is the clock, `oneMonthAgo` the
 * moment one calendar month before it, `localeDate` the rendered date.
 */
module TimePill {
  import opened RelativeTime
  import BranchDropdown

  /** `formatRelativeTime(timestamp)`: the locale date before the one-month cutoff, else "... ago" or "just now". */
  function FormatRelativeTime(now: int, timestamp: int, oneMonthAgo: int, localeDate: string): (text: string)
    ensures timestamp < oneMonthAgo ==> text == localeDate
    ensures timestamp >= oneMonthAgo ==> text == Render(CoarsestFirst(now - timestamp), "just now", localeDate)
  {
    if timestamp < oneMonthAgo then localeDate
    else Render(CoarsestFirst(now - timestamp), "just now", localeDate)
  }

  /**
   * Within a month of `now` and under thirty-one days the pill and the branch list show the
   * same text; a month is at most thirty-one days, so they can differ only in how they
   * switch to the date.
   */
  lemma PillAgreesWithBranchList(now: int, timestamp: int, oneMonthAgo: int, localeDate: string)
    requires timestamp >= oneMonthAgo && now - timestamp < 31 * DayMs
    ensures FormatRelativeTime(now, timestamp, oneMonthAgo, localeDate)
         == BranchDropdown.FormatRelativeTime(now, timestamp, localeDate)
  {
  }

  /** Sub-minute and future timestamps after the cutoff read "just now". */
  lemma RecentIsJustNow(now: int, timestamp: int, oneMonthAgo: int, localeDate: string)
    requires timestamp >= oneMonthAgo && now - timestamp < MinuteMs
    ensures FormatRelativeTime(now, timestamp, oneMonthAgo, localeDate) == "just now"
  {
  }
}
