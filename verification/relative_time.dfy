/**
 * "How long ago" labels, shared by the snippet cards (components/RecentSnippets.tsx), the
 * branch list (components/SearchBar/components/BranchDropdown.tsx) and the time pill
 * (components/Card/ui/TimePill.tsx). Each takes one millisecond difference `diff` and
 * floors it to whole minutes, hours and days.
 */
module RelativeTime {
  import opened Strings

  const MinuteMs: int := 1000 * 60
  const HourMs: int := 1000 * 60 * 60
  const DayMs: int := 1000 * 60 * 60 * 24

  /**
   * `Math.floor(a / b)` for a positive divisor. Dafny's `/` is Euclidean, which for a
   * positive divisor rounds toward negative infinity as `Math.floor` does.
   */
  function FloorDiv(a: int, b: int): (q: int)
    requires b > 0
    ensures q * b <= a < q * b + b
  {
    a / b
  }

  lemma MulLe(x: int, y: int, k: int)
    requires x <= y && k > 0
    ensures x * k <= y * k
  {
    assert y * k - x * k == (y - x) * k;
  }

  /** Floors of ordered differences are ordered. */
  lemma FloorsOrdered(x: int, y: int, k: int, d1: int, d2: int)
    requires k > 0 && x * k <= d1 <= d2 < (y + 1) * k
    ensures x <= y
  {
    if x > y {
      MulLe(y + 1, x, k);
    }
  }

  /** A label's content, before it is rendered as text. */
  datatype Age = JustNow | MinutesAgo(minutes: int) | HoursAgo(hours: int) | DaysAgo(days: int) | OnDate

  /**
   * The order shared by the branch list and the time pill: whole days if any, else whole
   * hours, else whole minutes, else "just now".
   */
  function CoarsestFirst(diff: int): (age: Age)
    ensures diff < MinuteMs ==> age == JustNow
    ensures MinuteMs <= diff < HourMs ==>
      && age.MinutesAgo? && 1 <= age.minutes < 60
      && age.minutes * MinuteMs <= diff < (age.minutes + 1) * MinuteMs
    ensures HourMs <= diff < DayMs ==>
      && age.HoursAgo? && 1 <= age.hours < 24
      && age.hours * HourMs <= diff < (age.hours + 1) * HourMs
    ensures DayMs <= diff ==>
      && age.DaysAgo? && 1 <= age.days
      && age.days * DayMs <= diff < (age.days + 1) * DayMs
  {
    var minutes := FloorDiv(diff, MinuteMs);
    var hours := FloorDiv(diff, HourMs);
    var days := FloorDiv(diff, DayMs);
    if days > 0 then DaysAgo(days)
    else if hours > 0 then HoursAgo(hours)
    else if minutes > 0 then MinutesAgo(minutes)
    else JustNow
  }

  /**
   * The order of the snippet cards: "just now" under a minute, else minutes under an hour,
   * else hours under a day, else days.
   */
  function FinestFirst(diff: int): (age: Age)
    ensures age != OnDate
  {
    var minutes := FloorDiv(diff, MinuteMs);
    var hours := FloorDiv(diff, HourMs);
    var days := FloorDiv(diff, DayMs);
    if minutes < 1 then JustNow
    else if minutes < 60 then MinutesAgo(minutes)
    else if hours < 24 then HoursAgo(hours)
    else DaysAgo(days)
  }

  /** Testing the finest unit first or the coarsest unit first gives the same label. */
  lemma FinestFirstIsCoarsestFirst(diff: int)
    ensures FinestFirst(diff) == CoarsestFirst(diff)
  {
    var minutes := FloorDiv(diff, MinuteMs);
    var hours := FloorDiv(diff, HourMs);
    if diff < MinuteMs {
      assert minutes < 1;
    } else if diff < HourMs {
      assert 1 <= minutes < 60;
    } else if diff < DayMs {
      assert 60 <= minutes;
      assert hours < 24;
    } else {
      assert 60 <= minutes;
      assert 24 <= hours;
    }
  }

  /** Labels ordered from newest to oldest. */
  function Rank(age: Age): (r: int)
    ensures 0 <= r <= 4
  {
    match age
    case JustNow => 0
    case MinutesAgo(_) => 1
    case HoursAgo(_) => 2
    case DaysAgo(_) => 3
    case OnDate => 4
  }

  predicate NoOlder(a: Age, b: Age) {
    Rank(a) < Rank(b)
    || (a.MinutesAgo? && b.MinutesAgo? && a.minutes <= b.minutes)
    || (a.HoursAgo? && b.HoursAgo? && a.hours <= b.hours)
    || (a.DaysAgo? && b.DaysAgo? && a.days <= b.days)
    || a == b
  }

  /** A later moment never shows a newer label: the label only ages. */
  lemma CoarsestFirstMonotone(d1: int, d2: int)
    requires d1 <= d2
    ensures NoOlder(CoarsestFirst(d1), CoarsestFirst(d2))
  {
    var a, b := CoarsestFirst(d1), CoarsestFirst(d2);
    if a.MinutesAgo? && b.MinutesAgo? {
      FloorsOrdered(a.minutes, b.minutes, MinuteMs, d1, d2);
    } else if a.HoursAgo? && b.HoursAgo? {
      FloorsOrdered(a.hours, b.hours, HourMs, d1, d2);
    } else if a.DaysAgo? && b.DaysAgo? {
      FloorsOrdered(a.days, b.days, DayMs, d1, d2);
    }
  }

  /** A label as text; `justNow` is the component's wording and `date` its locale date string. */
  function Render(age: Age, justNow: string, date: string): (text: string)
    ensures age.JustNow? ==> text == justNow
    ensures age.OnDate? ==> text == date
    ensures age.MinutesAgo? ==> text == IntToString(age.minutes) + "m ago"
    ensures age.HoursAgo? ==> text == IntToString(age.hours) + "h ago"
    ensures age.DaysAgo? ==> text == IntToString(age.days) + "d ago"
  {
    match age
    case JustNow => justNow
    case MinutesAgo(m) => IntToString(m) + "m ago"
    case HoursAgo(h) => IntToString(h) + "h ago"
    case DaysAgo(d) => IntToString(d) + "d ago"
    case OnDate => date
  }
}
