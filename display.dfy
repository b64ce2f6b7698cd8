/** Display rules shared by several views: the relative time of a row
    (components/notification-bell.tsx and app/dms/page.tsx define the same
    formatTime) and the fallbacks for a missing or blank value. */
module Display {
  import opened Common

  const MinuteMs := 60000
  const HourMs := 3600000
  const DayMs := 86400000

  /** The buckets of formatTime; past a week the date itself is shown. */
  datatype Ago = JustNow | MinutesAgo(n: nat) | HoursAgo(n: nat) | DaysAgo(n: nat) | OnDate

  /** formatTime on the difference `now - createdAt` in milliseconds, with
      minutes, hours and days taken by floor division. A row from the future
      (a negative difference) is "Just now". */
  function TimeAgo(diffMs: int): (r: Ago)
    ensures r == JustNow <==> diffMs < MinuteMs
    ensures r.MinutesAgo? <==> MinuteMs <= diffMs < HourMs
    ensures r.HoursAgo? <==> HourMs <= diffMs < DayMs
    ensures r.DaysAgo? <==> DayMs <= diffMs < 7 * DayMs
    ensures r == OnDate <==> diffMs >= 7 * DayMs
    ensures r.MinutesAgo? ==> 1 <= r.n < 60 && r.n * MinuteMs <= diffMs < (r.n + 1) * MinuteMs
    ensures r.HoursAgo? ==> 1 <= r.n < 24 && r.n * HourMs <= diffMs < (r.n + 1) * HourMs
    ensures r.DaysAgo? ==> 1 <= r.n < 7 && r.n * DayMs <= diffMs < (r.n + 1) * DayMs
  {
    var minutes := diffMs / MinuteMs;
    var hours := diffMs / HourMs;
    var days := diffMs / DayMs;
    if minutes < 1 then JustNow
    else if minutes < 60 then MinutesAgo(minutes)
    else if hours < 24 then HoursAgo(hours)
    else if days < 7 then DaysAgo(days)
    else OnDate
  }

  /** The text of a bucket; the date past a week is locale formatting and
      is not modelled. */
  function AgoText(a: Ago): (r: Option<string>)
    ensures r.None? <==> a.OnDate?
    ensures a.JustNow? ==> r == Some("Just now")
    ensures a.MinutesAgo? ==> r.value == NatToString(a.n) + "m ago"
    ensures a.HoursAgo? ==> r.value == NatToString(a.n) + "h ago"
    ensures a.DaysAgo? ==> r.value == NatToString(a.n) + "d ago"
  {
    match a
    case JustNow => Some("Just now")
    case MinutesAgo(n) => Some(NatToString(n) + "m ago")
    case HoursAgo(n) => Some(NatToString(n) + "h ago")
    case DaysAgo(n) => Some(NatToString(n) + "d ago")
    case OnDate => None
  }

  /** The number in a bucket's text reads back as the bucket's count. */
  lemma AgoTextNumber(a: Ago)
    requires a.MinutesAgo? || a.HoursAgo? || a.DaysAgo?
    ensures var t := AgoText(a).value;
      |t| > 5 && DigitsValue(t[..|t| - 5]) == a.n
  {
    var t := AgoText(a).value;
    assert t[..|t| - 5] == NatToString(a.n);
    NatToStringRoundTrip(a.n);
  }

  /** JavaScript's `value || fallback` on an optional string: the value
      unless it is missing or empty. */
  function OrElse(value: Option<string>, fallback: string): (r: string)
    ensures value.Some? && value.value != [] ==> r == value.value
    ensures value.None? || value.value == [] ==> r == fallback
  {
    if value.Some? && value.value != [] then value.value else fallback
  }

  /** The avatar fallback `username?.[0]?.toUpperCase() || "U"`: the first
      character of the name upper-cased, or "U" when there is no name or it
      is empty. */
  function AvatarInitial(username: Option<string>): (r: string)
    ensures |r| == 1
    ensures username.Some? && username.value != [] ==> r[0] == UpperChar(username.value[0])
    ensures username.None? || username.value == [] ==> r == "U"
    ensures !('a' <= r[0] <= 'z')
  {
    if username.Some? && username.value != [] then [UpperChar(username.value[0])] else "U"
  }
}
