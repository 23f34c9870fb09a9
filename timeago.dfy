/** The relative-time labels of the notification list: `formatTime` and
    `getTimeAgo`, with the elapsed time given as whole seconds. */
module TimeAgo {
  import opened Text

  const Minute: nat := 60
  const Hour: nat := 3600
  const Day: nat := 86400
  const ThirtyDays: nat := 2592000

  /** A relative-time label: the bucket and the whole number of units elapsed. */
  datatype Ago = JustNow | MinutesAgo(n: nat) | HoursAgo(n: nat) | DaysAgo(n: nat) | OnDate

  /** `n` is the whole number of `unit`s in `seconds`, as `Math.floor(seconds / unit)` gives. */
  predicate Floors(n: nat, seconds: int, unit: nat) {
    n * unit <= seconds < (n + 1) * unit
  }

  /** `formatTime`: the label for something `seconds` old; past thirty days it shows
      the calendar date instead. A future timestamp (negative age) reads "Just now". */
  function FormatTime(seconds: int): (a: Ago)
    ensures a.JustNow? <==> seconds < Minute
    ensures a.MinutesAgo? <==> Minute <= seconds < Hour
    ensures a.HoursAgo? <==> Hour <= seconds < Day
    ensures a.DaysAgo? <==> Day <= seconds < ThirtyDays
    ensures a.OnDate? <==> ThirtyDays <= seconds
    ensures a.MinutesAgo? ==> Floors(a.n, seconds, Minute)
    ensures a.HoursAgo? ==> Floors(a.n, seconds, Hour)
    ensures a.DaysAgo? ==> Floors(a.n, seconds, Day)
  {
    if seconds < 60 then JustNow
    else if seconds < 3600 then MinutesAgo(seconds / 60)
    else if seconds < 86400 then HoursAgo(seconds / 3600)
    else if seconds < 2592000 then DaysAgo(seconds / 86400)
    else OnDate
  }

  /** `getTimeAgo`: like `formatTime`, but counts days without limit. */
  function GetTimeAgo(seconds: int): (a: Ago)
    ensures a.JustNow? <==> seconds < Minute
    ensures a.MinutesAgo? <==> Minute <= seconds < Hour
    ensures a.HoursAgo? <==> Hour <= seconds < Day
    ensures a.DaysAgo? <==> Day <= seconds
    ensures !a.OnDate?
    ensures a.MinutesAgo? ==> Floors(a.n, seconds, Minute)
    ensures a.HoursAgo? ==> Floors(a.n, seconds, Hour)
    ensures a.DaysAgo? ==> Floors(a.n, seconds, Day)
  {
    if seconds < 60 then JustNow
    else if seconds < 3600 then MinutesAgo(seconds / 60)
    else if seconds < 86400 then HoursAgo(seconds / 3600)
    else DaysAgo(seconds / 86400)
  }

  /** The two functions agree wherever `formatTime` does not switch to a date. */
  lemma FormatTimeAgreesWithGetTimeAgo(seconds: int)
    requires seconds < ThirtyDays
    ensures FormatTime(seconds) == GetTimeAgo(seconds)
  {
  }

  /** Position of a label on the time line: its bucket first, then its count. */
  function Rank(a: Ago): (int, int) {
    match a
    case JustNow => (0, 0)
    case MinutesAgo(n) => (1, n)
    case HoursAgo(n) => (2, n)
    case DaysAgo(n) => (3, n)
    case OnDate => (4, 0)
  }

  predicate RankLe(x: (int, int), y: (int, int)) {
    x.0 < y.0 || (x.0 == y.0 && x.1 <= y.1)
  }

  lemma FloorMonotone(s1: int, s2: int, unit: nat, n1: nat, n2: nat)
    requires 0 < unit && s1 <= s2 && Floors(n1, s1, unit) && Floors(n2, s2, unit)
    ensures n1 <= n2
  {
    if n1 > n2 {
      assert (n2 + 1) * unit <= n1 * unit by {
        MulLe(n2 + 1, n1, unit);
      }
    }
  }

  lemma MulLe(x: nat, y: nat, unit: nat)
    requires x <= y
    ensures x * unit <= y * unit
  {
  }

  /** An older item never gets a label that reads as more recent. */
  lemma GetTimeAgoMonotone(s1: int, s2: int)
    requires s1 <= s2
    ensures RankLe(Rank(GetTimeAgo(s1)), Rank(GetTimeAgo(s2)))
  {
    var a1, a2 := GetTimeAgo(s1), GetTimeAgo(s2);
    if a1.MinutesAgo? && a2.MinutesAgo? { FloorMonotone(s1, s2, Minute, a1.n, a2.n); }
    if a1.HoursAgo? && a2.HoursAgo? { FloorMonotone(s1, s2, Hour, a1.n, a2.n); }
    if a1.DaysAgo? && a2.DaysAgo? { FloorMonotone(s1, s2, Day, a1.n, a2.n); }
  }

  /** `n` written in decimal followed by `suffix`. */
  function Counted(n: nat, suffix: string): (r: string)
    ensures |r| > |suffix| && r[|r| - |suffix|..] == suffix
    ensures var digits := r[..|r| - |suffix|];
            (forall i | 0 <= i < |digits| :: IsDigit(digits[i])) && DecimalValue(digits) == n
  {
    DecimalRoundTrip(n);
    var r := Decimal(n) + suffix;
    assert r[..|r| - |suffix|] == Decimal(n);
    r
  }

  /** The text shown for a label; `localeDate` stands for `toLocaleDateString()`. */
  function Label(a: Ago, localeDate: string): (r: string)
    ensures a.JustNow? ==> r == "Just now"
    ensures a.OnDate? ==> r == localeDate
    ensures a.MinutesAgo? || a.HoursAgo? || a.DaysAgo? ==>
              && |r| > 5 && r[|r| - 5..] == [UnitLetter(a)] + " ago"
              && (forall i | 0 <= i < |r| - 5 :: IsDigit(r[i]))
              && DecimalValue(r[..|r| - 5]) == a.n
  {
    match a
    case JustNow => "Just now"
    case OnDate => localeDate
    case _ => Counted(a.n, [UnitLetter(a)] + " ago")
  }

  /** The unit letter of a counted label: "m ago", "h ago" or "d ago". */
  function UnitLetter(a: Ago): char {
    match a
    case MinutesAgo(_) => 'm'
    case HoursAgo(_) => 'h'
    case DaysAgo(_) => 'd'
    case _ => ' '
  }

  /** Different relative ages never share a label: the text determines the bucket and
      the count. */
  lemma LabelDeterminesAge(a: Ago, b: Ago, localeDate: string)
    requires !a.OnDate? && !b.OnDate?
    requires Label(a, localeDate) == Label(b, localeDate)
    ensures a == b
  {
    var r := Label(a, localeDate);
    if a.JustNow? || b.JustNow? {
      assert r == "Just now";
      assert r[|r| - 4..] != " ago";
    } else {
      assert [UnitLetter(a)] + " ago" == r[|r| - 5..] == [UnitLetter(b)] + " ago";
      assert UnitLetter(a) == ([UnitLetter(a)] + " ago")[0];
    }
  }
}
