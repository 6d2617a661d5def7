/**
 * The memo screen's relative timestamp: elapsed milliseconds are floored to
 * seconds and bucketed into "just now", minutes, hours or days.
 */
module TimeAgo {
  import opened Text

  /** The four buckets, each with the count it displays. */
  datatype Ago = JustNow | MinutesAgo(minutes: nat) | HoursAgo(hours: nat) | DaysAgo(days: nat)

  /**
   * `Math.floor((now - timestamp) / 1000)`. JavaScript floors toward minus infinity;
   * for the positive divisor 1000 Dafny's Euclidean `/` is that same floor, as the
   * postcondition pins down for negative differences (future timestamps) too.
   */
  function ElapsedSeconds(now: int, timestamp: int): (s: int)
    ensures s * 1000 <= now - timestamp < s * 1000 + 1000
  {
    (now - timestamp) / 1000
  }

  /** The bucket `getTimeAgo` picks, with the count floored within the bucket. */
  function GetTimeAgo(now: int, timestamp: int): (r: Ago)
    ensures r == JustNow <==> ElapsedSeconds(now, timestamp) < 60
    ensures r.MinutesAgo? <==> 60 <= ElapsedSeconds(now, timestamp) < 3600
    ensures r.HoursAgo? <==> 3600 <= ElapsedSeconds(now, timestamp) < 86400
    ensures r.DaysAgo? <==> 86400 <= ElapsedSeconds(now, timestamp)
    ensures r.MinutesAgo? ==> 1 <= r.minutes <= 59
    ensures r.HoursAgo? ==> 1 <= r.hours <= 23
    ensures r.DaysAgo? ==> r.days >= 1
  {
    var seconds := ElapsedSeconds(now, timestamp);
    if seconds < 60 then JustNow
    else if seconds < 3600 then MinutesAgo(seconds / 60)
    else if seconds < 86400 then HoursAgo(seconds / 3600)
    else DaysAgo(seconds / 86400)
  }

  /** The count shown is the whole number of units elapsed: never more than the elapsed time, and less than one unit short of it. */
  lemma CountIsWholeUnits(now: int, timestamp: int)
    ensures var s := ElapsedSeconds(now, timestamp);
            match GetTimeAgo(now, timestamp)
            case JustNow => s < 60
            case MinutesAgo(m) => m * 60 <= s < m * 60 + 60
            case HoursAgo(h) => h * 3600 <= s < h * 3600 + 3600
            case DaysAgo(d) => d * 86400 <= s < d * 86400 + 86400
  {
  }

  /** Elapsed seconds depend only on the difference `now - timestamp` and never decrease as it grows. */
  lemma ElapsedMonotone(now1: int, ts1: int, now2: int, ts2: int)
    requires now1 - ts1 <= now2 - ts2
    ensures ElapsedSeconds(now1, ts1) <= ElapsedSeconds(now2, ts2)
  {
  }

  /** The bucket's position: just now < minutes < hours < days. */
  function Rank(a: Ago): nat {
    match a
    case JustNow => 0
    case MinutesAgo(_) => 1
    case HoursAgo(_) => 2
    case DaysAgo(_) => 3
  }

  /** An older memo never shows a smaller bucket than a newer one. */
  lemma BucketMonotone(now: int, newer: int, older: int)
    requires older <= newer
    ensures Rank(GetTimeAgo(now, older)) >= Rank(GetTimeAgo(now, newer))
  {
  }

  /** The text shown: "방금 전", or the count in decimal followed by 분 (minutes), 시간 (hours) or 일 (days) and 전. */
  function Label(a: Ago): (l: string)
    ensures l == "방금 전" <==> a.JustNow?
    ensures EndsWith(l, " 전")
  {
    match a
    case JustNow => "방금 전"
    case MinutesAgo(m) => Counted(m, "분 전")
    case HoursAgo(h) => Counted(h, "시간 전")
    case DaysAgo(d) => Counted(d, "일 전")
  }

  /** A count in decimal followed by its unit: it starts with a digit, so it is never "방금 전". */
  function Counted(k: nat, unit: string): (l: string)
    requires EndsWith(unit, " 전")
    ensures l == Decimal(k) + unit
    ensures IsDigit(l[0]) && l != "방금 전"
    ensures EndsWith(l, " 전")
  {
    var l := Decimal(k) + unit;
    assert l[0] == Decimal(k)[0];
    assert "방금 전"[0] == '방';
    assert l[|l| - 2..] == unit[|unit| - 2..];
    l
  }

  /** The count a bucket other than "just now" displays. */
  function Count(a: Ago): nat {
    match a
    case JustNow => 0
    case MinutesAgo(m) => m
    case HoursAgo(h) => h
    case DaysAgo(d) => d
  }

  /** The text after the count. */
  function Unit(a: Ago): string {
    match a
    case JustNow => "방금 전"
    case MinutesAgo(_) => "분 전"
    case HoursAgo(_) => "시간 전"
    case DaysAgo(_) => "일 전"
  }

  /** The number of leading decimal digits of `s`. */
  function DigitRun(s: string): (n: nat)
    ensures n <= |s|
  {
    if s != [] && IsDigit(s[0]) then 1 + DigitRun(s[1..]) else 0
  }

  /** Digits followed by text that does not start with a digit: the digit run is exactly the digits. */
  lemma {:induction false} DigitRunOfConcat(d: string, u: string)
    requires AllDigits(d)
    requires u == [] || !IsDigit(u[0])
    ensures DigitRun(d + u) == |d|
  {
    if d != [] {
      assert (d + u)[1..] == d[1..] + u;
      DigitRunOfConcat(d[1..], u);
    }
  }

  /** A label is its leading digits (none for "just now") followed by its unit. */
  lemma LabelShape(a: Ago)
    ensures a.JustNow? ==> Label(a) == Unit(a)
    ensures !a.JustNow? ==> Label(a) == Decimal(Count(a)) + Unit(a)
    ensures DigitRun(Label(a)) == if a.JustNow? then 0 else |Decimal(Count(a))|
  {
    if a.JustNow? {
      assert !IsDigit(Label(a)[0]);
    } else {
      DigitRunOfConcat(Decimal(Count(a)), Unit(a));
    }
  }

  /** Different buckets or counts are always shown differently, so the label determines the value. */
  lemma LabelInjective(a: Ago, b: Ago)
    requires Label(a) == Label(b)
    ensures a == b
  {
    LabelShape(a);
    LabelShape(b);
    if !a.JustNow? {
      var s := Label(a);
      var n := |Decimal(Count(a))|;
      assert n == |Decimal(Count(b))|;
      assert Decimal(Count(a)) == s[..n] == Decimal(Count(b));
      assert Unit(a) == s[n..] == Unit(b);
      DecimalInjective(Count(a), Count(b));
    }
  }
}
