/** `time2str`: how long ago a document was stored, in one of three relative
    buckets or, after a day, as the stored date itself. Times are whole
    seconds; the date format ("%Y-%m-%d %H:%M") is a parameter. */
module RelativeTime {

  const SecondsPerMinute := 60
  const SecondsPerHour := 3600
  const SecondsPerDay := 86400

  /** The four shapes of the text `time2str` returns. */
  datatype Ago = SecondsAgo(n: int) | MinutesAgo(n: int) | HoursAgo(n: int) | OnDate(stamp: int)

  /** The bucket for a document stored at `date`, seen at `now`. The count
      is the elapsed time divided by the bucket's unit, truncated. */
  function Bucket(now: int, date: int): (r: Ago)
    ensures r.SecondsAgo? <==> now - date < SecondsPerMinute
    ensures r.SecondsAgo? ==> r.n == now - date
    ensures r.MinutesAgo? <==> SecondsPerMinute <= now - date < SecondsPerHour
    ensures r.MinutesAgo? ==> 1 <= r.n <= 59 && r.n * SecondsPerMinute <= now - date < (r.n + 1) * SecondsPerMinute
    ensures r.HoursAgo? <==> SecondsPerHour <= now - date < SecondsPerDay
    ensures r.HoursAgo? ==> 1 <= r.n <= 23 && r.n * SecondsPerHour <= now - date < (r.n + 1) * SecondsPerHour
    ensures r.OnDate? <==> SecondsPerDay <= now - date
    ensures r.OnDate? ==> r.stamp == date
  {
    var elapsed := now - date;
    if elapsed < SecondsPerMinute then SecondsAgo(elapsed)
    else if elapsed < SecondsPerHour then MinutesAgo(elapsed / SecondsPerMinute)
    else if elapsed < SecondsPerDay then HoursAgo(elapsed / SecondsPerHour)
    else OnDate(date)
  }

  /** The decimal digits of `n`, most significant first, as `str(n)` writes them. */
  function NatToDecimal(n: nat): (s: string)
    ensures |s| >= 1
    ensures forall i :: 0 <= i < |s| ==> '0' <= s[i] <= '9'
    ensures s[0] == '0' ==> n == 0
  {
    if n < 10 then [DigitChar(n)] else NatToDecimal(n / 10) + [DigitChar(n % 10)]
  }

  function DigitChar(d: nat): (c: char)
    requires d < 10
    ensures '0' <= c <= '9' && c as int - '0' as int == d
  {
    ('0' as int + d) as char
  }

  /** The value of a string of decimal digits (the reading a client makes of the count). */
  function DecimalValue(s: string): nat
    requires forall i :: 0 <= i < |s| ==> '0' <= s[i] <= '9'
  {
    if s == [] then 0 else DecimalValue(s[..|s| - 1]) * 10 + (s[|s| - 1] as int - '0' as int)
  }

  /** Reading back the digits gives the number: the count in the text is the count. */
  lemma {:induction false} DecimalRoundTrip(n: nat)
    ensures DecimalValue(NatToDecimal(n)) == n
  {
    if n >= 10 {
      var s := NatToDecimal(n);
      assert s[..|s| - 1] == NatToDecimal(n / 10);
      DecimalRoundTrip(n / 10);
    }
  }

  /** `str(int(x))` for a whole number of seconds: a minus sign for a negative value. */
  function IntToDecimal(i: int): string
  {
    if i < 0 then "-" + NatToDecimal(-i) else NatToDecimal(i)
  }

  /** The text `time2str` returns for a bucket: the formatted date, or a
      count followed by its unit and " ago". */
  function Text(a: Ago, formatDate: int -> string): (r: string)
    ensures a.OnDate? ==> r == formatDate(a.stamp)
    ensures !a.OnDate? ==> |r| > 4 && r[|r| - 4..] == " ago"
  {
    match a
    case SecondsAgo(n) => IntToDecimal(n) + " seconds ago"
    case MinutesAgo(n) => IntToDecimal(n) + " minutes ago"
    case HoursAgo(n) => IntToDecimal(n) + " hours ago"
    case OnDate(stamp) => formatDate(stamp)
  }

  /** The string `time2str(date)` evaluated at `now`, stated by the elapsed
      time: the count is the elapsed time in whole units, truncated. */
  function TimeText(now: int, date: int, formatDate: int -> string): (r: string)
    ensures 0 <= now - date < SecondsPerMinute ==> r == NatToDecimal(now - date) + " seconds ago"
    ensures SecondsPerMinute <= now - date < SecondsPerHour ==>
              r == NatToDecimal((now - date) / SecondsPerMinute) + " minutes ago"
    ensures SecondsPerHour <= now - date < SecondsPerDay ==>
              r == NatToDecimal((now - date) / SecondsPerHour) + " hours ago"
    ensures SecondsPerDay <= now - date ==> r == formatDate(date)
  {
    Text(Bucket(now, date), formatDate)
  }

  /** The decimal texts of the counts at the bucket boundaries. */
  lemma BoundaryDigits()
    ensures NatToDecimal(0) == "0" && NatToDecimal(1) == "1"
    ensures NatToDecimal(23) == "23" && NatToDecimal(59) == "59"
  {
    assert DigitChar(2) == '2' && DigitChar(3) == '3';
    assert DigitChar(5) == '5' && DigitChar(9) == '9';
  }

  /** The boundary cases: each threshold opens the next bucket, and the
      counts are truncated, never rounded. */
  lemma BoundaryBuckets(date: int)
    ensures Bucket(date, date) == SecondsAgo(0)
    ensures Bucket(date + 59, date) == SecondsAgo(59)
    ensures Bucket(date + 60, date) == MinutesAgo(1)
    ensures Bucket(date + 3599, date) == MinutesAgo(59)
    ensures Bucket(date + 3600, date) == HoursAgo(1)
    ensures Bucket(date + 86399, date) == HoursAgo(23)
    ensures Bucket(date + 86400, date) == OnDate(date)
  {
  }

  /** One boundary case as the full text the page shows. */
  lemma LastMinuteText(date: int, formatDate: int -> string)
    ensures TimeText(date + 3599, date, formatDate) == "59 minutes ago"
  {
    BoundaryDigits();
    BoundaryBuckets(date);
  }

  /** Different counts are written as different digit strings. */
  lemma {:induction false} CountsDistinguishable(m: nat, n: nat)
    requires m != n
    ensures NatToDecimal(m) != NatToDecimal(n)
  {
    DecimalRoundTrip(m);
    DecimalRoundTrip(n);
  }
}
