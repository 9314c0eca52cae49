/**
 * Time as the server sees it: whole seconds since 1970-01-01 00:00:00, the
 * sliding session expiry window, and the "%Y-%m-%d %H:%M:%S" text that the
 * WebSocket relay puts in each reading's `timestamp`.
 */
module Clock {

  import Text

  const SecondsPerMinute: nat := 60
  const SecondsPerHour: nat := 3600
  const SecondsPerDay: nat := 86400

  /** Sessions not used for this many hours are expired. */
  const SessionExpiryHours: nat := 24
  const SessionExpirySeconds: nat := SessionExpiryHours * SecondsPerHour

  /** Proleptic Gregorian (year, month, day) of the day `days` after 1970-01-01. */
  function CivilFromDays(days: nat): (int, int, int)
  {
    var z := days + 719468;
    var era := z / 146097;
    var doe := z - era * 146097;
    var yoe := (doe - doe / 1460 + doe / 36524 - doe / 146096) / 365;
    var doy := doe - (365 * yoe + yoe / 4 - yoe / 100);
    var mp := (5 * doy + 2) / 153;
    var d := doy - (153 * mp + 2) / 5 + 1;
    var m := if mp < 10 then mp + 3 else mp - 9;
    var y := yoe + era * 400 + (if m <= 2 then 1 else 0);
    (y, m, d)
  }

  /** A field of at least `width` zero-padded digits; a negative value keeps its sign. */
  function Field(n: int, width: nat): (s: string)
    ensures ' ' !in s
  {
    var digits := Text.ZeroPad(Text.NatToString(if n < 0 then -n else n), width);
    Text.DigitsHaveNoSpace(digits);
    if n < 0 then "-" + digits else digits
  }

  function TwoDigits(n: int): (s: string)
    ensures ' ' !in s
  {
    Field(n, 2)
  }

  /** "YYYY-MM-DD" for a calendar date. */
  function DateText(y: int, m: int, d: int): (s: string)
    ensures ' ' !in s
  {
    Field(y, 4) + "-" + TwoDigits(m) + "-" + TwoDigits(d)
  }

  /** "HH:MM:SS" for a time of day. */
  function TimeText(h: int, m: int, s: int): (r: string)
    ensures ' ' !in r
  {
    TwoDigits(h) + ":" + TwoDigits(m) + ":" + TwoDigits(s)
  }

  /** The "%Y-%m-%d" half of the timestamp text. */
  function DatePart(t: nat): (s: string)
    ensures ' ' !in s
  {
    var (y, m, d) := CivilFromDays(t / SecondsPerDay);
    DateText(y, m, d)
  }

  /** The "%H:%M:%S" half of the timestamp text. */
  function TimePart(t: nat): (s: string)
    ensures ' ' !in s
  {
    var secs := t % SecondsPerDay;
    TimeText(secs / SecondsPerHour, secs % SecondsPerHour / SecondsPerMinute, secs % SecondsPerMinute)
  }

  /** `strftime("%Y-%m-%d %H:%M:%S")` of the instant `t`. */
  function Format(t: nat): string {
    DatePart(t) + " " + TimePart(t)
  }

  /** Splitting a formatted timestamp on spaces yields exactly its date and its time. */
  lemma FormatSplits(t: nat)
    ensures Text.Split(Format(t), ' ') == [DatePart(t), TimePart(t)]
  {
    Text.SplitTwo(DatePart(t), TimePart(t), ' ');
  }
}
