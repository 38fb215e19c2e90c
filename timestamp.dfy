/**
 * CDX timestamps (`YYYYMMDDhhmmss`, 14 digits) and their rendering as a
 * WARC date (`YYYY-MM-DDThh:mm:ssZ`): the `datetime.strptime` /
 * `datetime.strftime` round trip of the asynchronous deduplicator, and the
 * positional layout the synchronous one builds by slicing.
 */
module Timestamp {
  import opened PyText

  function DigitValue(c: char): nat
    requires IsDigit(c)
  {
    c as int - '0' as int
  }

  function DigitChar(d: nat): (c: char)
    requires d < 10
    ensures IsDigit(c) && DigitValue(c) == d
  {
    ('0' as int + d) as char
  }

  /** The decimal value of a digit string. */
  function Number(s: string): nat
    requires AllDigits(s)
    decreases |s|
  {
    if s == [] then 0 else 10 * Number(s[..|s| - 1]) + DigitValue(s[|s| - 1])
  }

  /** n in decimal, left-padded with zeros to `width` digits (the last `width`
      digits when n has more): what `%Y`, `%m`, `%d`, ... render. */
  function Pad(n: nat, width: nat): (s: string)
    ensures |s| == width && AllDigits(s)
    decreases width
  {
    if width == 0 then [] else Pad(n / 10, width - 1) + [DigitChar(n % 10)]
  }

  /** Rendering a digit string's value at the string's own width gives the string back. */
  lemma {:induction false} PadNumber(s: string)
    requires AllDigits(s)
    ensures Pad(Number(s), |s|) == s
    decreases |s|
  {
    if s != [] {
      var init := s[..|s| - 1];
      PadNumber(init);
      var n := Number(s);
      assert n / 10 == Number(init) && n % 10 == DigitValue(s[|s| - 1]);
      assert s == init + [s[|s| - 1]];
    }
  }

  predicate IsLeapYear(y: nat) {
    y % 4 == 0 && (y % 100 != 0 || y % 400 == 0)
  }

  function DaysInMonth(y: nat, m: nat): nat
    requires 1 <= m <= 12
  {
    if m == 2 then (if IsLeapYear(y) then 29 else 28)
    else if m == 4 || m == 6 || m == 9 || m == 11 then 30
    else 31
  }

  datatype DateTime = DateTime(year: nat, month: nat, day: nat, hour: nat, minute: nat, second: nat)

  /** A calendar time `datetime` accepts (proleptic Gregorian, years 1 to 9999). */
  predicate ValidDateTime(t: DateTime) {
    && 1 <= t.year <= 9999
    && 1 <= t.month <= 12
    && 1 <= t.day <= DaysInMonth(t.year, t.month)
    && t.hour <= 23 && t.minute <= 59 && t.second <= 59
  }

  /** The six fields of a 14-digit timestamp, read by position. */
  function Fields(ts: string): DateTime
    requires |ts| == 14 && AllDigits(ts)
  {
    DateTime(Number(ts[0..4]), Number(ts[4..6]), Number(ts[6..8]),
             Number(ts[8..10]), Number(ts[10..12]), Number(ts[12..14]))
  }

  /** A timestamp that `datetime.strptime(ts, '%Y%m%d%H%M%S')` accepts. */
  predicate ValidTimestamp(ts: string) {
    |ts| == 14 && AllDigits(ts) && ValidDateTime(Fields(ts))
  }

  /** `datetime.strptime(ts, '%Y%m%d%H%M%S')` on a valid timestamp. */
  function Strptime(ts: string): (t: DateTime)
    requires ValidTimestamp(ts)
    ensures ValidDateTime(t)
  {
    Fields(ts)
  }

  /** `t.strftime('%Y-%m-%dT%H:%M:%SZ')`. */
  function Strftime(t: DateTime): (s: string)
    requires ValidDateTime(t)
    ensures |s| == 20
  {
    Pad(t.year, 4) + "-" + Pad(t.month, 2) + "-" + Pad(t.day, 2) + "T"
    + Pad(t.hour, 2) + ":" + Pad(t.minute, 2) + ":" + Pad(t.second, 2) + "Z"
  }

  /** The WARC date layout of a 14-character timestamp, taken character by character. */
  function IsoLayout(ts: string): string
    requires |ts| == 14
  {
    ts[0..4] + "-" + ts[4..6] + "-" + ts[6..8] + "T" + ts[8..10] + ":" + ts[10..12] + ":" + ts[12..14] + "Z"
  }

  /** Parsing a valid timestamp and rendering it again lays out its digits unchanged. */
  lemma RenderParsed(ts: string)
    requires ValidTimestamp(ts)
    ensures Strftime(Strptime(ts)) == IsoLayout(ts)
  {
    PadNumber(ts[0..4]);
    PadNumber(ts[4..6]);
    PadNumber(ts[6..8]);
    PadNumber(ts[8..10]);
    PadNumber(ts[10..12]);
    PadNumber(ts[12..14]);
  }
}
