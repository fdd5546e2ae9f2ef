/** The calendar-day conversion `new Date(s).toISOString().slice(0, 10)` used by the
    date filter (src/App.tsx:29). Date parsing belongs to the JavaScript host, so the
    model takes it as a parameter of type `DayOf`: `None` stands for the RangeError that
    `toISOString` throws on an invalid date, `Some(d)` for the UTC day `d`.
    What the host is known to do is pinned down for one family of inputs only: a valid
    UTC timestamp written as `YYYY-MM-DDTHH:MM:SSZ` or `YYYY-MM-DDTHH:MM:SS.sssZ` (the
    shape `toISOString` itself prints) converts to its first ten characters. */
module IsoDay {
  import opened ArticleModel

  type DayOf = string -> Option<string>

  predicate IsDigit(c: char)
  {
    '0' <= c <= '9'
  }

  function DigitValue(c: char): (n: nat)
    requires IsDigit(c)
    ensures n <= 9
  {
    (c - '0') as nat
  }

  /** The number written by the two digits at `s[i]`, `s[i + 1]`. */
  function TwoDigits(s: string, i: nat): (n: nat)
    requires i + 2 <= |s| && IsDigit(s[i]) && IsDigit(s[i + 1])
    ensures n <= 99
  {
    10 * DigitValue(s[i]) + DigitValue(s[i + 1])
  }

  predicate IsLeapYear(y: nat)
  {
    (y % 4 == 0 && y % 100 != 0) || y % 400 == 0
  }

  function DaysInMonth(y: nat, m: nat): (d: nat)
    requires 1 <= m <= 12
    ensures 28 <= d <= 31
  {
    if m == 2 then (if IsLeapYear(y) then 29 else 28)
    else if m == 4 || m == 6 || m == 9 || m == 11 then 30
    else 31
  }

  /** `YYYY-MM-DD` naming a real calendar day: the value an `<input type="date">` holds. */
  predicate IsDateString(s: string)
  {
    && |s| == 10
    && IsDigit(s[0]) && IsDigit(s[1]) && IsDigit(s[2]) && IsDigit(s[3])
    && s[4] == '-' && IsDigit(s[5]) && IsDigit(s[6])
    && s[7] == '-' && IsDigit(s[8]) && IsDigit(s[9])
    && 1 <= TwoDigits(s, 5) <= 12
    && 1 <= TwoDigits(s, 8)
       <= DaysInMonth(100 * TwoDigits(s, 0) + TwoDigits(s, 2), TwoDigits(s, 5))
  }

  /** `THH:MM:SS` at `s[10..19]` with an hour below 24. */
  predicate IsTimeOfDay(s: string)
  {
    && |s| >= 19
    && s[10] == 'T'
    && IsDigit(s[11]) && IsDigit(s[12]) && s[13] == ':'
    && IsDigit(s[14]) && IsDigit(s[15]) && s[16] == ':'
    && IsDigit(s[17]) && IsDigit(s[18])
    && TwoDigits(s, 11) <= 23 && TwoDigits(s, 14) <= 59 && TwoDigits(s, 17) <= 59
  }

  /** A valid UTC timestamp in the shape `toISOString` prints, with or without milliseconds. */
  predicate IsCanonicalUtc(s: string)
  {
    && |s| >= 20
    && IsDateString(s[..10])
    && IsTimeOfDay(s)
    && (|| (|s| == 20 && s[19] == 'Z')
        || (|s| == 24 && s[19] == '.' && IsDigit(s[20]) && IsDigit(s[21]) && IsDigit(s[22])
            && s[23] == 'Z'))
  }

  /** What any faithful host conversion does on canonical UTC timestamps. */
  ghost predicate HonoursCanonical(day: DayOf)
  {
    forall s :: IsCanonicalUtc(s) ==> day(s) == Some(s[..10])
  }

  /** A conversion that knows only canonical UTC timestamps and rejects everything else. */
  function CanonicalDay(s: string): (r: Option<string>)
    ensures r.Some? <==> IsCanonicalUtc(s)
    ensures r.Some? ==> |s| >= 10 && IsDateString(r.value) && r.value == s[..10]
  {
    if IsCanonicalUtc(s) then Some(s[..10]) else None
  }

  /** The canonical conversion is a faithful one, so `HonoursCanonical` can be met. */
  lemma CanonicalDayHonoursCanonical()
    ensures HonoursCanonical(CanonicalDay)
  {
  }
}
