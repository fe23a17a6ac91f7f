/**
  The date texts that weather_log.py reads and writes:
  - `DD-MM-YYYY`, the key of the observation store and of the reports, as
    `strptime(s, '%d-%m-%Y')` reads it and `strftime('%d-%m-%Y')` writes it;
  - the full-date `YYYY-MM-DD` of RFC 3339 (section 5.6), and the noon instant
    `YYYY-MM-DDT12:00:00Z` sent as the forecast query time;
  - the calendar date of an RFC 3339 date-time, as `datetime.fromisoformat(..).date()` gives it.
*/
module DateText {
  import opened Wrappers
  import opened Calendar

  predicate IsDigit(c: char) {
    '0' <= c <= '9'
  }

  predicate AllDigits(s: string) {
    forall i :: 0 <= i < |s| ==> IsDigit(s[i])
  }

  /** The number written by a run of decimal digits. */
  function Value(s: string): (n: nat)
    requires AllDigits(s)
    ensures |s| <= 1 ==> n < 10
    ensures |s| <= 2 ==> n < 100
    ensures |s| <= 3 ==> n < 1000
    ensures |s| <= 4 ==> n < 10000
  {
    if s == [] then 0 else 10 * Value(s[..|s| - 1]) + (s[|s| - 1] as int - '0' as int)
  }

  function DigitChar(n: int): (c: char)
    requires 0 <= n <= 9
    ensures IsDigit(c) && c as int - '0' as int == n
  {
    ('0' as int + n) as char
  }

  /** `%02d` */
  function Pad2(n: int): (s: string)
    requires 0 <= n <= 99
    ensures |s| == 2 && AllDigits(s) && Value(s) == n
  {
    var s := [DigitChar(n / 10), DigitChar(n % 10)];
    assert s[..1] == [s[0]];
    s
  }

  /** `%04d` */
  function Pad4(n: int): (s: string)
    requires 0 <= n <= 9999
    ensures |s| == 4 && AllDigits(s) && Value(s) == n
  {
    var s := Pad2(n / 100) + Pad2(n % 100);
    ValueAppendTwo(Pad2(n / 100), Pad2(n % 100));
    s
  }

  lemma ValueAppendTwo(a: string, b: string)
    requires AllDigits(a) && |b| == 2 && AllDigits(b)
    ensures AllDigits(a + b) && Value(a + b) == 100 * Value(a) + Value(b)
  {
    var s := a + b;
    assert s[..|s| - 1] == a + [b[0]];
    assert (a + [b[0]])[..|a|] == a;
    assert b[..1] == [b[0]];
  }

  /** A two-digit field is the zero-padded text of its value. */
  lemma Pad2OfValue(s: string)
    requires |s| == 2 && AllDigits(s)
    ensures Pad2(Value(s)) == s
  {
    assert s[..1] == [s[0]];
  }

  /** A four-digit field is the zero-padded text of its value. */
  lemma Pad4OfValue(s: string)
    requires |s| == 4 && AllDigits(s)
    ensures Pad4(Value(s)) == s
  {
    assert s == s[..2] + s[2..];
    ValueAppendTwo(s[..2], s[2..]);
    SplitHundreds(Value(s[..2]), Value(s[2..]));
    Pad2OfValue(s[..2]);
    Pad2OfValue(s[2..]);
  }

  lemma SplitHundreds(hi: int, lo: int)
    requires 0 <= lo < 100
    ensures (100 * hi + lo) / 100 == hi && (100 * hi + lo) % 100 == lo
  {
  }

  /** Position of the first `c` in `s`, or `|s|` when there is none. */
  function IndexOf(s: string, c: char): (i: nat)
    ensures i <= |s|
    ensures i < |s| ==> s[i] == c
    ensures forall j :: 0 <= j < i ==> s[j] != c
  {
    if s == [] then 0
    else if s[0] == c then 0
    else 1 + IndexOf(s[1..], c)
  }

  /** A field of `lo` to `hi` ASCII digits. */
  predicate IsField(s: string, lo: nat, hi: nat) {
    lo <= |s| <= hi && AllDigits(s)
  }

  /**
    `datetime.strptime(s, '%d-%m-%Y').date()`: a day of one or two digits, a month of one
    or two digits and a year of exactly four digits, separated by `-`, with nothing after;
    `None` stands for the `ValueError` that a text of any other shape, or a day the month
    does not have, raises.
  */
  function ParseDayMonthYear(s: string): (r: Option<Date>)
    ensures r.Some? ==> InRange(r.value)
  {
    var i := IndexOf(s, '-');
    if i == |s| then None
    else
      var rest := s[i + 1..];
      var j := IndexOf(rest, '-');
      if j == |rest| then None
      else
        var dd, mm, yyyy := s[..i], rest[..j], rest[j + 1..];
        if !(IsField(dd, 1, 2) && IsField(mm, 1, 2) && IsField(yyyy, 4, 4)) then None
        else
          var d := Date(Value(yyyy), Value(mm), Value(dd));
          if InRange(d) then Some(d) else None
  }

  /** `date.strftime('%d-%m-%Y')` */
  function FormatDayMonthYear(d: Date): (s: string)
    requires InRange(d)
    ensures |s| == 10
  {
    Pad2(d.day) + "-" + Pad2(d.month) + "-" + Pad4(d.year)
  }

  /** The text written for a date reads back as that date. */
  lemma ParseFormatted(d: Date)
    requires InRange(d)
    ensures ParseDayMonthYear(FormatDayMonthYear(d)) == Some(d)
  {
    var s := FormatDayMonthYear(d);
    assert s[..2] == Pad2(d.day);
    assert s[3..] == Pad2(d.month) + "-" + Pad4(d.year);
    assert s[0] == Pad2(d.day)[0] && s[1] == Pad2(d.day)[1] && s[2] == '-';
    assert IndexOf(s, '-') == 2;
    var rest := s[3..];
    assert rest[..2] == Pad2(d.month);
    assert rest[3..] == Pad4(d.year);
    assert rest[0] == Pad2(d.month)[0] && rest[1] == Pad2(d.month)[1] && rest[2] == '-';
    assert IndexOf(rest, '-') == 2;
  }

  /**
    A ten-character text that parses is exactly the zero-padded text of its date;
    `strptime` also accepts unpadded days and months, which are shorter.
  */
  lemma FormatParsed(s: string)
    requires ParseDayMonthYear(s).Some?
    ensures |s| == 10 <==> FormatDayMonthYear(ParseDayMonthYear(s).value) == s
  {
    var d := ParseDayMonthYear(s).value;
    var i := IndexOf(s, '-');
    var rest := s[i + 1..];
    var j := IndexOf(rest, '-');
    if |s| == 10 {
      assert |s[..i]| == 2 && |rest[..j]| == 2;
      Pad2OfValue(s[..i]);
      Pad2OfValue(rest[..j]);
      Pad4OfValue(rest[j + 1..]);
      assert s == s[..i] + "-" + rest[..j] + "-" + rest[j + 1..];
    }
  }

  /** RFC 3339 full-date: `date.strftime('%Y-%m-%d')`. */
  function FormatIsoDate(d: Date): (s: string)
    requires InRange(d)
    ensures |s| == 10
  {
    Pad4(d.year) + "-" + Pad2(d.month) + "-" + Pad2(d.day)
  }

  /** RFC 3339 full-date `YYYY-MM-DD` naming a date Python can represent. */
  function ParseIsoDate(s: string): (r: Option<Date>)
    ensures r.Some? ==> InRange(r.value)
  {
    if |s| == 10 && s[4] == '-' && s[7] == '-'
       && AllDigits(s[..4]) && AllDigits(s[5..7]) && AllDigits(s[8..])
    then
      var d := Date(Value(s[..4]), Value(s[5..7]), Value(s[8..]));
      if InRange(d) then Some(d) else None
    else None
  }

  /** A full-date that reads as a date is exactly the written form of that date. */
  lemma FormattedIsoParsed(s: string)
    requires ParseIsoDate(s).Some?
    ensures FormatIsoDate(ParseIsoDate(s).value) == s
  {
    Pad4OfValue(s[..4]);
    Pad2OfValue(s[5..7]);
    Pad2OfValue(s[8..]);
    assert s == s[..4] + "-" + s[5..7] + "-" + s[8..];
  }

  lemma ParseIsoFormatted(d: Date)
    requires InRange(d)
    ensures ParseIsoDate(FormatIsoDate(d)) == Some(d)
  {
    var s := FormatIsoDate(d);
    assert s[..4] == Pad4(d.year);
    assert s[5..7] == Pad2(d.month);
    assert s[8..] == Pad2(d.day);
  }

  /** Number of leading ASCII digits of `s`. */
  function LeadingDigits(s: string): (k: nat)
    ensures k <= |s| && AllDigits(s[..k])
    ensures k < |s| ==> !IsDigit(s[k])
  {
    if s != [] && IsDigit(s[0]) then
      var k := 1 + LeadingDigits(s[1..]);
      assert s[..k] == [s[0]] + s[1..][..k - 1];
      k
    else 0
  }

  /** Two digits whose value is at most `max`. */
  predicate IsTwoDigitsUpTo(s: string, max: int) {
    |s| == 2 && AllDigits(s) && Value(s) <= max
  }

  /** RFC 3339 time-offset: `Z`, or `+hh:mm` / `-hh:mm` (what `Z` is replaced by before parsing). */
  predicate IsOffset(s: string) {
    s == "Z"
    || (|s| == 6 && (s[0] == '+' || s[0] == '-') && IsTwoDigitsUpTo(s[1..3], 23)
        && s[3] == ':' && IsTwoDigitsUpTo(s[4..], 59))
  }

  /** RFC 3339 partial-time and offset, `hh:mm:ss[.frac]offset`, with Python's limit of 59 seconds. */
  predicate IsTimeOfDay(s: string) {
    |s| >= 9 && IsTwoDigitsUpTo(s[..2], 23) && s[2] == ':' && IsTwoDigitsUpTo(s[3..5], 59)
    && s[5] == ':' && IsTwoDigitsUpTo(s[6..8], 59)
    && (if s[8] == '.' then
          var k := LeadingDigits(s[9..]);
          k >= 1 && IsOffset(s[9 + k..])
        else IsOffset(s[8..]))
  }

  /**
    The calendar date of an RFC 3339 date-time `full-date "T" time`, as
    `datetime.fromisoformat(t.replace('Z', '+00:00')).date()` gives it: the date
    written in the text, which for a `Z` instant is its UTC date. `None` stands for
    the `ValueError` raised on any other text.
  */
  function InstantDate(t: string): (r: Option<Date>)
    ensures r.Some? ==> InRange(r.value)
  {
    if |t| >= 11 && t[10] == 'T' && IsTimeOfDay(t[11..]) then ParseIsoDate(t[..10]) else None
  }

  /**
    weather_log.py line 35: `strptime(date, '%d-%m-%Y').strftime('%Y-%m-%dT12:00:00Z')`,
    the noon UTC instant of the requested day; `None` for the `ValueError` of a bad date.
  */
  function QueryTime(date: string): (r: Option<string>)
    ensures r.Some? <==> ParseDayMonthYear(date).Some?
  {
    match ParseDayMonthYear(date)
    case None => None
    case Some(d) => Some(FormatIsoDate(d) + "T12:00:00Z")
  }

  /**
    The query time is an RFC 3339 instant whose date is the requested day: reading
    its date back gives the date the `DD-MM-YYYY` text named.
  */
  lemma QueryTimeNamesDay(date: string)
    requires QueryTime(date).Some?
    ensures InstantDate(QueryTime(date).value) == ParseDayMonthYear(date)
    ensures |QueryTime(date).value| == 20
    ensures QueryTime(date).value[10..] == "T12:00:00Z"
  {
    NoonInstantDate(ParseDayMonthYear(date).value);
  }

  /**
    Any RFC 3339 date-time on a day, whatever its time of day (06:00, 18:00, with a
    fraction or an offset), reads as that day.
  */
  lemma AnyInstantDate(d: Date, time: string)
    requires InRange(d) && IsTimeOfDay(time)
    ensures InstantDate(FormatIsoDate(d) + "T" + time) == Some(d)
  {
    var t := FormatIsoDate(d) + "T" + time;
    assert t[..10] == FormatIsoDate(d);
    assert t[10] == 'T';
    assert t[11..] == time;
    ParseIsoFormatted(d);
  }

  /**
    Conversely, a text that reads as a date is that date's full-date, `T`, and a
    valid time of day.
  */
  lemma InstantDateWritten(t: string)
    requires InstantDate(t).Some?
    ensures |t| >= 11 && IsTimeOfDay(t[11..])
    ensures t == FormatIsoDate(InstantDate(t).value) + "T" + t[11..]
  {
    FormattedIsoParsed(t[..10]);
    assert t == t[..10] + [t[10]] + t[11..];
  }

  /** The date of the noon UTC instant of a day is that day. */
  lemma NoonInstantDate(d: Date)
    requires InRange(d)
    ensures InstantDate(FormatIsoDate(d) + "T12:00:00Z") == Some(d)
  {
    var q := FormatIsoDate(d) + "T12:00:00Z";
    assert q[..10] == FormatIsoDate(d);
    assert q[10] == 'T';
    assert q[11..] == "12:00:00Z";
    NoonIsTimeOfDay();
    ParseIsoFormatted(d);
  }

  lemma NoonIsTimeOfDay()
    ensures IsTimeOfDay("12:00:00Z")
  {
    var t := "12:00:00Z";
    assert t[..2] == "12" && t[3..5] == "00" && t[6..8] == "00" && t[8..] == "Z";
    assert Value("12") == 12 && Value("00") == 0;
  }
}
