/**
  `YRWeather.fetch_weather_data` (weather_log.py lines 34-52): the requested
  `DD-MM-YYYY` day becomes the noon query time, and the forecast service's answer
  is scanned for the first timeslot on that day.

  The HTTP request itself is outside the model: the method receives the status code
  and the decoded `properties.timeseries` that the service returned for the query.
*/
module Forecast {
  import opened Wrappers
  import opened Calendar
  import opened DateText

  /**
    One entry of `properties.timeseries`: its `time`, the `air_temperature` and
    `wind_speed` of `data.instant.details`, and the `precipitation_amount` of
    `data.next_1_hours.details` when the `next_1_hours` block is present.
    The measurements are only copied, never computed with.
  */
  datatype Timeslot = Timeslot(time: string, airTemperature: real, windSpeed: real, nextHourPrecipitation: Option<real>)

  /** The status code and the decoded time series of the service's answer. */
  datatype Response = Response(status: int, timeseries: seq<Timeslot>)

  /** The dictionary returned to the report: temperature, wind speed and precipitation. */
  datatype Sample = Sample(temperature: real, windSpeed: real, precipitation: real)

  /** The `ValueError` raised for a bad requested date (line 35) or an unreadable timeslot time (line 42). */
  datatype FetchError = InvalidDate | InvalidTime(index: nat)

  /** Lines 44-48: the sample a matching timeslot yields; precipitation is 0 without a `next_1_hours` block. */
  function SampleOf(slot: Timeslot): Sample {
    Sample(slot.airTemperature, slot.windSpeed,
           if slot.nextHourPrecipitation.Some? then slot.nextHourPrecipitation.value else 0.0)
  }

  /** Where the scan of the time series stops. */
  datatype Scan = Found(index: nat) | Exhausted | Unreadable(index: nat)

  /**
    The date each timeslot's time reads as (line 42), or `None` where
    `fromisoformat` raises.
  */
  function SlotDates(series: seq<Timeslot>): (r: seq<Option<Date>>)
    ensures |r| == |series|
    ensures forall j :: 0 <= j < |series| ==> r[j] == InstantDate(series[j].time)
  {
    seq(|series|, j requires 0 <= j < |series| => InstantDate(series[j].time))
  }

  /** Every date in `lo .. hi-1` was read and is not `day`. */
  predicate NoneOnDay(dates: seq<Option<Date>>, day: Date, lo: nat, hi: nat)
    requires lo <= hi <= |dates|
  {
    forall j :: lo <= j < hi ==> dates[j].Some? && dates[j].value != day
  }

  /**
    The scan of lines 41-49 from position `i` on, over the dates the timeslots read
    as: it stops at the first on `day` (Found), at the first that cannot be read
    (Unreadable: `fromisoformat` raises), or runs off the end (Exhausted).
  */
  function ScanFrom(dates: seq<Option<Date>>, day: Date, i: nat): (r: Scan)
    requires i <= |dates|
    ensures r.Found? || r.Unreadable? ==> i <= r.index < |dates|
    decreases |dates| - i
  {
    if i == |dates| then Exhausted
    else match dates[i]
      case None => Unreadable(i)
      case Some(t) => if t == day then Found(i) else ScanFrom(dates, day, i + 1)
  }

  /**
    What the scan's outcome means: a Found or Unreadable index is preceded only by
    dates other than `day` and is itself `day` or unreadable; Exhausted means every
    remaining date is another day.
  */
  lemma {:induction false} ScanFromMeaning(dates: seq<Option<Date>>, day: Date, i: nat)
    requires i <= |dates|
    ensures var r := ScanFrom(dates, day, i);
            && (r.Found? ==> dates[r.index] == Some(day) && NoneOnDay(dates, day, i, r.index))
            && (r.Unreadable? ==> dates[r.index].None? && NoneOnDay(dates, day, i, r.index))
            && (r.Exhausted? ==> NoneOnDay(dates, day, i, |dates|))
    decreases |dates| - i
  {
    if i < |dates| && dates[i].Some? && dates[i].value != day {
      ScanFromMeaning(dates, day, i + 1);
    }
  }

  /** A scan from `i` that passes only other days up to `j` continues from `j`. */
  lemma {:induction false} ScanSkips(dates: seq<Option<Date>>, day: Date, i: nat, j: nat)
    requires i <= j <= |dates| && NoneOnDay(dates, day, i, j)
    ensures ScanFrom(dates, day, i) == ScanFrom(dates, day, j)
    decreases j - i
  {
    if i < j {
      ScanSkips(dates, day, i + 1, j);
    }
  }

  /** Dates after a match do not change the scan. */
  lemma {:induction false} ScanIgnoresTail(head: seq<Option<Date>>, tail: seq<Option<Date>>, day: Date, i: nat, j: nat)
    requires i <= j < |head| && head[j] == Some(day)
    ensures ScanFrom(head + tail, day, i) == ScanFrom(head, day, i)
    decreases j - i
  {
    assert (head + tail)[i] == head[i];
    if i < j {
      ScanIgnoresTail(head, tail, day, i + 1, j);
    }
  }

  /**
    What `fetch_weather_data(lat, lon, date)` returns or raises, given the answer
    `response` to its request: the `ValueError` of a bad date, `None` on a status other
    than 200, the first timeslot on the day, or `None` when the loop finds none.
  */
  function FetchOutcome(date: string, response: Response): Result<Option<Sample>, FetchError> {
    match ParseDayMonthYear(date)
    case None => Failure(InvalidDate)
    case Some(day) =>
      if response.status != 200 then Success(None)
      else match ScanFrom(SlotDates(response.timeseries), day, 0)
        case Found(i) => Success(Some(SampleOf(response.timeseries[i])))
        case Unreadable(i) => Failure(InvalidTime(i))
        case Exhausted => Success(None)
  }

  /** `fetch_weather_data`: the query for the requested day, the status check and the scan. */
  method FetchWeatherData(date: string, response: Response) returns (r: Result<Option<Sample>, FetchError>)
    ensures r == FetchOutcome(date, response)
  {
    var query := QueryTime(date);
    if query.None? {
      return Failure(InvalidDate);
    }
    // `response` is the service's answer to the request for `query.value`.
    if response.status != 200 {
      return Success(None);
    }
    var scan := FindDay(response.timeseries, ParseDayMonthYear(date).value);
    match scan
    case Found(i) => return Success(Some(SampleOf(response.timeseries[i])));
    case Unreadable(i) => return Failure(InvalidTime(i));
    case Exhausted => return Success(None);
  }

  /** The for loop of lines 41-49 over the time series. */
  method FindDay(series: seq<Timeslot>, day: Date) returns (scan: Scan)
    ensures scan == ScanFrom(SlotDates(series), day, 0)
  {
    ghost var dates := SlotDates(series);
    var i := 0;
    while i < |series|
      invariant 0 <= i <= |series|
      invariant ScanFrom(dates, day, i) == ScanFrom(dates, day, 0)
    {
      var t := InstantDate(series[i].time);
      assert t == dates[i];
      if t.None? {
        return Unreadable(i);
      }
      if t.value == day {
        return Found(i);
      }
      i := i + 1;
    }
    return Exhausted;
  }

  /** A requested date that does not read as `DD-MM-YYYY` raises before any request is made. */
  lemma BadDateRaises(date: string, response: Response)
    requires ParseDayMonthYear(date).None?
    ensures FetchOutcome(date, response) == Failure(InvalidDate)
  {
  }

  /** Lines 50-52: a status other than 200 gives `None`, whatever the body holds. */
  lemma FailedStatusGivesNone(date: string, response: Response)
    requires ParseDayMonthYear(date).Some? && response.status != 200
    ensures FetchOutcome(date, response) == Success(None)
  {
  }

  /**
    When timeslot `i` is the first on the requested day (all before it read as other
    days), the result is built from it: temperature and wind copied from its instant
    details, precipitation from its next-hour block or 0.
  */
  lemma FirstMatchIsReturned(date: string, response: Response, i: nat)
    requires ParseDayMonthYear(date).Some? && response.status == 200
    requires i < |response.timeseries|
    requires InstantDate(response.timeseries[i].time) == ParseDayMonthYear(date)
    requires NoneOnDay(SlotDates(response.timeseries), ParseDayMonthYear(date).value, 0, i)
    ensures FetchOutcome(date, response).Success? && FetchOutcome(date, response).value.Some?
    ensures var s := FetchOutcome(date, response).value.value;
            var slot := response.timeseries[i];
            s.temperature == slot.airTemperature && s.windSpeed == slot.windSpeed
            && s.precipitation == (if slot.nextHourPrecipitation.Some? then slot.nextHourPrecipitation.value else 0.0)
  {
    ScanSkips(SlotDates(response.timeseries), ParseDayMonthYear(date).value, 0, i);
  }

  /** Conversely, a sample is only ever returned from the first timeslot on the requested day. */
  lemma SampleComesFromFirstMatch(date: string, response: Response) returns (i: nat)
    requires FetchOutcome(date, response).Success? && FetchOutcome(date, response).value.Some?
    ensures ParseDayMonthYear(date).Some? && response.status == 200
    ensures i < |response.timeseries|
    ensures InstantDate(response.timeseries[i].time) == ParseDayMonthYear(date)
    ensures NoneOnDay(SlotDates(response.timeseries), ParseDayMonthYear(date).value, 0, i)
    ensures FetchOutcome(date, response).value.value == SampleOf(response.timeseries[i])
  {
    var dates := SlotDates(response.timeseries);
    ScanFromMeaning(dates, ParseDayMonthYear(date).value, 0);
    i := ScanFrom(dates, ParseDayMonthYear(date).value, 0).index;
  }

  /**
    Lines 41-52: with status 200 the result is `None` exactly when every timeslot
    reads as a day other than the requested one (the loop runs out and the function
    falls off its end).
  */
  lemma NoMatchGivesNone(date: string, response: Response)
    requires ParseDayMonthYear(date).Some? && response.status == 200
    ensures FetchOutcome(date, response) == Success(None)
        <==> NoneOnDay(SlotDates(response.timeseries), ParseDayMonthYear(date).value, 0, |response.timeseries|)
  {
    var series, day := SlotDates(response.timeseries), ParseDayMonthYear(date).value;
    ScanFromMeaning(series, day, 0);
    if NoneOnDay(series, day, 0, |series|) {
      ScanSkips(series, day, 0, |series|);
    }
  }

  /** Timeslots after one on the requested day (timeslot `j`) are never looked at. */
  lemma LaterTimeslotsIgnored(date: string, status: int, head: seq<Timeslot>, tail: seq<Timeslot>, j: nat)
    requires j < |head| && ParseDayMonthYear(date).Some?
    requires InstantDate(head[j].time) == ParseDayMonthYear(date)
    ensures FetchOutcome(date, Response(status, head + tail)) == FetchOutcome(date, Response(status, head))
  {
    SlotDatesAppend(head, tail);
    ScanIgnoresTail(SlotDates(head), SlotDates(tail), ParseDayMonthYear(date).value, 0, j);
  }

  lemma SlotDatesAppend(head: seq<Timeslot>, tail: seq<Timeslot>)
    ensures SlotDates(head + tail) == SlotDates(head) + SlotDates(tail)
  {
    var l, r := SlotDates(head + tail), SlotDates(head) + SlotDates(tail);
    forall j | 0 <= j < |l|
      ensures l[j] == r[j]
    {
      assert (head + tail)[j] == if j < |head| then head[j] else tail[j - |head|];
    }
  }

  /**
    The forecast fixture: one timeslot at noon on 15 June 2024 with no `next_1_hours`
    block yields its temperature and wind speed and a precipitation of 0.
  */
  lemma NoonFixture()
    ensures FetchOutcome("15-06-2024", Response(200, [Timeslot("2024-06-15T12:00:00Z", 18.5, 3.2, None)]))
         == Success(Some(Sample(18.5, 3.2, 0.0)))
  {
    var d := Date(2024, 6, 15);
    FixtureDay();
    FixtureInstant();
    var series := [Timeslot("2024-06-15T12:00:00Z", 18.5, 3.2, None)];
    assert SlotDates(series)[0] == Some(d);
    assert ScanFrom(SlotDates(series), d, 0) == Found(0);
  }

  lemma FixtureDay()
    ensures ParseDayMonthYear("15-06-2024") == Some(Date(2024, 6, 15))
  {
    var d := Date(2024, 6, 15);
    FixtureYear();
    assert Pad2(15) == "15" && Pad2(6) == "06";
    assert FormatDayMonthYear(d) == "15-06-2024";
    ParseFormatted(d);
  }

  lemma FixtureYear()
    ensures Pad4(2024) == "2024"
  {
    assert Pad2(20) == "20" && Pad2(24) == "24";
  }

  lemma FixtureInstant()
    ensures InstantDate("2024-06-15T12:00:00Z") == Some(Date(2024, 6, 15))
  {
    var d := Date(2024, 6, 15);
    FixtureIsoDate();
    assert FormatIsoDate(d) + "T12:00:00Z" == "2024-06-15T12:00:00Z";
    NoonInstantDate(d);
  }

  lemma FixtureIsoDate()
    ensures FormatIsoDate(Date(2024, 6, 15)) == "2024-06-15"
  {
    FixtureYear();
    assert Pad2(15) == "15" && Pad2(6) == "06";
  }
}
