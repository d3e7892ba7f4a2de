/**
 * The normalisation half of WeatherService: what getCoordinatesForCity does
 * with a parsed geocoding answer and what getWeatherData does with a parsed
 * forecast answer, plus findCurrentHourIndex and translateDayOfWeek. The
 * HTTP requests and the JSON decoding are not modelled: their results arrive
 * as the records below, and the clock's "now" arrives as a parameter.
 */
module WeatherService {
  import opened Wrappers
  import opened JavaText
  import opened DateTime
  import opened Conditions

  /** A double the code only passes along. */
  type Temperature = real

  // ---------------------------------------------------------------- records

  datatype Coordinates = Coordinates(latitude: real, longitude: real, locationName: string)

  datatype HourlyForecast = HourlyForecast(time: string, temp: Temperature, condition: WeatherCondition)

  datatype DailyForecast = DailyForecast(day: string, maxTemp: Temperature, minTemp: Temperature, condition: WeatherCondition)

  datatype WeatherData = WeatherData(
    city: string,
    currentTemp: Temperature,
    currentCondition: WeatherCondition,
    hourlyForecasts: seq<HourlyForecast>,
    dailyForecasts: seq<DailyForecast>)

  // ---------------------------------------------------------------- parsed answers

  /** One element of the geocoding answer's "results" array; an absent
    * "country" reads as the empty string, as optString(…, "") gives it. */
  datatype GeoResult = GeoResult(latitude: real, longitude: real, name: string, country: string)

  /** The "current" object of the forecast answer. */
  datatype CurrentReading = CurrentReading(temperature: Temperature, weatherCode: int)

  /** The "hourly" object: three parallel arrays. */
  datatype HourlySeries = HourlySeries(time: seq<LocalDateTime>, temperature: seq<Temperature>, weatherCode: seq<int>)
  {
    predicate WellFormed() {
      && |temperature| == |time| && |weatherCode| == |time|
      && forall i :: 0 <= i < |time| ==> ValidDateTime(time[i])
    }
  }

  /** The "daily" object: four parallel arrays. */
  datatype DailySeries = DailySeries(time: seq<Date>, temperatureMax: seq<Temperature>, temperatureMin: seq<Temperature>, weatherCode: seq<int>)
  {
    predicate WellFormed() {
      && |temperatureMax| == |time| && |temperatureMin| == |time| && |weatherCode| == |time|
      && forall i :: 0 <= i < |time| ==> ValidDate(time[i])
    }
  }

  datatype ForecastAnswer = ForecastAnswer(current: CurrentReading, hourly: HourlySeries, daily: DailySeries)

  // ---------------------------------------------------------------- geocoding

  /** The location name getCoordinatesForCity builds: the short name, followed
    * by the country in parentheses when there is one. */
  function CanonicalName(name: string, country: string): (r: string)
    ensures |name| <= |r| && r[..|name|] == name
    ensures r == name <==> country == ""
  {
    if country == "" then name else name + " (" + country + ")"
  }

  /** The part of a location name before the first " (", trimmed: how the
    * window recovers the bare city name it stores as a favourite. */
  function RawName(fullName: string): (r: string)
    ensures IsTrimmed(r)
  {
    if Contains(fullName, " (") then Trim(fullName[..IndexOf(fullName, " (")]) else Trim(fullName)
  }

  /** Cutting the canonical name at its first " (" gives back the trimmed short
    * name, provided the short name does not itself contain " (". */
  lemma {:induction false} RawNameOfCanonicalName(name: string, country: string)
    requires !Contains(name, " (")
    ensures RawName(CanonicalName(name, country)) == Trim(name)
  {
    var full := CanonicalName(name, country);
    if country == "" {
      assert full[..IndexOf(full, " (")] == name;
    } else {
      assert OccursAt(full, " (", |name|) by {
        assert full[|name|..|name| + 2] == " (";
      }
      forall k | 0 <= k < |name| ensures !OccursAt(full, " (", k) {
        if k + 2 <= |name| {
          assert full[k..k + 2] == name[k..k + 2];
          assert !OccursAt(name, " (", k);
        } else {
          assert full[k + 1] == ' ';
        }
      }
      IndexOfIsLeast(full, " (", |name|);
      assert full[..|name|] == name;
    }
  }

  /** getCoordinatesForCity after the request: absent or empty results mean
    * "not found" (null); otherwise only the first result is used. */
  function CoordinatesFromResults(results: Option<seq<GeoResult>>): (r: Option<Coordinates>)
    ensures r.None? <==> results.None? || |results.value| == 0
    ensures r.Some? ==>
      var first := results.value[0];
      r.value == Coordinates(first.latitude, first.longitude, CanonicalName(first.name, first.country))
  {
    if results.None? || |results.value| == 0 then None
    else
      var first := results.value[0];
      Some(Coordinates(first.latitude, first.longitude, CanonicalName(first.name, first.country)))
  }

  /** Results after the first one never change the answer. */
  lemma CoordinatesUseOnlyFirstResult(a: seq<GeoResult>, b: seq<GeoResult>)
    requires |a| > 0 && |b| > 0 && a[0] == b[0]
    ensures CoordinatesFromResults(Some(a)) == CoordinatesFromResults(Some(b))
  {
  }

  // ---------------------------------------------------------------- hour alignment

  /** "isAfter or isEqual" in findCurrentHourIndex. */
  predicate AtOrAfter(t: LocalDateTime, now: LocalDateTime) {
    IsAfter(t, now) || IsEqual(t, now)
  }

  /** The least index whose time is at or after now, |times| if there is none. */
  function FirstAtOrAfter(times: seq<LocalDateTime>, now: LocalDateTime): (r: nat)
    ensures r <= |times|
    ensures r < |times| ==> AtOrAfter(times[r], now)
    ensures forall j :: 0 <= j < r ==> !AtOrAfter(times[j], now)
  {
    if |times| == 0 then 0
    else if AtOrAfter(times[0], now) then 0
    else 1 + FirstAtOrAfter(times[1..], now)
  }

  /** The index findCurrentHourIndex returns: the first time at or after now,
    * falling back to 0 when there is none. */
  function CurrentHourIndex(times: seq<LocalDateTime>, now: LocalDateTime): (r: nat)
    ensures |times| > 0 ==> r < |times|
    ensures |times| == 0 ==> r == 0
  {
    var k := FirstAtOrAfter(times, now);
    if k < |times| then k else 0
  }

  /** CurrentHourIndex is the least index not before now when one exists,
    * and 0 when every time is before now. */
  lemma CurrentHourIndexIsLeast(times: seq<LocalDateTime>, now: LocalDateTime)
    ensures (exists i :: 0 <= i < |times| && AtOrAfter(times[i], now)) ==>
      var r := CurrentHourIndex(times, now);
      r < |times| && AtOrAfter(times[r], now) && forall j :: 0 <= j < r ==> IsBefore(times[j], now)
    ensures (forall i :: 0 <= i < |times| ==> !AtOrAfter(times[i], now)) ==> CurrentHourIndex(times, now) == 0
  {
  }

  /** findCurrentHourIndex, scanning in order and returning at the first hit. */
  method FindCurrentHourIndex(times: seq<LocalDateTime>, now: LocalDateTime) returns (idx: nat)
    ensures idx == CurrentHourIndex(times, now)
    ensures idx < |times| || idx == 0
    ensures idx < |times| && AtOrAfter(times[idx], now) ==> forall j :: 0 <= j < idx ==> !AtOrAfter(times[j], now)
    ensures (idx == 0 && |times| > 0 && !AtOrAfter(times[0], now)) ==> forall j :: 0 <= j < |times| ==> !AtOrAfter(times[j], now)
  {
    for i := 0 to |times|
      invariant forall j :: 0 <= j < i ==> !AtOrAfter(times[j], now)
    {
      if AtOrAfter(times[i], now) {
        assert FirstAtOrAfter(times, now) == i;
        return i;
      }
    }
    assert FirstAtOrAfter(times, now) == |times|;
    return 0;
  }

  // ---------------------------------------------------------------- labels

  /** The Polish weekday abbreviations, Monday first. */
  const DayAbbreviations: seq<string> := ["Pon", "Wt", "Śr", "Czw", "Pt", "Sob", "Ndz"]

  /** translateDayOfWeek: Polish abbreviations for ISO weekdays 1..7, and the
    * empty string for anything else. */
  function TranslateDayOfWeek(day: int): (r: string)
    ensures r == "" <==> !(1 <= day <= 7)
    ensures 1 <= day <= 7 ==> r == DayAbbreviations[day - 1]
  {
    match day
    case 1 => "Pon"
    case 2 => "Wt"
    case 3 => "Śr"
    case 4 => "Czw"
    case 5 => "Pt"
    case 6 => "Sob"
    case 7 => "Ndz"
    case _ => ""
  }

  /** Different weekdays get different abbreviations. */
  lemma TranslateDayOfWeekInjective(a: int, b: int)
    requires 1 <= a <= 7 && 1 <= b <= 7 && a != b
    ensures TranslateDayOfWeek(a) != TranslateDayOfWeek(b)
  {
  }

  /** The label of a daily entry: "<abbreviation> dd.MM". */
  function DayLabel(d: Date): (s: string)
    requires ValidDate(d)
    ensures 8 <= |s| <= 9 && s[|s| - 6] == ' ' && s[|s| - 3] == '.'
  {
    TranslateDayOfWeek(DayOfWeek(d)) + " " + FormatDayMonth(d)
  }

  /** A day label starts with the weekday's abbreviation and ends with the
    * day and month, which can be read back from it. */
  lemma DayLabelParts(d: Date)
    requires ValidDate(d)
    ensures var s := DayLabel(d); var n := |s|;
      && s[..n - 6] == TranslateDayOfWeek(DayOfWeek(d))
      && ReadPad2(s[n - 5..n - 3]) == d.day
      && ReadPad2(s[n - 2..]) == d.month
  {
    FormatDayMonthRoundTrip(d);
  }

  lemma DayLabelExample()
    ensures DayLabel(Date(2024, 5, 15)) == "Śr 15.05"
  {
    DayOfWeekExamples();
    assert FormatDayMonth(Date(2024, 5, 15)) == "15.05";
  }

  // ---------------------------------------------------------------- entries

  /** The hourly entry getWeatherData builds from source index i. */
  function HourlyEntry(h: HourlySeries, i: nat): (r: HourlyForecast)
    requires h.WellFormed() && i < |h.time|
    ensures |r.time| == 5 && r.time[2] == ':'
    ensures r.temp == h.temperature[i]
    ensures r.condition in Returnable && (r.condition == Unknown <==> !InAnyRange(h.weatherCode[i]))
  {
    HourlyForecast(FormatHourMinute(h.time[i]), h.temperature[i], FromCode(h.weatherCode[i]))
  }

  /** The daily entry getWeatherData builds from source index i. */
  function DailyEntry(d: DailySeries, i: nat): (r: DailyForecast)
    requires d.WellFormed() && i < |d.time|
    ensures 8 <= |r.day| <= 9
    ensures r.maxTemp == d.temperatureMax[i] && r.minTemp == d.temperatureMin[i]
    ensures r.condition in Returnable && (r.condition == Unknown <==> !InAnyRange(d.weatherCode[i]))
  {
    DailyForecast(DayLabel(d.time[i]), d.temperatureMax[i], d.temperatureMin[i], FromCode(d.weatherCode[i]))
  }

  function Min(a: int, b: int): int {
    if a <= b then a else b
  }

  /** The first loop of getWeatherData: entries from idx on, at most 24. */
  method BuildHourly(h: HourlySeries, idx: nat) returns (hourlyList: seq<HourlyForecast>)
    requires h.WellFormed() && (idx < |h.time| || idx == 0)
    ensures |hourlyList| == Min(24, |h.time| - idx)
    ensures forall j :: 0 <= j < |hourlyList| ==> idx + j < |h.time| && hourlyList[j] == HourlyEntry(h, idx + j)
  {
    hourlyList := [];
    for i := idx to Min(idx + 24, |h.time|)
      invariant |hourlyList| == i - idx
      invariant forall j :: 0 <= j < |hourlyList| ==> hourlyList[j] == HourlyEntry(h, idx + j)
    {
      var entry := HourlyForecast(FormatHourMinute(h.time[i]), h.temperature[i], FromCode(h.weatherCode[i]));
      assert entry == HourlyEntry(h, i);
      hourlyList := hourlyList + [entry];
    }
  }

  /** The second loop of getWeatherData: one entry per day, in order. */
  method BuildDaily(d: DailySeries) returns (dailyList: seq<DailyForecast>)
    requires d.WellFormed()
    ensures |dailyList| == |d.time|
    ensures forall i :: 0 <= i < |dailyList| ==> dailyList[i] == DailyEntry(d, i)
  {
    dailyList := [];
    for i := 0 to |d.time|
      invariant |dailyList| == i
      invariant forall j :: 0 <= j < i ==> dailyList[j] == DailyEntry(d, j)
    {
      var dayName := TranslateDayOfWeek(DayOfWeek(d.time[i]));
      var entry := DailyForecast(dayName + " " + FormatDayMonth(d.time[i]), d.temperatureMax[i], d.temperatureMin[i], FromCode(d.weatherCode[i]));
      assert entry == DailyEntry(d, i);
      dailyList := dailyList + [entry];
    }
  }

  /** getWeatherData after the request: the window of at most 24 hours from
    * the current hour, every day in source order, the city name unchanged. */
  method GetWeatherData(cityName: string, answer: ForecastAnswer, now: LocalDateTime) returns (data: WeatherData)
    requires answer.hourly.WellFormed() && answer.daily.WellFormed()
    ensures data.city == cityName
    ensures data.currentTemp == answer.current.temperature
    ensures data.currentCondition == FromCode(answer.current.weatherCode)
    ensures var h, idx := answer.hourly, CurrentHourIndex(answer.hourly.time, now);
      && |data.hourlyForecasts| == Min(24, |h.time| - idx) <= 24
      && forall j :: 0 <= j < |data.hourlyForecasts| ==> idx + j < |h.time| && data.hourlyForecasts[j] == HourlyEntry(h, idx + j)
    ensures |data.dailyForecasts| == |answer.daily.time|
    ensures forall i :: 0 <= i < |data.dailyForecasts| ==> data.dailyForecasts[i] == DailyEntry(answer.daily, i)
  {
    var currentHourIndex := FindCurrentHourIndex(answer.hourly.time, now);
    var hourlyList := BuildHourly(answer.hourly, currentHourIndex);
    var dailyList := BuildDaily(answer.daily);
    data := WeatherData(cityName, answer.current.temperature, FromCode(answer.current.weatherCode), hourlyList, dailyList);
  }

  /** When some time is at or after now, the hourly window is not empty and
    * starts at the first such time, every earlier time being strictly before
    * now. */
  lemma HourlyWindowStartsAtNow(h: HourlySeries, now: LocalDateTime)
    requires h.WellFormed()
    ensures (exists i :: 0 <= i < |h.time| && AtOrAfter(h.time[i], now)) ==>
      var idx := CurrentHourIndex(h.time, now);
      && Min(24, |h.time| - idx) > 0
      && !IsBefore(h.time[idx], now)
      && forall j :: 0 <= j < idx ==> IsBefore(h.time[j], now)
  {
  }
}
