# atmo weather viewer: a verified model of its core

atmo is a desktop weather viewer. Its non-UI core does three things, and this
project models all three in Dafny:

- **Weather-code classifier** (`Conditions`). The `WeatherCondition` enumeration
  has twenty constants. Each has a declared code, a Polish description and an
  icon file. `fromCode` maps an integer weather code to a constant using five
  range rules.
- **Forecast normalisation** (`WeatherService`, using `DateTime` and `JavaText`).
  Geocoding turns a parsed "results" array into coordinates plus the canonical
  name `"name (country)"`, or into "not found". The forecast step locates the
  current hour in the hourly series, takes a window of at most 24 hours, and
  labels each day as `"<weekday> dd.MM"`.
- **Favourites store** (`Favorites`). A class whose `favorites` sequence is
  updated in place by add, remove and clear, plus a membership test and a copy-out.

Modules:

- `Wrappers`: `Option`, which stands for a Java reference that may be null.
- `JavaText`: the `java.lang.String` operations the core relies on —
  `trim`, `isBlank`, `equalsIgnoreCase` and `indexOf`/`contains`.
- `Conditions`: the enumeration and `FromCode`.
- `DateTime`: `LocalDate`/`LocalDateTime` values, their ordering, the ISO weekday
  (proleptic Gregorian, as `java.time` uses), and the `HH:mm` and `dd.MM` patterns.
- `WeatherService`: the records, geocoding, `findCurrentHourIndex`,
  `translateDayOfWeek` and `getWeatherData`.
- `Favorites`: specification functions over a list of names, and the
  `FavoritesManager` class.

Modelling notes:

- `fromCode` consists of the five range rules and nothing else. The declared `code`
  of a constant is never consulted. Codes 0–3, 45 and 48 have constants of their
  own, but `fromCode` never returns those constants: these codes yield `Unknown`.
- `trim` and `isBlank` use different character classes in Java. `trim` strips
  characters at or below U+0020. `isBlank` uses `Character.isWhitespace`. The model
  keeps both. One consequence is proved as `ControlCharacterAddsEmptyEntry`:
  adding a lone NUL character stores an empty favourite. So the store's invariant
  covers "trimmed" and "no case-insensitive duplicates", not "non-empty".
- `removeFavorite(null)` raises `NullPointerException` only when the list has an
  entry, because `city.trim()` runs inside the `removeIf` predicate. The model
  returns `raised` in that case and leaves the list unchanged.
- The clock is a parameter: `now` is passed to `FindCurrentHourIndex` and
  `GetWeatherData`. No time-zone conversion happens, as in the code.
- Temperatures, latitudes and longitudes are `real` values that are passed through
  untouched.

## Model

| member | source | states |
|---|---|---|
| `Conditions.FromCode` | src/main/java/org/atmo/atmo/WeatherCondition.java:47-54 | total; the result is one of the six returnable constants, and it is `Unknown` exactly when the code lies in none of the five ranges |
| `Conditions.FromCodeRanges` | src/main/java/org/atmo/atmo/WeatherCondition.java:48-52 | for each range, a code maps to its constant if and only if it lies in that range ([51,67] rain, [71,77] snow, [80,82] rain showers, [85,86] snow showers, [95,99] thunderstorm) |
| `Conditions.RangesDisjoint` | src/main/java/org/atmo/atmo/WeatherCondition.java:48-53 | no code lies in two ranges, so the order of the tests does not change the result |
| `Conditions.FromCodeImage` | src/main/java/org/atmo/atmo/WeatherCondition.java:4-27 | a constant is returned for some code exactly when it is one of the six returnable ones; `Clear`, the drizzles, `ThunderstormHail`, `SnowLight` and the rest never are |
| `Conditions.UnlistedCodesAreUnknown` | src/main/java/org/atmo/atmo/WeatherCondition.java:53 | codes 0, 1, 2, 3, 45, 48 and 999 all yield `Unknown` |
| `Conditions.FromCodeIgnoresDeclaredCode` | src/main/java/org/atmo/atmo/WeatherCondition.java:16 | `FromCode(51)` is the constant declared with 63; the returned constant carries the code it was asked for only for -1, 63, 73, 80, 85 and 95 |
| `Conditions.FromCodeExamples` | src/main/java/org/atmo/atmo/WeatherCondition.java:39-45 | 51, 53 and 61 give `RainModerate` with icon `rain.png` and description "Umiarkowany deszcz"; `Unknown` has "Nieznane" and `cloud.png` |
| `Conditions.WeatherCondition.Code` | src/main/java/org/atmo/atmo/WeatherCondition.java:4-29 | the declared code lies in -1..99 and is -1 exactly for `Unknown`; for each constant `fromCode` can return, `fromCode` of its declared code gives it back |
| `Conditions.WeatherCondition.IconFileName` | src/main/java/org/atmo/atmo/WeatherCondition.java:43-45 | every constant's icon is one of `sun.png`, `cloud.png`, `rain.png`, `snow.png` |
| `Conditions.WeatherCondition.Description` | src/main/java/org/atmo/atmo/WeatherCondition.java:39-41 | every constant has a non-empty description |
| `Conditions.TableInjective` | src/main/java/org/atmo/atmo/WeatherCondition.java:4-27 | distinct constants have distinct declared codes and distinct descriptions |
| `JavaText.Trim` | src/main/java/org/atmo/atmo/FavoritesManager.java:26 | the result is a middle slice `s[a..b]` of the input such that every character before `a` and from `b` on is at or below U+0020, and the result neither starts nor ends with such a character |
| `JavaText.TrimStart` | src/main/java/org/atmo/atmo/FavoritesManager.java:26 | the result is a suffix of the input, every dropped character is at or below U+0020, and the first kept one is above it |
| `JavaText.TrimEnd` | src/main/java/org/atmo/atmo/FavoritesManager.java:26 | the result is a prefix of the input, every dropped character is at or below U+0020, and the last kept one is above it |
| `JavaText.TrimIdempotent` | src/main/java/org/atmo/atmo/FavoritesManager.java:26 | trimming a trimmed string changes nothing |
| `JavaText.TrimOfTrimmed` | src/main/java/org/atmo/atmo/FavoritesManager.java:26 | a string that neither starts nor ends with a trimmable character is its own trim |
| `JavaText.IsBlank` | src/main/java/org/atmo/atmo/FavoritesManager.java:24 | the empty string is blank, and a string is blank exactly when every character in it is `Character.isWhitespace` |
| `JavaText.AsciiBlankTrimsToEmpty` | src/main/java/org/atmo/atmo/FavoritesManager.java:24-26 | a blank string made of ASCII characters trims to the empty string |
| `JavaText.BlankSurvivesTrim` | src/main/java/org/atmo/atmo/FavoritesManager.java:24-26 | U+2000 alone is blank, yet `trim` leaves it unchanged: above ASCII the two character classes differ |
| `JavaText.EqualsIgnoreCase` | src/main/java/org/atmo/atmo/FavoritesManager.java:32-38 | equal strings are equal ignoring case, and strings equal ignoring case have the same length |
| `JavaText.EqualsIgnoreCaseSymmetric` | src/main/java/org/atmo/atmo/FavoritesManager.java:38 | case-insensitive equality is symmetric |
| `JavaText.EqualsIgnoreCaseTransitive` | src/main/java/org/atmo/atmo/FavoritesManager.java:38 | case-insensitive equality is transitive; with reflexivity it is an equivalence |
| `JavaText.IndexOf` | HelloController.java:117 | the least index at which the pattern occurs, or the length of the string when it occurs nowhere |
| `DateTime.Compare` | src/main/java/org/atmo/atmo/WeatherService.java:134 | lexicographic comparison of year, month, day, hour, minute, second and nanosecond; zero exactly for equal date-times |
| `DateTime.IsAfter` | src/main/java/org/atmo/atmo/WeatherService.java:134 | `a` is after `b` exactly when `b` is before `a` |
| `DateTime.IsEqual` | src/main/java/org/atmo/atmo/WeatherService.java:134 | `isEqual` holds exactly for identical date-times |
| `DateTime.IsBefore` | src/main/java/org/atmo/atmo/WeatherService.java:134 | a date-time is never before itself |
| `DateTime.IsBeforeTransitive` | src/main/java/org/atmo/atmo/WeatherService.java:134 | the date-time order is transitive |
| `DateTime.IsBeforeTotal` | src/main/java/org/atmo/atmo/WeatherService.java:134 | any two date-times are ordered one way, or equal, and never both ways |
| `DateTime.AtOrAfterIsNotBefore` | src/main/java/org/atmo/atmo/WeatherService.java:134 | "isAfter or isEqual" holds exactly when the time is not before |
| `DateTime.DayOfWeek` | src/main/java/org/atmo/atmo/WeatherService.java:117 | the ISO weekday lies in 1..7 |
| `DateTime.NextDay` | src/main/java/org/atmo/atmo/WeatherService.java:116-117 | the day after a valid date is valid; within a month the day advances by one, and otherwise the month ends there and the next date is day 1 of the following month in the same year, or 1 January of the next year after December |
| `DateTime.EpochDayNextDay` | src/main/java/org/atmo/atmo/WeatherService.java:116-117 | the day count advances by exactly one to the next calendar day, across month ends, year ends and leap days |
| `DateTime.MarchToMarch` | src/main/java/org/atmo/atmo/WeatherService.java:116-117 | a year counted from March has 366 days exactly when the following year is a leap year |
| `DateTime.DayOfWeekNextDay` | src/main/java/org/atmo/atmo/WeatherService.java:117 | the next calendar day has the next weekday, with Monday after Sunday |
| `DateTime.DayOfWeekExamples` | src/main/java/org/atmo/atmo/WeatherService.java:117 | 1970-01-01 is a Thursday (4) and 2024-05-15 a Wednesday (3) |
| `DateTime.Pad2RoundTrip` | src/main/java/org/atmo/atmo/WeatherService.java:98 | a zero-padded two-digit field reads back as the number it was made from |
| `DateTime.FormatHourMinute` | src/main/java/org/atmo/atmo/WeatherService.java:98 | the `HH:mm` label has five characters with ':' in the middle |
| `DateTime.FormatHourMinuteRoundTrip` | src/main/java/org/atmo/atmo/WeatherService.java:98 | the `HH:mm` label reads back as its hour and minute, and two labels are equal exactly when hour and minute agree |
| `DateTime.FormatDayMonth` | src/main/java/org/atmo/atmo/WeatherService.java:120 | the `dd.MM` label has five characters with '.' in the middle |
| `DateTime.FormatDayMonthRoundTrip` | src/main/java/org/atmo/atmo/WeatherService.java:120 | the `dd.MM` label reads back as its day and month |
| `WeatherService.CanonicalName` | src/main/java/org/atmo/atmo/WeatherService.java:59-62 | the short name is a prefix of the canonical name, and the two are equal exactly when the country is empty |
| `WeatherService.RawName` | HelloController.java:117 | the bare name cut from a location name is trimmed |
| `WeatherService.RawNameOfCanonicalName` | HelloController.java:117 | cutting `name (country)` at its first " (" and trimming gives back the trimmed name, provided the name has no " (" of its own |
| `WeatherService.CoordinatesFromResults` | src/main/java/org/atmo/atmo/WeatherService.java:46-64 | not found exactly when results are absent or empty; otherwise the first result's coordinates with its canonical name |
| `WeatherService.CoordinatesUseOnlyFirstResult` | src/main/java/org/atmo/atmo/WeatherService.java:52 | two result lists with the same first element give the same answer |
| `WeatherService.FirstAtOrAfter` | src/main/java/org/atmo/atmo/WeatherService.java:132-135 | the least index whose time is at or after now; every earlier time is not |
| `WeatherService.CurrentHourIndex` | src/main/java/org/atmo/atmo/WeatherService.java:130-137 | within the series when it is non-empty, 0 when it is empty |
| `WeatherService.CurrentHourIndexIsLeast` | src/main/java/org/atmo/atmo/WeatherService.java:130-137 | when some time is at or after now, the index is the least such one and every earlier time is strictly before now; otherwise 0 |
| `WeatherService.FindCurrentHourIndex` | src/main/java/org/atmo/atmo/WeatherService.java:130-137 | the scan returns `CurrentHourIndex`: the first hit when there is one, else 0 |
| `WeatherService.TranslateDayOfWeek` | src/main/java/org/atmo/atmo/WeatherService.java:139-145 | weekdays 1..7 map to Pon, Wt, Śr, Czw, Pt, Sob, Ndz in that order; the result is the empty string exactly for other values |
| `WeatherService.TranslateDayOfWeekInjective` | src/main/java/org/atmo/atmo/WeatherService.java:139-145 | distinct weekdays get distinct abbreviations |
| `WeatherService.DayLabel` | src/main/java/org/atmo/atmo/WeatherService.java:117-120 | a daily label has 8 or 9 characters, with a space six characters from the end and '.' three from the end |
| `WeatherService.DayLabelParts` | src/main/java/org/atmo/atmo/WeatherService.java:117-120 | a daily label is the weekday abbreviation, a space and `dd.MM`, and the day and month read back from it |
| `WeatherService.DayLabelExample` | src/main/java/org/atmo/atmo/WeatherService.java:117-120 | 2024-05-15 is labelled "Śr 15.05" |
| `WeatherService.HourlyEntry` | src/main/java/org/atmo/atmo/WeatherService.java:96-104 | the entry's time is a five-character `HH:mm` label, its temperature is the source's, and its condition is a returnable one, `Unknown` exactly when the code is in no range |
| `WeatherService.DailyEntry` | src/main/java/org/atmo/atmo/WeatherService.java:114-124 | the entry's label has the `DayLabel` length, its maximum and minimum are the source's, and its condition is a returnable one, `Unknown` exactly when the code is in no range |
| `WeatherService.BuildHourly` | src/main/java/org/atmo/atmo/WeatherService.java:93-105 | min(24, len − idx) entries, entry j built from source index idx + j (its `HH:mm`, its temperature, `FromCode` of its code) |
| `WeatherService.BuildDaily` | src/main/java/org/atmo/atmo/WeatherService.java:113-125 | one entry per day in source order, entry i built from index i's label, maximum, minimum and `FromCode` of its code |
| `WeatherService.GetWeatherData` | src/main/java/org/atmo/atmo/WeatherService.java:67-128 | the city name unchanged, the current temperature, `FromCode` of the current code, the hourly window of at most 24 entries from `CurrentHourIndex`, every day in order |
| `WeatherService.HourlyWindowStartsAtNow` | src/main/java/org/atmo/atmo/WeatherService.java:94-95 | when some time is at or after now, the window is non-empty and starts at a time not before now, every skipped time being before now |
| `Favorites.IsFavoriteIn` | src/main/java/org/atmo/atmo/FavoritesManager.java:36-39 | false for null; otherwise true exactly when some entry equals the trimmed argument ignoring case |
| `Favorites.AnyMatch` | src/main/java/org/atmo/atmo/FavoritesManager.java:38 | true exactly when some entry equals the key ignoring case |
| `Favorites.Without` | src/main/java/org/atmo/atmo/FavoritesManager.java:32 | no kept entry matches the key, every kept entry comes from the list, every non-matching entry is kept, and each non-matching value is kept as many times as it occurs (matching ones zero times) |
| `Favorites.WithoutIsSubsequence` | src/main/java/org/atmo/atmo/FavoritesManager.java:32 | removal keeps the remaining entries in their original order |
| `Favorites.WithoutIsNotFavorite` | src/main/java/org/atmo/atmo/FavoritesManager.java:31-38 | after removing c, c is not a favourite |
| `Favorites.WithoutKeepsInvariant` | src/main/java/org/atmo/atmo/FavoritesManager.java:32 | removal keeps "trimmed, no two entries equal ignoring case" |
| `Favorites.SubsequenceOfTail` | src/main/java/org/atmo/atmo/FavoritesManager.java:32 | a subsequence of the tail is a subsequence of the list |
| `Favorites.Added` | src/main/java/org/atmo/atmo/FavoritesManager.java:23-29 | a null or blank argument, or one already a favourite, leaves the list unchanged; otherwise its trim is appended at the end and the old entries stay |
| `Favorites.AddedIsFavorite` | src/main/java/org/atmo/atmo/FavoritesManager.java:23-39 | after adding a non-blank c, c and every case variant of it are favourites |
| `Favorites.AddedIdempotent` | src/main/java/org/atmo/atmo/FavoritesManager.java:25 | adding twice is the same as adding once |
| `Favorites.AddedKeepsInvariant` | src/main/java/org/atmo/atmo/FavoritesManager.java:25-26 | adding keeps "trimmed, no two entries equal ignoring case" |
| `Favorites.ClearedIsEmpty` | src/main/java/org/atmo/atmo/FavoritesManager.java:63-65 | the cleared list satisfies the invariant and holds no favourite |
| `Favorites.WarsawRoundTrip` | src/main/java/org/atmo/atmo/FavoritesManager.java:23-39 | add "Warsaw", then "warsaw" is a favourite; remove it, then it is not |
| `Favorites.ControlCharacterAddsEmptyEntry` | src/main/java/org/atmo/atmo/FavoritesManager.java:24-26 | a lone NUL passes the blank check and is stored as the empty string |
| `Favorites.FavoritesManager.IsFavorite` | src/main/java/org/atmo/atmo/FavoritesManager.java:36-39 | false for null; otherwise true exactly when some entry equals the trimmed argument ignoring case |
| `Favorites.FavoritesManager.AddFavorite` | src/main/java/org/atmo/atmo/FavoritesManager.java:23-29 | the new list is `Added` of the old one, and the invariant is kept |
| `Favorites.FavoritesManager.RemoveFavorite` | src/main/java/org/atmo/atmo/FavoritesManager.java:31-34 | null raises exactly when the list is non-empty and changes nothing; otherwise the new list is `Without` of the old one at the trimmed key, and the invariant is kept |
| `Favorites.FavoritesManager.GetFavorites` | src/main/java/org/atmo/atmo/FavoritesManager.java:41 | returns a copy equal to the current list |
| `Favorites.FavoritesManager.ClearAll` | src/main/java/org/atmo/atmo/FavoritesManager.java:63-65 | the list is empty afterwards and satisfies the invariant |
| `Favorites.FavoritesManager.constructor` | src/main/java/org/atmo/atmo/FavoritesManager.java:14-16 | the store starts from the given list, as loading leaves it |

## Left out

- HTTP requests, URL building and URL encoding in `getCoordinatesForCity` and `getWeatherData`: network I/O. The model starts from the parsed answers.
- JSON decoding with org.json, a foreign library. Parsed answers are records, and the forecast's parallel arrays are sequences. A missing array raises `JSONException`. So does a shorter one, but only when the loop reads past its end; longer arrays are ignored. `WellFormed` requires equal lengths, which excludes those accepted inputs.
- Timestamp parsing with `LocalDateTime.parse` and `LocalDate.parse`, which are `java.time` internals. Times arrive as valid date-time values, so the `DateTimeParseException` path is not modelled.
- `LocalDateTime.now()`: the clock is the `now` parameter.
- The latitude and longitude strings passed to `getWeatherData`: they only go into the request URL.
- `String.valueOf(double)` and any arithmetic on temperatures and coordinates. These doubles are passed through unchanged as `real`.
- `JavaText.FoldCase`: Java's full Unicode case mapping in `equalsIgnoreCase` is replaced by a fold of ASCII, Latin-1 and Polish letters. On those letters Java's upper-then-lower comparison gives the same answer.
- `JavaText.IsWhitespace`: follows `Character.isWhitespace` for code points only, not for UTF-16 surrogate pairs.
- Favourites persistence (`saveToFile`, `loadFromFile`) and the synchronized singleton `getInstance`: file I/O and global state. The constructor takes the loaded list as it is, so `Valid` holds initially only when that list satisfies it.
- `WeatherService.RawName`: when a name consists only of " (" separators, Java's `split` returns an empty array and indexing it raises; such a name cannot come out of `CanonicalName` with a non-empty country, and the model does not capture the exception.
- The window code in both HelloController.java files, Main.java and module-info.java: JavaFX UI, ad-hoc threads and `Platform.runLater`. This includes the geocode-then-fetch sequence that stops on "not found". Only the raw-name cut at HelloController.java:117 is modelled.
- The test files: they are used as evidence for properties, not modelled as code.
