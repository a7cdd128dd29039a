# Weather map page: forecast request and forecast shaping

This project models the logic of the weather map page `src/app/page.tsx`. The page
asks the Korea Meteorological Administration's short-term forecast service for the
grid cell the user clicked, then turns the answer into what it shows. The model has
four parts, each with the clock and the network replaced by parameters:

- **BaseTime**: `getBaseTimeHourly`. It scans the eight daily publication slots
  (`0200` … `2300`) from latest to earliest and returns the first slot whose hour
  the current hour has reached. When no slot has been reached it returns `2300`. The
  scan is a method with its loop. `BaseTimeFor` gives the same answer in closed
  form: the start of the three-hour window that holds the hour, or 23:00 before
  02:00.
- **BaseDate**: the `base_date` parameter, `yyyy` + `mm` + `dd`. It is built from the
  year, `String(month + 1).padStart(2, '0')` and `String(day).padStart(2, '0')`.
  `ParseBaseDate` is its inverse. The round trip is proved for four-digit years and
  real months and days. At hours 0 and 1 the page asks for the 23:00 slot of the
  date it read, not of the day before. When both clock readings fall on the same
  day, that slot has not been published yet. The model keeps this behaviour and
  states it as a lemma.
- **Sky**: `skyDescription`, the label shown for a sky-state code, with its default
  branch.
- **Forecast**: the shaping step of `fetchWeather`.
  - An absent item list gives no snapshot and the `idle` load state.
  - Any list, empty or not, is scanned once.
  - TMP, REH, WSD and SKY keep the first value that is truthy, that is, not `""`. A
    category that only came with empty values keeps `""`. One that never came stays
    undefined.
  - Every POP item becomes an entry `{time, value + '%'}`, and the series is cut to
    its first eight entries.
  - Temperature, humidity and wind get the units `°C`, `%` and ` m/s`. A missing
    value is shown as JavaScript shows it, `"undefined"` followed by the unit.
  - The scan is a method with its loop. `SnapshotOf` is the declarative
    specification it is proved against, and the lemmas state first-wins,
    no-replacement, the ignored categories and the shape of the series.
- **JsText** holds the JavaScript string built-ins the page uses, limited to the
  inputs it gives them: `String(n)`, `parseInt` on digit strings, `slice(0, n)`,
  `padStart` and `+` with a possibly undefined left operand.

An empty item list is not treated as missing data. The code tests `!items`, and an
empty array is truthy in JavaScript, so an empty list is shaped into a snapshot of
undefined conditions and an empty series. `Forecast.ShapeForecast` returns `Done`
for `Some([])`, and `Forecast.EmptyListSnapshot` states the snapshot it gets.

## Model

| member | source | states |
|---|---|---|
| BaseTime.GetBaseTimeHourly | src/app/page.tsx:50-60 | the result is one of the eight slot codes; when some slot has been reached, the result has been reached and starts no earlier than any reached slot; when none has been reached, it is "2300"; it equals the closed form BaseTimeFor |
| BaseTime.BaseTimeFor | src/app/page.tsx:53-59 | the closed form of the scan always yields one of the eight slot codes |
| BaseTime.SlotHour | src/app/page.tsx:55 | parseInt(code.slice(0, 2)) is NaN or a number below 100 |
| BaseTime.SlotHourOfDigits | src/app/page.tsx:55 | parseInt(code.slice(0, 2)) of a code that starts with two digits is the number those digits spell |
| BaseTime.SlotHours | src/app/page.tsx:53-55 | the k-th slot code starts at hour 2 + 3k |
| BaseTime.LatestReachedIsClosedForm | src/app/page.tsx:54-57 | the slot where the descending scan stops, the latest one the hour has reached, is the closed form's slot |
| BaseTime.NoneReachedIsEarly | src/app/page.tsx:54-59 | an hour that has reached no slot is before 02:00, and the closed form then falls back to "2300" |
| BaseTime.SlotWindow | src/app/page.tsx:53-59 | for hours 0..23 the chosen slot has been reached exactly when the hour is 2 or later; from 02:00 it started less than three hours earlier; before 02:00 it is the 23:00 slot |
| Sky.SkyDescription | src/app/page.tsx:62-73 | "1", "3" and "4" map to their own labels, each label only for its code, and every other code, absent included, maps to the default label |
| JsText.NumberToString | src/app/page.tsx:86-87 | String(n) is all digits for n >= 0 and a '-' followed by digits for n < 0 |
| JsText.NatToDecimalValue | src/app/page.tsx:86-87 | String(n) spells n and has no leading zero |
| JsText.DecimalWidth | src/app/page.tsx:86-87 | String(n) has exactly k characters when n has k decimal digits |
| JsText.ParseInt | src/app/page.tsx:55 | parseInt of a digit string is a number below 10^length; it is NaN exactly when the string is empty or not all digits |
| JsText.ParseIntOfNumberToString | src/app/page.tsx:55 | parseInt(String(n)) == n for n >= 0 |
| JsText.Slice | src/app/page.tsx:55 | slice(0, n) is a prefix of length min(n, length) |
| JsText.PadStart | src/app/page.tsx:86-87 | padStart reaches the width, keeps the string as its suffix and fills the front with the fill character |
| JsText.LeadingZeros | src/app/page.tsx:86-87 | leading zeros do not change the value of a digit string |
| JsText.PadStartValue | src/app/page.tsx:86-87 | padding a digit string with '0' keeps it all digits and keeps its value |
| JsText.PlusString | src/app/page.tsx:119-121 | value + unit ends with the unit; a present value is its prefix; undefined is spelled "undefined" |
| BaseDate.FormatBaseDate | src/app/page.tsx:84-88 | the base date starts with the year's spelling and has at least four more characters, the two padded fields; BaseDateRoundTrip proves it has eight digits that read back as the date |
| BaseDate.ParseBaseDate | src/app/page.tsx:88 | the reading of a base date succeeds exactly on eight-digit strings, with the fields in range |
| BaseDate.FourDigitYear | src/app/page.tsx:85-88 | a four-digit year is written as four digits that spell it |
| BaseDate.TwoDigitField | src/app/page.tsx:86-87 | a month or day from 1 to 99, padded to two, is two digits that spell it |
| BaseDate.BaseDateRoundTrip | src/app/page.tsx:84-88 | for a four-digit year and a real month and day, the base date has eight characters and reads back as (year, month, day) |
| BaseDate.RequestStamp | src/app/page.tsx:84-89 | the requested base time is always one of the eight slot codes |
| BaseDate.EarlyHoursKeepClockDate | src/app/page.tsx:84-89 | at hours 0 and 1 the page requests the clock's own date with slot "2300", a slot the hour has not reached: the date is not moved back |
| Forecast.ShapeForecast | src/app/page.tsx:97-125 | an absent item list gives no snapshot and the idle state; any present list gives the done state and exactly the snapshot SnapshotOf describes |
| Forecast.SnapshotOf | src/app/page.tsx:118-123 | temperature, humidity and wind end with their units, SKY is present exactly when a SKY item came, and the series is a prefix of the uncut one with at most eight entries; FirstSupplierShown, BlankOnlyShown, MissingShown and RainSeriesShown state each field exactly |
| Forecast.Stored | src/app/page.tsx:105-112 | a category has a stored value exactly when it came in the list; the stored value is "" only when no item of the category had a non-empty value |
| Forecast.CurrentRecord | src/app/page.tsx:105-112 | the record's keys are among TMP, REH, WSD and SKY |
| Forecast.RecordKeys | src/app/page.tsx:105-112 | the record has a key for exactly the current-conditions categories that came in the list |
| Forecast.RainAll | src/app/page.tsx:106-115 | the uncut series has at most one entry per item; RainAllLength, RainAllAt and RainAllFrom give its entries exactly |
| Forecast.RainShown | src/app/page.tsx:123 | the shown series is a prefix of the uncut one, of length min(8, its length) |
| Forecast.FirstTruthy | src/app/page.tsx:108-112 | the value kept for a category is truthy |
| Forecast.FirstTruthyAppend | src/app/page.tsx:108-112 | scanning s then t keeps s's value when s supplies one, otherwise t's |
| Forecast.FirstTruthyAt | src/app/page.tsx:108-112 | the value kept is that of the first item, in input order, of that category with a non-empty value |
| Forecast.FirstTruthyNone | src/app/page.tsx:108-112 | no value is kept exactly when no item of that category has a non-empty value |
| Forecast.StoredStep | src/app/page.tsx:110-111 | one more item sets its own category, and only while that category's stored value is undefined or "" |
| Forecast.RecordStep | src/app/page.tsx:108-112 | the record after one more item is the loop body's update of the record before it |
| Forecast.LaterItemsDoNotReplace | src/app/page.tsx:111 | a later item never replaces a stored non-empty value |
| Forecast.IgnoredCategoryChangesNothing | src/app/page.tsx:108-116 | an item outside TMP/REH/WSD/SKY/POP changes neither the record nor the series |
| Forecast.FirstSupplierShown | src/app/page.tsx:108-122 | each current condition is shown as the first non-empty value of its category plus its unit, and SKY unchanged |
| Forecast.BlankOnlyShown | src/app/page.tsx:111-122 | a category that came only with empty values is stored as "" and shown as the bare unit |
| Forecast.MissingShown | src/app/page.tsx:118-122 | a category that never came is undefined: "undefined°C", "undefined%", "undefined m/s", and SKY absent |
| Forecast.CountAppend | src/app/page.tsx:113-115 | one more item adds one to its own category's count and nothing to another's |
| Forecast.RainAllLength | src/app/page.tsx:113-115 | the uncut series has one entry per POP item |
| Forecast.RainAllAt | src/app/page.tsx:113-115 | each POP item's entry sits at the position that counts the POP items before it |
| Forecast.RainAllFrom | src/app/page.tsx:113-115 | each entry of the uncut series comes from a POP item, at the position that counts the POP items before it |
| Forecast.RainSeriesShown | src/app/page.tsx:113-123 | the shown series is the uncut one cut to eight: its length is min(#POP, 8), it is a prefix of the uncut series, and each of the first eight POP items sits at its position |
| Forecast.EmptyListSnapshot | src/app/page.tsx:97-124 | an empty item list is shaped, not rejected: its snapshot has undefined conditions and no series |
| Forecast.HourLabel | src/app/page.tsx:195 | the hour label is a prefix of the forecast time, with two characters whenever the time has two |

## Left out

- convertToGrid (src/app/page.tsx:12-48): a projection computed with floating-point trigonometry. The grid coordinates do not enter the model.
- The fetch call, the URL and query string, the service key and JSON decoding (src/app/page.tsx:91-96): network I/O. The shaping step takes the decoded item list as an `Option` parameter.
- The Kakao Maps SDK: the map, the click listener, the geocoder and the script loader. They are calls into a library the model cannot see.
- React state, hooks and JSX rendering, apart from the idle and done outcomes of the shaping step. The `loading` state set before the request, and the `idle` state set by the `catch` around the request, come from the asynchronous flow and are not modelled.
- The clock (`new Date()`, `getHours`, `getFullYear`, `getMonth`, `getDate`): its readings are parameters.
- `console.error` logging.
- Forecast.ShapeForecast: the item list is modelled as a present list or an absent one. Other falsy values (`0`, `""`) behave like absence. A truthy non-iterable value makes `for…of` throw, and a non-empty string is iterated character by character, each with undefined fields. Neither is modelled. Item fields are modelled as strings.
- The two clock readings: the page reads the clock once for the date (src/app/page.tsx:84) and once inside getBaseTimeHourly for the hour (src/app/page.tsx:51). The model takes the date fields and the hour as independent parameters, so it admits readings on either side of midnight, where the page asks for the previous day's 23:00 slot, which is already published. The model does not relate the two readings.
- JsText.ParseInt: models parseInt only on strings made of decimal digits (others give NaN). Leading blanks, signs, `0x` prefixes and trailing non-digits are not modelled; the page applies it only to the first two characters of its fixed slot codes.
- JsText.NumberToString: models String(n) for integers only, which is what the clock's fields are.
- BaseDate.BaseDateRoundTrip: proved only for four-digit years, months 0..11 and days 1..31. Other years change the width of the year field, and the string no longer reads back.
