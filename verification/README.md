# Air Quality Activity Planner — a Dafny model of its planning core

The planner takes a city and a list of planned activities. It fetches an
hourly air-quality forecast for the city and tells the user when to do each
activity. An activity counts as outdoor when its lower-cased text contains
one of nine keywords. Outdoor activities are given the forecast hours whose
AQI ordinal is at most 2 (Good or Fair). Every other activity is given
"Any time".

This project models the pure part of that pipeline in `app.py`:

- **Activity parsing** (`activities.dfy`, module `Activities`). The text-area
  contents are stripped and split on newlines. Each line is stripped, and
  blank lines are dropped.
- **Forecast normalisation** (`forecast.dfy`, module `Forecast`). Only the
  first 24 upstream records are used. Each record becomes a row with a
  12-hour time label, its AQI ordinal and the AQI category name. A record is
  given as (local hour of day, AQI ordinal); the fetch is not modelled.
- **Classification and recommendation** (`recommend.dfy`, module
  `Recommend`). This covers the keyword test, the safe-hour filter, the
  "Best Time" cell text and the plan table with one row per activity.

Two helper modules hold Python's string and list operations with their
Python meaning. `text.dfy` (module `Text`) has `strip`, `lstrip`, `lower`,
substring `in`, `split` and `join`. `seqs.dfy` (module `Seqs`) has slicing
and the filtering comprehension. `options.dfy` holds `Option`.

Each operation is paired with something independent that checks it:

- Parsing is paired with joining. Well-formed activities written one per
  line parse back to themselves.
- Strip is paired with a uniqueness lemma: it is the only way to frame a
  text between runs of whitespace.
- `split` and `join` are proved inverse in both directions.
- The time label has a reader, and every label reads back as its hour.
- The category name reads back as its ordinal.
- The "Best Time" cell reads back as the advice it was rendered from.
- The filter is described by the ascending list of positions it keeps.

## Model

| member | source | states |
|---|---|---|
| Activities.ParseActivities | app.py:17-22 | each parsed activity is non-empty, has no whitespace at either end, lies within one line, and there are no more activities than lines |
| Activities.ParseFollowsLines | app.py:21-22 | the k-th activity is the stripped k-th non-blank line, and every non-blank line yields one, so input order is kept and nothing is lost |
| Activities.ParseJoinRoundTrip | app.py:17-22 | writing well-formed activities one per line and parsing the text gives exactly those activities back |
| Activities.BlankTextHasNoActivities | app.py:22 | text made only of whitespace yields no activity |
| Activities.DefaultActivities | app.py:19 | the default text area contents parse to its four activities |
| Text.Strip | app.py:21 | the result has no whitespace at either end and is `s` with only whitespace removed before and after it |
| Text.StripUnique | app.py:22 | a text with no whitespace at its edges, framed by whitespace on both sides, strips back to exactly that text |
| Text.StripIdempotent | app.py:22 | stripping an already stripped line changes nothing |
| Text.StripEmptyIffBlank | app.py:22 | a line strips to the empty string exactly when it is all whitespace, which is when the comprehension drops it |
| Text.TrimStart | app.py:21 | what is removed is all whitespace and the rest does not start with whitespace |
| Text.TrimEnd | app.py:21 | what is removed is all whitespace and the rest does not end with whitespace |
| Text.SplitOn | app.py:21 | `split` always yields at least one piece |
| Text.JoinSplit | app.py:21 | joining the pieces of a split with the separator rebuilds the text |
| Text.SplitJoin | app.py:54 | splitting a join gives the parts back when no part contains the separator's first character |
| Text.SplitPiecesLackSep | app.py:21 | no piece of a split on a one-character separator contains that character |
| Text.Lower | app.py:51 | the result equals the input up to letter case and has no upper-case letter |
| Text.LowerIgnoresCase | app.py:51 | texts that differ only in letter case lower to the same text |
| Text.ContainsSpec | app.py:51 | `w in s` holds exactly when `w` occurs in `s` at some position |
| Text.LStripSpec | app.py:44 | `lstrip` removes only a leading run of the character, and what is left does not start with it |
| Text.Decimal | app.py:44 | the rendering is all digits and starts with a non-zero digit for a positive number |
| Text.DecimalRoundTrip | app.py:44 | reading the decimal rendering of a number gives the number back |
| Seqs.Prefix | app.py:37 | `xs[:n]` holds the first `min(n, |xs|)` elements, unchanged |
| Seqs.PositionsFrom | app.py:53 | the position list names every kept position, only kept positions, in ascending order |
| Seqs.FilterMap | app.py:22 | the comprehension yields no more elements than its input, and each one is `f` of a kept input element |
| Seqs.FilterMapAtPositions | app.py:22 | the k-th output is `f` of the element at the k-th kept position |
| Seqs.FilterMapEmpty | app.py:54 | the comprehension is empty exactly when no element is kept |
| Forecast.Level | app.py:43 | ordinals 1..5 name categories that read back as the same ordinal, and ordinals 1 and 2 are exactly Good and Fair |
| Forecast.LevelIndexed | app.py:43 | the list lookup succeeds exactly for ordinals -4..5: it is `Level` on 1..5, wraps to the end of the list on -4..0, and raises otherwise |
| Forecast.ZeroAqiReadsAsVeryPoor | app.py:43 | an ordinal of 0 is reported as "Very Poor" instead of being rejected |
| Forecast.Twelve | app.py:44 | the 12-hour clock hour `%I` is always in 1..12 |
| Forecast.TwelveAgrees | app.py:44 | the clock hour agrees with the hour of day modulo 12, and with AM or PM it determines the hour of day |
| Forecast.HourLabelSpec | app.py:44 | the label is the 12-hour clock hour in decimal without a leading zero, a space, then AM before noon and PM from noon on; it never starts with '0' |
| Forecast.LabelRoundTrip | app.py:44 | every label reads back as the hour of day it was made from |
| Forecast.LabelInjective | app.py:44 | different hours of the day get different labels |
| Forecast.LabelShape | app.py:44 | a label is non-empty, starts with a digit 1..9 and contains no comma |
| Forecast.MidnightAndNoonLabels | app.py:44 | hours 0 and 12 are labelled "12 AM" and "12 PM" |
| Forecast.SingleDigitLabels | app.py:44 | hours 1..9 and 13..21 are labelled with a single digit and AM or PM, for example "9 AM" |
| Forecast.Normalise | app.py:37-45 | there are min(24, #records) rows, and row i holds the label of record i's hour, record i's ordinal and that ordinal's category |
| Recommend.AnyKeywordFromSpec | app.py:51 | the `any` scan holds exactly when one of the keywords occurs in the text |
| Recommend.OutdoorMeansKeyword | app.py:51 | an activity is outdoor exactly when one of the nine keywords occurs somewhere in its lower-cased text |
| Recommend.OutdoorIgnoresCase | app.py:51 | two activities that differ only in letter case get the same classification |
| Recommend.SubstringMatches | app.py:51 | "Bicycle" and "Sunday brunch" are outdoor, because the match is on substrings and not on words |
| Recommend.SafeTimes | app.py:53 | the safe-time list is empty exactly when no row has an ordinal at most 2 |
| Recommend.SafeTimesInForecastOrder | app.py:53 | the safe times are the labels of the rows with ordinal at most 2, in forecast order; every listed time is the label of such a row |
| Recommend.Advise | app.py:52-56 | the advice is Indoor exactly for non-outdoor activities, NoSafeWindow exactly for outdoor ones with no safe row, and otherwise the non-empty safe-time list |
| Recommend.RenderRoundTrip | app.py:54-56 | reading a rendered "Best Time" cell back gives the advice, so the three kinds of cell cannot be confused |
| Recommend.BestTime | app.py:52-56 | the cell is "Any time" for a non-outdoor activity whatever the forecast; "No safe time" for an outdoor one with no safe row; otherwise the safe times joined with ", " |
| Recommend.BestTimeListsSafeRows | app.py:53-54 | for an outdoor activity with a safe row, the cell splits into exactly the safe times, and each listed time is the label of a safe row |
| Recommend.BestTimeReadsBack | app.py:52-56 | with label-like row times, reading the cell back gives the advice for that activity and forecast |
| Recommend.ForecastRowsLabelLike | app.py:44 | rows built from records carry label-like times |
| Recommend.Recommend | app.py:48-58 | there is one plan row per activity, in input order; each row holds the activity unchanged and its "Best Time" cell |
| Recommend.FrameBestTime | app.py:51-56 | computing the cell through the data frame, whose `"aqi"` lookup fails when the frame has no such column, fails exactly for an outdoor activity against an empty forecast, and otherwise equals `BestTime` |
| Recommend.FramePlan | app.py:48-58 | the plan as written fails exactly when the forecast is empty and some activity is outdoor; otherwise it holds one row per activity, in order, carrying that activity and its `BestTime` cell |
| Recommend.EmptyForecastRaises | app.py:53 | "Running outdoors" against an empty forecast makes both the cell and the plan fail with the code as written, where "No safe time" is the intended cell |
| Recommend.MixedForecastScenario | app.py:53-54 | Good at 9 AM, Moderate at 10 AM and Fair at 11 AM give "Running outdoors" the cell "9 AM, 11 AM" |
| Recommend.NoSafeWindowScenario | app.py:54 | Poor at 9 AM and Very Poor at 10 AM give "Running outdoors" the cell "No safe time" |
| Recommend.IndoorScenario | app.py:56 | "Indoor yoga" gets "Any time" whatever the forecast |

## Findings

| source | as written | input that shows it | evidently intended | confidence | as-written member | corrected member |
|---|---|---|---|---|---|---|
| app.py:53 | `df[df["aqi"] <= 2]` on a data frame built from an empty row list; that frame has no columns, so the lookup raises `KeyError` | an empty forecast list with the activity "Running outdoors" | the cell "No safe time", as for any outdoor activity without a safe hour | medium; not executed | Recommend.FrameBestTime, Recommend.FramePlan | Recommend.BestTime |

The running app hits the same empty frame one step earlier, in the chart
call at app.py:72, which is not part of this model.

## Notes on the code

- The keyword list is exactly the nine at app.py:51: outdoor, run, jog,
  cycle, bike, picnic, hike, walk and garden.
- A non-outdoor activity gets the cell "Any time" (app.py:56). The model's
  `Advice.Indoor` names that case, and `Render` turns it into that text.

## Left out

- The Streamlit page, inputs, button, spinner, chart, table display and
  download (app.py:6-16 and 61-76) are presentation glue. The "Add at least
  one activity" guard at app.py:62 belongs to that glue.
- The geocoding and forecast HTTP calls, API-key loading and the
  "City not found" branch (app.py:26-37) are network I/O. The model takes
  the forecast records as input.
- The 30-minute memoisation at app.py:25 depends on wall-clock time.
- `datetime.fromtimestamp` (app.py:41) depends on the local time zone. The
  model takes the local hour of day as input.
- The data frames and CSV text (app.py:45, 58, 76) are represented by
  sequences of records.
- Whitespace and case are modelled for ASCII only. Python's `strip()` also
  removes non-ASCII spaces, and `lower()` also maps non-ASCII letters; the
  Kelvin sign, for example, lowers to an ASCII "k".
- `%p` is modelled as the C locale gives it: "AM" and "PM".
- Forecast.Level: requires an ordinal in 1..5, which the upstream service
  promises. `Forecast.LevelIndexed` models the lookup for every integer.
- Forecast.Normalise: requires the first 24 records to carry an hour in
  0..23 and an ordinal in 1..5. It does not model an out-of-range ordinal
  slipping through; `Forecast.LevelIndexed` states what the lookup does then.
- Recommend.Recommend: builds every cell with the corrected `BestTime`. For
  an outdoor activity on an empty forecast the code raises `KeyError` at
  app.py:53 instead; `Recommend.FramePlan` models the plan as written,
  failing on exactly those inputs.
- Recommend.BestTimeListsSafeRows: requires row times to look like labels
  (start with a digit, no comma). Without that, ", " inside a time would
  make the cell ambiguous. Rows built by `Forecast.Normalise` always
  qualify (`Recommend.ForecastRowsLabelLike`).
