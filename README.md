# QuakeReport: the earthquake list's display logic, modelled in Dafny

QuakeReport is an Android app that shows the ten latest strong earthquakes
from the USGS feed. This project models the logic of its three visible classes:

- `quakeInfo`: an immutable record of magnitude, place text, time in
  milliseconds and detail URL (`quake_info.dfy`, module `QuakeInfoRecord`).
- `QuakeAdapter`:
  - the split of the place text into an offset phrase and a primary location;
  - the choice of one of ten colour resources from the floor of the magnitude;
  - the adapter's backing list (`quake_adapter.dfy`, module `QuakeAdapterModel`).
- `EarthquakeActivity`:
  - the background task's URL guard;
  - the callback that replaces the adapter's contents with the fetched list;
  - the item click that picks the clicked record's URL (`earthquake_activity.dfy`,
    module `EarthquakeActivityModel`).

The place texts are split with Java's `String.contains("of")` and
`String.split("(?<=of)")`. `java_lang.dfy` (module `JavaLang`) gives those
library calls their documented meaning:
- with no match, `split` returns the input;
- otherwise it cuts right after every "of" and drops the trailing empty pieces (limit 0).

`wrappers.dfy` holds `Option` (a Java null) and `Result` (a value, or the
exception thrown instead).

What the code does at the edges:
- The primary location keeps the space after "of": "5km NE of Example Town" gives " Example Town".
- The switch has ten colour resources: magnitude1 for floors 0 and 1, magnitude2 to magnitude9, and magnitude10plus for the rest.
- A place text whose only "of" ends it makes `parts[1]` throw. The model returns `Failure(IndexOutOfBounds(1, 1))`.
- A second "of", even one inside a word ("Soft"), cuts the primary short.

## Model

| member | source | states |
|---|---|---|
| `JavaLang.IndexOfFrom` | app/src/main/java/com/example/android/quakereport/QuakeAdapter.java:81 | the result is the first index at or after `from` where "of" starts, and None exactly when there is none |
| `JavaLang.Contains` | app/src/main/java/com/example/android/quakereport/QuakeAdapter.java:81 | true exactly when "of" occurs somewhere in the text (case-sensitive, anywhere, inside words too) |
| `JavaLang.CutAfterOf` | app/src/main/java/com/example/android/quakereport/QuakeAdapter.java:82 | the cut pieces rejoin to the text; every piece but the last ends with an "of" and holds no other; the last piece holds no "of" |
| `JavaLang.DropTrailingEmpty` | app/src/main/java/com/example/android/quakereport/QuakeAdapter.java:82 | the result is a prefix of the pieces, ends with a non-empty piece, and only empty pieces were removed |
| `JavaLang.SplitAfterOf` | app/src/main/java/com/example/android/quakereport/QuakeAdapter.java:82 | `split("(?<=of)")`: at least one piece, and the pieces rejoin to the text (nothing is lost); every piece but the last ends with its only "of"; the last holds no "of" or ends with its only one; the last is empty only for the empty text |
| `JavaLang.SplitFirstPiece` | app/src/main/java/com/example/android/quakereport/QuakeAdapter.java:82-83 | with the first "of" at i, the first piece is the text up to and including that "of" |
| `JavaLang.SplitSecondPieceToNextOf` | app/src/main/java/com/example/android/quakereport/QuakeAdapter.java:82-84 | with a next "of" at j, there are at least two pieces and the second runs from after the first "of" through the second one |
| `JavaLang.SplitSecondPieceToEnd` | app/src/main/java/com/example/android/quakereport/QuakeAdapter.java:82-84 | with a single "of", the split is the text through it and the rest, or the text alone when that "of" ends it (trailing empty piece dropped) |
| `QuakeAdapterModel.SplitLocation` | app/src/main/java/com/example/android/quakereport/QuakeAdapter.java:81-89 | without "of": offset "Near the" and the whole text as primary. Throws (index 1 of a one-piece array) if and only if the text's only "of" ends it. Otherwise: the offset ends with an "of" and holds no other; the primary is non-empty, follows the offset directly and holds no "of" except at its end |
| `QuakeAdapterModel.SplitWithoutOf` | app/src/main/java/com/example/android/quakereport/QuakeAdapter.java:81-88 | the text holds no "of" if and only if the result is offset "Near the" with the unchanged text as primary |
| `QuakeAdapterModel.SplitOffsetThroughFirstOf` | app/src/main/java/com/example/android/quakereport/QuakeAdapter.java:81-83 | whenever the split succeeds on a text with an "of", the offset is the prefix through the first "of" |
| `QuakeAdapterModel.SplitPrimaryToNextOf` | app/src/main/java/com/example/android/quakereport/QuakeAdapter.java:82-84 | with a second "of", the primary is the text after the first "of" through the second, untrimmed |
| `QuakeAdapterModel.SplitPrimaryToEnd` | app/src/main/java/com/example/android/quakereport/QuakeAdapter.java:82-84 | with a single "of" not at the end, the primary is everything after it, leading space kept |
| `QuakeAdapterModel.SplitSingleOfRejoins` | app/src/main/java/com/example/android/quakereport/QuakeAdapter.java:82-84 | with exactly one "of" not at the end, offset followed by primary is the original text |
| `QuakeAdapterModel.SplitFailsIffLoneTrailingOf` | app/src/main/java/com/example/android/quakereport/QuakeAdapter.java:81-84 | the split throws if and only if the text's only "of" is at its very end |
| `QuakeAdapterModel.SplitLocationExample` | app/src/main/java/com/example/android/quakereport/QuakeAdapter.java:81-84 | "10km SSE of Loloan, Indonesia" gives "10km SSE of" and " Loloan, Indonesia" |
| `QuakeAdapterModel.SplitLocationNearExample` | app/src/main/java/com/example/android/quakereport/QuakeAdapter.java:86-88 | "Pacific-Antarctic Ridge" is shown under "Near the", unchanged |
| `QuakeAdapterModel.SplitLocationInsideWordExample` | app/src/main/java/com/example/android/quakereport/QuakeAdapter.java:81-84 | "5km E of Soft Hill" gives primary " Sof": the "of" inside "Soft" truncates it |
| `QuakeAdapterModel.SplitLocationTrailingOfExample` | app/src/main/java/com/example/android/quakereport/QuakeAdapter.java:82-84 | "East of" throws at index 1 of a one-piece array |
| `QuakeAdapterModel.SplitLocationAtFirstOf` | app/src/main/java/com/example/android/quakereport/QuakeAdapter.java:81-88 | corrected split: on a text with "of", offset and primary rejoin to the text |
| `QuakeAdapterModel.SplitAtFirstOfRejoins` | app/src/main/java/com/example/android/quakereport/QuakeAdapter.java:81-88 | corrected split: "Near the" without "of"; otherwise the offset runs through the first "of" and offset plus primary is the text |
| `QuakeAdapterModel.SplitAgreesWithSplitAtFirstOf` | app/src/main/java/com/example/android/quakereport/QuakeAdapter.java:82-84 | on texts with one "of" not at the end, the code as written and the corrected split agree |
| `QuakeAdapterModel.SplitAtFirstOfExamples` | app/src/main/java/com/example/android/quakereport/QuakeAdapter.java:82-84 | corrected split of "East of" is ("East of", "") and of "5km E of Soft Hill" is ("5km E of", " Soft Hill") |
| `QuakeAdapterModel.GetMagnitudeColor` | app/src/main/java/com/example/android/quakereport/QuakeAdapter.java:130-165 | the colour chosen covers the floor of the magnitude |
| `QuakeAdapterModel.ColorIsTheOneCovering` | app/src/main/java/com/example/android/quakereport/QuakeAdapter.java:133-165 | total and unique: for every magnitude, a colour is chosen if and only if it covers the floor |
| `QuakeAdapterModel.ColorDependsOnlyOnFloor` | app/src/main/java/com/example/android/quakereport/QuakeAdapter.java:132-133 | magnitudes with the same floor get the same colour |
| `QuakeAdapterModel.ColorsOfFloors` | app/src/main/java/com/example/android/quakereport/QuakeAdapter.java:134-164 | floors 0 and 1 share magnitude1; each floor 2 to 9 has a colour no other floor gets; negative floors and floors of 10 or more get magnitude10plus |
| `QuakeAdapterModel.MagnitudeColorExample` | app/src/main/java/com/example/android/quakereport/QuakeAdapter.java:132-165 | 6.7 gives magnitude6, 0.0 and 1.2 give magnitude1, -0.5 gives magnitude10plus |
| `QuakeAdapterModel.QuakeAdapter.constructor` | app/src/main/java/com/example/android/quakereport/QuakeAdapter.java:30-36 | the adapter starts with exactly the given records |
| `QuakeAdapterModel.QuakeAdapter.Clear` | app/src/main/java/com/example/android/quakereport/EarthquakeActivity.java:77 | no record is left |
| `QuakeAdapterModel.QuakeAdapter.AddAll` | app/src/main/java/com/example/android/quakereport/EarthquakeActivity.java:82 | the records are appended after the present ones, in order |
| `QuakeAdapterModel.QuakeAdapter.GetItem` | app/src/main/java/com/example/android/quakereport/EarthquakeActivity.java:50 | the record at the position when it is in range, and the out-of-bounds exception exactly otherwise |
| `QuakeInfoRecord.GettersReturnConstructorArguments` | app/src/main/java/com/example/android/quakereport/quakeInfo.java:13-31 | each of the four getters returns the value passed to the constructor |
| `QuakeInfoRecord.RecordDeterminedByGetters` | app/src/main/java/com/example/android/quakereport/quakeInfo.java:8-31 | a record is rebuilt from its getters, and two records are equal exactly when all four getters agree |
| `EarthquakeActivityModel.DoInBackground` | app/src/main/java/com/example/android/quakereport/EarthquakeActivity.java:65-74 | with no URL or a null first URL: null, and no request made; otherwise exactly one request, for the first URL, and its result |
| `EarthquakeActivityModel.EarthquakeActivity.constructor` | app/src/main/java/com/example/android/quakereport/EarthquakeActivity.java:32-38 | the activity's adapter is new and empty |
| `EarthquakeActivityModel.EarthquakeActivity.OnPostExecute` | app/src/main/java/com/example/android/quakereport/EarthquakeActivity.java:75-84 | after a null or empty result the list is empty; after a non-empty one it is that list, in order; nothing of the previous contents survives |
| `EarthquakeActivityModel.EarthquakeActivity.Execute` | app/src/main/java/com/example/android/quakereport/EarthquakeActivity.java:63-84 | the task's whole effect: the list shows the fetched records, or nothing when no request was made or none came back |
| `EarthquakeActivityModel.EarthquakeActivity.ExecuteUsgsRequest` | app/src/main/java/com/example/android/quakereport/EarthquakeActivity.java:19-29 | the task started at creation requests exactly the USGS query URL, and the list shows what it returned |
| `EarthquakeActivityModel.EarthquakeActivity.OnItemClick` | app/src/main/java/com/example/android/quakereport/EarthquakeActivity.java:48-53 | a click at position p yields the URL of exactly the adapter item at index p, and throws exactly when p is outside the list |

## Left out

- Fetching and parsing the feed: `QueryUtils.fetchEarthquakeData` is not part of this model. It is the parameter `fetch`, a function from URL to an optional list.
- AsyncTask threading and delivery on the main thread: only the sequential effect of each callback is modelled. `execute` is called before the adapter exists, and the model does not capture that ordering.
- `formatMagnitude`, `formatDate`, `formatTime`: these use `DecimalFormat` and `SimpleDateFormat`, so they depend on floating point, the locale and the time zone.
- `ContextCompat.getColor`: the model stops at the colour resource identifier.
- GetMagnitudeColor: the magnitude is a `real`. NaN, the infinities and the saturating `(int)` cast of huge doubles are not modelled.
- QuakeInfoRecord.QuakeInfo: boxed `Double`, `String` and `Long` fields may be null in Java. The model has no null fields. A null place text, which would throw at `contains`, is not modelled.
- QuakeAdapter.constructor: `ArrayAdapter` keeps a reference to the caller's `ArrayList`, so the two are aliased. The model copies the sequence. The activity never touches its list again, so nothing observable is lost.
- View inflation and recycling, `findViewById`, `setText`, `setColor`, and the list's change notification are UI plumbing.
- `Uri.parse`, the `Intent` and `startActivity` are Android calls. OnItemClick stops at the URL handed to `Uri.parse`.

## Findings

| source | as written | input that shows it | evidently intended | confidence | as-written member | corrected member |
|---|---|---|---|---|---|---|
| app/src/main/java/com/example/android/quakereport/QuakeAdapter.java:82-84 | `split("(?<=of)")` cuts after every "of" and `parts[1]` is read unconditionally | "East of" throws ArrayIndexOutOfBoundsException; "5km E of Soft Hill" shows primary " Sof" | cut once, after the first "of", and show all the rest as the primary | likely; not executed | `QuakeAdapterModel.SplitFailsIffLoneTrailingOf`, `QuakeAdapterModel.SplitLocationTrailingOfExample`, `QuakeAdapterModel.SplitLocationInsideWordExample` | `QuakeAdapterModel.SplitLocationAtFirstOf`, `QuakeAdapterModel.SplitAtFirstOfRejoins` |
