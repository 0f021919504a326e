# Homely: the search, what-if and attribution path, in Dafny

Homely is a house-valuation web page with a Flask back end. This project
models the part of it that holds logic of its own:

- **the client's address search**: trim and lower-case the query, take the first house whose lower-cased address equals it, or report `Address not found.`;
- **the amenity filter**: per category, the amenities within 20 miles of the selected house, in their loaded order;
- **the what-if request**: no selection gives an alert; otherwise a 17-property object mixes copied house fields with `parseInt(input) || house.field` for the five editable fields, and `JSON.stringify` leaves out the `undefined` properties;
- **the server's `/predict`**: select the 17 model columns (a missing one is a `KeyError`, hence status 400); the engine (preprocessor, model, explainer) produces a prediction and named attributions; the names lose their `num__`/`cat__`/`geo__` prefix, are collapsed as a Python `dict`, rounded, sorted by descending magnitude (stably), and cut to ten;
- **the client's rendering of the answer**: `Math.round` of the value, and one line per attribution with a label (everything up to the last `__` removed), a signed two-place amount and a positive/negative class, or the placeholder `No SHAP values available.`; a failed fetch or JSON decoding alerts `Prediction failed.`

The modules follow the program:

| module | what it holds |
|---|---|
| `Json` | `undefined` as `Option`, JSON values and objects, the object literal's last-write-wins, `JSON.stringify` dropping `undefined` |
| `JsText` | ECMAScript `trim`, `toLowerCase` (ASCII), `replace(/^.*__/, '')` |
| `JsNumber` | `parseInt` without radix, `toFixed(2)`, `Math.round` on hundredths |
| `Locator` | houses and the address lookup |
| `Amenities` | categories, the 20-mile filter |
| `Scenario` | the what-if request object |
| `Features` | `all_features` and the column selection of `pd.DataFrame([data])[all_features]` |
| `Attribution` | `get_shap_values_for_prediction` after the explainer |
| `Server` | `predict()` and its JSON answer |
| `Render` | the client's handling of the answer |
| `App` | the search and what-if buttons as transitions of the page state |
| `EndToEnd` | client and server together |

Numbers that cross the wire after the server's `round(x, 2)` are integer
hundredths. The rounding itself, the haversine distance and the
preprocessor/model/explainer are parameters (`Rounding`, `Distance`,
`Engine`).

## Model

| member | source | states |
|---|---|---|
| Json.SerializeOfDefined | static/script.js:172 | an object with no `undefined` property is written out unchanged |
| Json.SerializeOfUndefined | static/script.js:172 | a property set to `undefined` is written exactly as if it were absent |
| Json.Literal | static/script.js:145-163 | an object literal has a property for each name written, and each holds the value of the last write to that name |
| JsText.Trim | static/script.js:62 | `trim` removes exactly the ECMAScript whitespace at both ends and keeps the middle as a contiguous slice of the input |
| JsText.Lower | static/script.js:62-63 | lower-casing keeps the length, leaves no ASCII capital, moves each capital to its small letter and leaves every other character as it was |
| JsText.LowerOfAlphabet | static/script.js:62-63 | the 26 capitals become the 26 small letters in alphabetical order |
| JsText.TrimIdempotent | static/script.js:62 | trimming an already trimmed query changes nothing |
| JsText.LowerIdempotent | static/script.js:62-63 | lower-casing twice is lower-casing once |
| JsText.LowerKeepsWhitespace | static/script.js:62-63 | lower-casing never turns whitespace into non-whitespace or back |
| JsText.NormalizeIdempotent | static/script.js:62 | normalising the query (trim, then lower-case) a second time changes nothing |
| JsText.StripLabel | static/script.js:187 | the label is a suffix of the feature name: all of it when the first line holds no `__`, and otherwise what follows the last `__` of the first line |
| JsText.StripLabelRemovesThroughLastSeparator | static/script.js:187 | for a name without line terminators: a name without `__` keeps its text; otherwise the label starts right after a `__`, no `__` starts later in the name, and the label itself contains no `__` |
| JsText.StripLabelOfQualified | static/script.js:187 | for head and tail without line terminators, `head__tail` with a tail free of `__` (and not starting with `_`) is labelled `tail`, whatever else the head holds, `__` included |
| JsText.StripLabelExamples | static/script.js:187 | `num__sqft` is labelled `sqft` and `cat__zip` `zip` |
| JsText.StripLabelOfUnderscoreRun | static/script.js:187 | in `a___b` the last `__` is the one before `b`, so the label is `b` |
| JsText.StripLabelSharedTail | static/script.js:187 | `a__sqft` and `b__sqft` are both labelled `sqft` |
| JsNumber.ParseInt | static/script.js:150-155 | a blank input is `NaN`; any integer read comes from a digit after leading whitespace and one optional sign, and is negative only after a `-` |
| JsNumber.ParseIntOfDecimal | static/script.js:150-155 | `parseInt` reads back every integer written in decimal, negative ones included |
| JsNumber.ParseIntOfDigits | static/script.js:150-155 | `"3"` parses to 3; `"0"` parses to 0, which is falsy, so it falls back |
| JsNumber.ParseIntOfBlank | static/script.js:150-155 | an empty or all-space input parses to `NaN` |
| JsNumber.ParseIntOfWord | static/script.js:150 | `"abc"` parses to `NaN` |
| JsNumber.ParseIntStopsAtNonDigit | static/script.js:150-155 | `" 12abc"` parses to 12: leading space skipped, reading stops at the first non-digit |
| JsNumber.ParseIntOfFraction | static/script.js:150-155 | `"1.5"` parses to 1 |
| JsNumber.ParseIntOfNegativeZero | static/script.js:150-155 | `"-0"` parses to (negative) zero, which is falsy |
| JsNumber.ParseIntOfHex | static/script.js:150-155 | `"0x1A"` parses to 26: a `0x` prefix switches to hexadecimal |
| JsNumber.Fixed2 | static/script.js:188 | `toFixed(2)` ends in a point and two digits holding the hundredths, and starts with `-` exactly for a negative amount |
| JsNumber.ParseIntOfFixed2 | static/script.js:188 | the integer part of a `toFixed(2)` text is the amount truncated toward zero |
| JsNumber.RoundHundredths | static/script.js:177 | `Math.round` of a value in hundredths is the nearest integer, halves rounded up |
| Locator.Lookup | static/script.js:62-63 | nothing is found exactly when no lower-cased address equals the trimmed, lower-cased query; otherwise the first such house is returned |
| Locator.LookupIgnoresPaddingAndCase | static/script.js:62-63 | a query and its normalised form find the same house |
| Locator.LookupExample | static/script.js:62-63 | `" 123 main st "`, `"123 MAIN ST"` and `"123 Main St"` find the same house |
| Locator.PaddedAddressIsUnreachable | static/script.js:62-63 | a house whose stored address starts or ends with whitespace is never found, whatever the query |
| Amenities.SourcesCoverCategories | static/script.js:15-22 | the six sources cover every category once and their labels differ |
| Amenities.Nearby | static/script.js:103-105 | the filter keeps every amenity within 20 miles (each as often as it occurs) and nothing else, in the loaded order |
| Amenities.NearbyIsLargest | static/script.js:103-105 | any in-order selection of amenities within 20 miles is contained, in order, in the filter's result |
| Amenities.BoundaryIsInclusive | static/script.js:104 | an amenity at exactly 20 miles is shown; one at 20.0001 miles is not |
| Amenities.FixtureExample | static/script.js:102-105 | a hospital 5 miles away is shown and one 25 miles away is not, in either input order |
| Amenities.NearbyAll | static/script.js:102-105 | every category is filtered: an amenity is shown exactly when it was loaded for that category and is within 20 miles, as many times as it was loaded, and in loaded order |
| Amenities.Cleared | static/script.js:80 | `clearLayers` leaves every category loaded and empty |
| Scenario.OverrideOfWritten | static/script.js:150-155 | an input holding any integer written in decimal sets the property to that integer, except that 0 (falsy) leaves the fallback |
| Scenario.RequestKeysDistinct | static/script.js:145-163 | the object literal writes 17 different keys |
| Scenario.BuildRequest | static/script.js:145-163 | the request has exactly the 17 keys and each holds the value resolved from its origin (copied or edited) |
| Scenario.CopiedFieldsIgnoreInputs | static/script.js:146-149 | every copied property equals the house's property of the same name, whatever was typed |
| Scenario.EditedField | static/script.js:150-155 | an editable property holds the parsed input when it is a non-zero integer and the house's fallback property otherwise |
| Scenario.TypedInput | static/script.js:150-155 | an input parsing to a non-zero integer sets its property to that number |
| Scenario.BlankInput | static/script.js:150-155 | an input parsing to `NaN` or zero leaves the house's value |
| Scenario.BedroomsExample | static/script.js:152-153 | bedrooms typed as `3` and square footage left blank give 3 bedrooms and the house's square footage |
| Scenario.YearBuiltFallbackExample | static/script.js:150 | year built typed as `abc` or `0` falls back to the house's `year` |
| Features.AllFeaturesShape | app.py:20-24 | the schema has 6 categorical then 11 numerical columns, 17 distinct names |
| Features.Missing | app.py:53 | the missing features are exactly the schema columns the body lacks |
| Features.SelectColumns | app.py:53 | the selection succeeds exactly when every schema column is present and then holds their values in schema order; otherwise it names exactly the absent columns |
| Attribution.CleanPrefix | app.py:33 | the result is the name itself, or the name with one of `num__`, `cat__`, `geo__` removed from its front; it is the name itself exactly when none of the three starts it |
| Attribution.CleanPrefixOnce | app.py:33 | any text behind one of the three prefixes is recovered exactly, whatever it begins with |
| Attribution.CleanPrefixExamples | app.py:33 | only one prefix is removed: `num__cat__x` becomes `cat__x`; unknown prefixes stay |
| Attribution.Put | app.py:36 | `d[k] = v` keeps a present key in place with the new value, and appends a new key |
| Attribution.DictOf | app.py:36 | `dict(pairs)` has each key of the pairs once |
| Attribution.DictValuesAreLast | app.py:36 | a repeated name holds the value of its last occurrence |
| Attribution.DictOrderIsFirstSeen | app.py:36 | the dict lists names in the order of their first occurrence |
| Attribution.Insert | app.py:37-41 | inserting into a list sorted by magnitude adds exactly the one entry and keeps it sorted |
| Attribution.SortByMagnitude | app.py:37-41 | the sort is a permutation in non-increasing absolute value |
| Attribution.SortIsStable | app.py:37-41 | entries of equal magnitude keep their relative order |
| Attribution.SortKeepsTieOrder | app.py:37-41 | when equal magnitudes come in first-seen order before sorting, they still do after it |
| Attribution.RankedPairsSemantics | app.py:36-41 | the sorted items hold one entry per distinct cleaned name, with the rounded value of its last occurrence, in non-increasing magnitude |
| Attribution.ShapSummary | app.py:27-44 | the summary has min(distinct cleaned names, 10) entries, each feature once, sorted by magnitude, each with the rounded value of its last occurrence; no left-out feature is larger than a kept one; entries of equal magnitude come in the order their names were first seen, and a left-out feature ties only with kept features seen before it |
| Attribution.TiedSummaryExample | app.py:36-44 | `a` at 1 and `b` at -1, both rounding to magnitude 1.00, give `a` then `b` |
| Attribution.TopPrefix | app.py:44 | the first ten keep the ordering and what they leave out is no larger than what they keep |
| Server.StatusOfPredict | app.py:47-71 | the status of `/predict` is 200 or 400, and 400 exactly when the body lacks a schema column or the engine fails on the selected columns |
| Server.Predict | app.py:47-71 | a body lacking a schema column is refused with exactly those columns named; an engine failure is refused; otherwise the answer carries the rounded prediction and the summary |
| Server.PredictionSummaryShape | app.py:62-67 | a successful answer holds at most ten attributions, one per feature, sorted by magnitude |
| Server.MissingAgrees | app.py:53 | two bodies agreeing on the schema columns lack the same columns |
| Server.ExtraPropertiesIgnored | app.py:53 | properties outside the schema never change the answer |
| Render.SignedAmount | static/script.js:186-188 | the amount text starts with `+` exactly for a positive amount and with `-` exactly for a negative one |
| Render.ReadSignedAmount | static/script.js:186-188 | the amount text reads back as the amount it was written from |
| Render.RenderRow | static/script.js:185-189 | the line's label is the `replace(/^.*__/, '')` label of the feature, its class is negative exactly for a negative amount, and its amount reads back as the value and has `+` exactly when positive |
| Render.RenderSummary | static/script.js:183-194 | an absent or empty summary shows the placeholder; otherwise one line per entry in the order received, each labelled from its feature, reading back as its value, and classed positive exactly when the value is not negative |
| Render.ShowWhatIf | static/script.js:177 | the figure is `NaN` exactly when the answer has no value, and otherwise within half a unit of it |
| Render.RefusalShowsNaN | static/script.js:174-194 | a 400 answer shows `NaN` and the placeholder instead of alerting |
| Render.RowExamples | static/script.js:183-191 | `num__sqft` at 1234.50 gives the positive line `sqft: +1234.50` and `cat__zip` at -98.70 the negative line `zip: -98.70` |
| Render.SharedLabelExample | static/script.js:185-189 | features `a__sqft` and `b__sqft` with the same amount render as the same line |
| Render.EmptySummaryExample | static/script.js:177-194 | a value of 0 with an empty summary shows 0 and the placeholder |
| Render.WhatIfExample | static/script.js:177 | 512345.60 is shown as 512346 |
| App.Search | static/script.js:61-105 | no match sets `Address not found.` and changes nothing else; a match clears the error and selects the first matching house; with a total value it shows per category the 20-mile filter of the loaded amenities, and without one the popup text throws and every layer stays empty |
| App.SearchIdempotent | static/script.js:61-72 | repeating a search changes nothing |
| App.SearchIgnoresPaddingAndCase | static/script.js:61-72 | a search for a query and for its normalised form lead to the same page |
| App.WhatIf | static/script.js:138-172 | the button alerts `Please select a house first.` exactly when nothing is selected; otherwise the body holds exactly the request properties that are defined, with their values |
| App.WhatIfNeedsSelection | static/script.js:139-142 | before any successful search, and after a failed one, the what-if button only alerts |
| App.WhatIfUsesLastMatch | static/script.js:65-81 | a failed search after a successful one keeps the house found, and the request is built from it |
| EndToEnd.RequestKeysAreFeatures | static/script.js:145-163 | the client writes exactly the server's 17 features, each once |
| EndToEnd.CompleteHouseAccepted | static/script.js:145-163 | a house with every source field gives a body whose columns the server selects, whatever was typed |
| EndToEnd.MissingCopiedFieldRefused | app.py:53 | a house lacking a copied field gives a body the server refuses, naming that field |
| EndToEnd.EditedFieldFillsGap | static/script.js:150-155 | when the house lacks an editable field's fallback, the body has the property exactly when its input is a non-zero integer, and is refused otherwise |
| EndToEnd.ShownPrediction | app.py:47-67 | for a complete house and an engine that succeeds, the page shows the rounded prediction and at most ten lines, one per distinct feature, in non-increasing magnitude, each reading back as its attribution |
| EndToEnd.RefusedRequestShowsNaN | static/script.js:174-194 | a house lacking a copied field ends with `NaN` and the placeholder on the page |

## Left out

- The map (Leaflet layers, markers, popups, `setView`), the home-features box and the estimated value: these only display data. The amenities shown are modelled per category as the markers' content.
- The haversine formula (`getDistance`): floating-point trigonometry. It is the `Distance` parameter, so every result holds for whatever distance function is passed.
- Python's `round(x, 2)` on floats and the float values themselves: the `Rounding` parameter maps a real to integer hundredths. The client-side values are those hundredths.
- The preprocessor, the XGBoost model and the SHAP explainer: they are the `Engine` parameter, which either yields the prediction with named attributions or fails.
- Fetching `houses.json` and the six amenity files, the `/predict` request and `res.json()`: I/O. A decoded answer is a `Body` and a failed fetch or decoding is `Failed`.
- The loading race: the search button is enabled only after all six amenity files load, so `App.Search` requires every category to be loaded. The houses file is not awaited; an empty house list (nothing found) models a search before it loads.
- Console logging and the server's `print` calls.
- `toLocaleString` grouping of the shown figure: `Figure` holds the rounded integer, not its text.
- The error text `str(e)` of a 400 answer: the client never reads it. `Failure` records only which step failed.
- Request bodies that are not JSON objects, and `pd.DataFrame` type coercion of the column values.
- JsText.Lower: only ASCII capitals are lower-cased. The model assumes ASCII addresses and queries; `toLowerCase` also maps other Unicode letters.
- Houses whose `address` is not a string, and houses or amenities whose `latitude` or `longitude` is not a number: the model's `House` and `Amenity` hold these as typed fields. In the page a missing address throws in `toLowerCase`. An amenity's missing coordinate reaches the distance function as `undefined`, so the distance is `NaN` and `NaN <= 20` is false: the amenity is not shown; a `null` one counts as 0. A house's coordinates are used by the marker and `setView` before any distance is computed, and a house without them is outside the model.
- JsNumber.ParseInt: returns an exact integer. JavaScript turns digit strings beyond 2^53 into an inexact double.
- JsNumber.Fixed2: exact for all amounts. JavaScript's `toFixed` switches to exponent notation at 10^21 and above.

## Behaviour worth knowing

- Only the query is trimmed. A stored address is lower-cased but not trimmed, so a padded address can never be found (`Locator.PaddedAddressIsUnreachable`).
- A 400 answer still decodes as JSON, so the client does not alert. It shows `NaN` and the placeholder (`Render.RefusalShowsNaN`, `EndToEnd.RefusedRequestShowsNaN`).
- A zero attribution gets no `+` sign but is still classed positive (`Render.RenderRow`).
- An input of `0` counts as not given, because `parseInt("0")` is falsy (`Scenario.BlankInput`, `Scenario.YearBuiltFallbackExample`).
- The client shows the attributions in the order received. The ordering by magnitude, and the cut to ten, happen on the server (`Attribution.ShapSummary`).
- The client's label keeps only what follows the last `__`, so two features the server keeps apart can show the same label, and with equal amounts the same line (`Render.SharedLabelExample`).
- Attributions of equal magnitude, frequent among one-hot columns rounding to 0.00, keep the order in which their names first appear; this order also decides which of them survive the cut to ten (`Attribution.ShapSummary`).
- The search is blocked until every amenity category has loaded, rather than treating a missing category as empty.
- A house without a `total_value` (absent or `null`) makes the popup text throw after the layers are cleared and the house is selected, so such a search shows no amenity at all (`App.Search`).
