# Comparative country risk assessment: a verified model

The application takes per-threat weights for a fixed set of countries from a
web form, and returns one risk score per country and the positions of the
bars that draw it. For each country it reads four weight fields (DDoS,
Phishing, PhysicalAttack, CloudSecurity) and coerces each to a
non-negative integer. The score is the average of the country's base
severities from a fixed threat catalogue, weighted by those weights and
rounded to two decimals. Each weight, and the score, is then mapped onto a
chart 281 units tall.

The model has six modules:

- `Wrappers` (`wrappers.dfy`) holds the `Option` and `Result` types that stand
  in for Python's `None` and for raised exceptions.
- `Catalog` (`catalog.dfy`) holds the threat catalogue, with the countries in
  the order the handler visits them and the lowest and highest severity of
  each row.
- `RiskScoring` (`risk_score.dfy`) holds the score. A weight dictionary is an
  ordered list of entries, because a Python dict iterates in insertion order
  and the exception raised depends on which key is visited first. Keys need
  not be distinct, which only widens the domain the lemmas cover. The
  score's exceptions are values: `KeyError(key)` and `ZeroDivisionError`.
  Arithmetic is exact over `real`, and rounding is a separate function
  `Round2` (half to even, on the exact value).
- `Graph` (`graph.dfy`) holds the y-offset and the height of a bar.
- `WeightParsing` (`weight_parsing.dfy`) holds the coercion of a form string
  to a weight. It has a decimal printer `ShowDecimal` as its inverse.
- `FormHandling` (`form_handling.dfy`) holds the request handler. The form is
  a parameter of type `map<string, string>`. The handler's two loops are
  two methods: `ReadWeights` reads and coerces the fields, and
  `ScoreCountries` scores each country and assembles its record. `Index`
  runs one after the other. Each method is proved against the specification
  functions `FirstMissing`, `CoercedWeights` and `CountryResultOf`.

Three behaviours of the code as written are worth knowing; the model keeps
all three:

- A zero total weight raises `ZeroDivisionError`; it is not mapped to a score of 0.
  A country whose four fields are all empty, non-numeric or zeros therefore aborts the
  whole request (`CoercedTotalZero`, `CountryScoreDefined`, `Index`).
- An empty weight dictionary scores 0 for any country name, because no lookup and
  no division happens (`EmptyWeightsScoreZero`).
- A submission is rejected when any of the sixteen expected fields is missing;
  the handler's own "unknown country" check can never fire. A form with the
  fields of Canada and India only is therefore rejected at China's first field
  (`TwoCountryFormRejected` with `Index`).

## Model

| member | source | states |
|---|---|---|
| `Catalog.CatalogCountries` | app.py:13-18 | the catalogue has exactly the four countries |
| `Catalog.CatalogRows` | app.py:13-18 | every row of the catalogue has exactly the four threat categories |
| `Catalog.SeveritiesInRange` | app.py:13-18 | every base severity lies in 1..5 |
| `Catalog.MinSeverity` | app.py:13-18 | the minimum of a row over a list of categories is attained and bounds every entry from below |
| `Catalog.MaxSeverity` | app.py:13-18 | the maximum of a row over a list of categories is attained and bounds every entry from above |
| `Catalog.LowestSeverity` | app.py:13-18 | a country's lowest severity is one of its row's values, at most every value of the row, and at least 1 |
| `Catalog.HighestSeverity` | app.py:13-18 | a country's highest severity is one of its row's values, at least every value of the row, and at most 5 |
| `RiskScoring.Terms` | app.py:100-101 | the generator sum succeeds iff the dictionary is empty, or the country is known, its row has every key and the total is nonzero; it then equals Σ severity·weight divided by the total |
| `RiskScoring.Score` | app.py:99-101 | the unrounded score is defined iff the dictionary is empty, or the country is known, its row has every key and the total weight is nonzero; a defined score of a non-empty dictionary is Σ severity·weight / Σ weight |
| `RiskScoring.Round2` | app.py:102 | rounding to two decimals lands on a whole hundredth at most 0.005 away from the value |
| `RiskScoring.RiskScore` | app.py:88-102 | the returned score fails exactly when, and with the error that, the unrounded score does; otherwise it is that score rounded by `Round2` (half to even), a whole hundredth within 0.005 of it |
| `RiskScoring.EmptyWeightsScoreZero` | app.py:99-102 | an empty dictionary scores 0, rounded or not, for any country |
| `RiskScoring.TermsErrors` | app.py:100-101 | the generator raises ZeroDivisionError iff the first lookups succeed and the total is zero; it raises KeyError(k) iff the dictionary is non-empty and k is the unknown country, or k is the first key in iteration order that the row lacks and no division by zero comes first |
| `RiskScoring.ScoreErrors` | app.py:99-101 | an unknown country with a non-empty dictionary raises KeyError(country); ZeroDivisionError iff the first lookups succeed and the total is 0; KeyError(k) iff k is the unknown country, or the first key in iteration order missing from the row, reached before any division by zero |
| `RiskScoring.WeightedSumBounds` | app.py:100-101 | with non-negative weights, Σ severity·weight lies between lo·Σ weight and hi·Σ weight when every severity lies in [lo, hi] |
| `RiskScoring.NonNegativeTotal` | app.py:99 | the total of non-negative weights is non-negative |
| `RiskScoring.ScoreBetween` | app.py:99-101 | with non-negative weights and a positive total, the unrounded score lies between any bounds of the severities it averages |
| `RiskScoring.Round2Exact` | app.py:102 | a value with two decimals is left unchanged by rounding |
| `RiskScoring.Round2Ties` | app.py:102 | a value exactly halfway between two hundredths rounds to the one with the even numerator |
| `RiskScoring.Round2Between` | app.py:102 | rounding keeps a value inside any interval with integer ends |
| `RiskScoring.RiskScoreWithinRowRange` | app.py:88-102 | for a known country, non-negative weights and a positive total, the returned score lies between the lowest and highest severity of the row, hence in [1, 5] |
| `RiskScoring.DefinedScoreInRange` | app.py:88-102 | every defined score of a non-empty dictionary of non-negative weights lies in [1, 5] |
| `RiskScoring.CanadaReferenceScore` | tests/TestApp.py:44-49 | Canada weighted 3, 4, 2, 3 scores exactly 38/12, returned as 3.17 |
| `Graph.YPosition` | app.py:105-116 | the y-offset of a bar is never negative |
| `Graph.BarHeight` | app.py:119-130 | the height of a bar is never negative |
| `Graph.Complementary` | app.py:115-116 | for weights in [0, 10], y-offset plus height equals the chart height 281, and the height is weight/10 of the chart |
| `Graph.ComplementaryOnlyInRange` | app.py:115-130 | y-offset plus height equals 281 exactly when the weight is in [0, 10], and exceeds 281 otherwise |
| `Graph.AboveScale` | app.py:115-116 | for weights of 10 or more the absolute value flips the offset: y-offset = height − 281, and the height is at least 281 |
| `Graph.Monotone` | app.py:115-130 | on [0, 10] the bar grows with the weight and stays within the chart, and its top moves up |
| `Graph.ReferenceValues` | tests/TestApp.py:51-59 | height(0) = 0, height(10) = 281, y(0) = 281, y(10) = 0, y(4) = 168.6, height(3) = 84.3 |
| `WeightParsing.ParseWeight` | app.py:43-50 | a string that is not a non-empty string of digits coerces to 0 |
| `WeightParsing.ShowDecimal` | app.py:43-50 | the decimal spelling of a number is a digit string without leading zeros (inverse of the coercion) |
| `WeightParsing.ParseShowRoundTrip` | app.py:43-50 | coercing the decimal spelling of n gives back n |
| `WeightParsing.LeadingZero` | app.py:43-50 | a leading zero does not change the weight of a digit string |
| `WeightParsing.ZeroWeight` | app.py:43-50 | a string coerces to 0 iff it is not a digit string or consists of zeros only |
| `WeightParsing.ReferenceCoercions` | app.py:43-50 | "abc", "", "-3" and "0" coerce to 0; "7" to 7 and "10" to 10 |
| `FormHandling.FirstMissing` | app.py:30-35 | no field is reported iff all are present; a reported field is absent and every field before it is present |
| `FormHandling.FirstMissingAppend` | app.py:30-35 | the first missing field of a concatenation is that of the first part, else that of the second |
| `FormHandling.FieldsOfAppend` | app.py:30-35 | the fields of two lists of countries are the fields of the first followed by those of the second |
| `FormHandling.FirstMissingOfFour` | app.py:32-35 | for four fields, the first missing one is found by testing them in reading order |
| `FormHandling.FirstMissingAt` | app.py:30-35 | once every earlier field is present, the first missing field overall is the first missing field of the current country, if it has one |
| `FormHandling.ReadCountry` | app.py:32-58 | reading a country fails iff one of its fields is missing, naming the first; otherwise it yields `CoercedWeights`, each of the four fields coerced through `ParseWeight` |
| `FormHandling.CoercedTotalZero` | app.py:43-58 | a country's coerced weights sum to zero iff each of its four fields is empty, non-numeric or zeros only |
| `FormHandling.EntriesTotal` | app.py:53-58 | the total the scorer sees is the sum of the four coerced weights |
| `FormHandling.CountryScoreDefined` | app.py:63 | a known country's four weights score iff their sum is nonzero, and otherwise fail with ZeroDivisionError |
| `FormHandling.BuildResult` | app.py:64-79 | a record keeps its score and weights; each category bar is weight/10 of the 281-unit chart tall and the aggregate bar the absolute value of score/10 of it; each offset is the absolute distance of the bar's top from the chart's top edge |
| `FormHandling.ResultBars` | app.py:67-78 | the aggregate bar meets the baseline and spans 28.1..140.5 units for a score in [1, 5]; a category bar meets the baseline iff its weight is at most 10 |
| `FormHandling.CountryResultOf` | app.py:62-79 | for a catalogue country, scoring and assembling a record succeeds iff the four weights do not sum to zero, and otherwise fails with ZeroDivisionError; a record keeps the weights and carries the returned score of those weights, and the bars `BuildResult` gives for that score and those weights |
| `FormHandling.CountryResultFacts` | app.py:62-79 | a country's record keeps its weights and carries a score between the row's lowest and highest severity, in [1, 5] |
| `FormHandling.ReadWeights` | app.py:27-58 | reading fails iff some expected field is missing, naming the first missing one in reading order; otherwise every catalogue country gets its coerced weights |
| `FormHandling.ScoreCountries` | app.py:60-79 | scoring succeeds iff every country's weight sum is nonzero, and otherwise fails with ZeroDivisionError; each country's record is its scored result |
| `FormHandling.Index` | app.py:26-82 | a missing field is reported iff one is missing (the first one in reading order); otherwise the only failure modelled is a zero weight sum (for the huge-weight failures see Left out); on success every catalogue country has its scored record |
| `FormHandling.TwoCountryFormHasCanadaAndIndia` | tests/TestApp.py:18-27 | the form of Canada and India fields has all of Canada's and all of India's fields |
| `FormHandling.TwoCountryFormLacksChina` | tests/TestApp.py:18-27 | that form lacks China's DDoS field |
| `FormHandling.TwoCountryFormRejected` | tests/TestApp.py:16-30 | that form's first missing field is China's DDoS weight, so the handler rejects it |

## Left out

- HTTP and HTML I/O: routing, `request.method`, the `request.form` object itself
  (modelled as a plain map of field names to strings), `render_template` and `app.run`.
  Status codes are not modelled. A missing field is the error value
  `MissingField(name)`, where the framework answers with an HTTP error.
- The "Invalid country selected." branch (app.py:38-39): the loop runs over the
  catalogue's own keys, so the check can never fail. It has no counterpart in `Index`.
- Floating point: scores, offsets and heights are exact rationals. `Round2` rounds the
  exact value half to even; Python's `round` on a binary float may differ at exact
  ties, and float equality in the tests is not modelled.
- Digit characters outside ASCII '0'..'9', which `str.isdigit` accepts (and on which
  `int` may fail), are treated as non-digits.
- `FormHandling.Index`: does not model two failures caused by huge weights. `int()` at
  app.py:43-50 raises ValueError for a digit string longer than 4300 characters
  (CPython's default limit on integer string conversion); this happens while reading,
  so it can pre-empt a missing field of a later country. A weight above about
  1.8·10^309 (its tenth exceeds the float range) makes the true division at
  app.py:115 and app.py:129, reached from app.py:68-77, raise OverflowError;
  somewhat smaller weights give an infinite offset and height without an exception.
- `WeightParsing.ParseWeight`: reads digit strings of any length; `int()` raises
  ValueError above 4300 digits.
- `Graph.YPosition`: exact arithmetic, so no OverflowError for a weight whose tenth
  exceeds the float range.
- `Graph.BarHeight`: exact arithmetic, so no OverflowError for a weight whose tenth
  exceeds the float range, and no infinite height for a weight just below that.
- Weights passed to the scorer are integers; `calculate_risk_score` would also accept floats.
- Order of the result dictionary: `Index` returns a map, so the insertion order the
  page renders the countries in is not captured.
