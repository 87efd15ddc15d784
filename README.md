# Campaign Demand Estimator — a verified model of its engine

The Campaign Demand Estimator (`app.py`) is a Streamlit page. It loads a
tab-separated table of marketing campaigns and checks that the required columns
are there. It then normalises the locale-formatted `Demand` column ("1.234,56 €")
into numbers. The user picks a country, a keyword and two date windows, the
Earlier and the Later period. The page filters the table once per window and
lists the matching campaigns with a checkbox each. It then blends the two
periods' mean demands into one estimate:
`(mean_earlier * (1 + growth/100) + mean_later) / 2`.

This project models that engine in Dafny and proves properties of it:

- `wrappers.dfy` (`Wrappers`): the `Option` type. `None` stands for Python's
  `None` and for pandas' NaN.
- `demand.dfy` (`DemandNormalizer`) covers `parse_demand` and
  `clean_demand_column`. It models the chain of deletions and replacements, a
  model of `float()` on the result, and the in-place rewrite of the `Demand`
  column as a method over an `array`.
- `filter.dfy` (`PeriodFilter`) covers `filter_data`: an exact country match, a
  case-sensitive substring test on the description, and an inclusive date
  window. Rows whose dates did not parse are dropped.
- `estimator.dfy` (`Estimator`) covers the checkbox selection loop, as a method
  building a sequence, and the mean that skips missing values. It also covers
  the estimate with the code's edge cases: no Later row gives a warning, an
  empty Earlier selection counts as mean 0, and an all-missing mean is NaN.
- `schema.dfy` (`Schema`): the required-column check.
- `app.dfy` (`CampaignApp`): one pass of the page. A pure function, `Session`,
  specifies the whole pass, and the method `Run` does the steps in order and
  is proved to match it. It cleans the demand array in place only when the
  table has every required column.

A table row is a `Row` value. Its `id` is the row's index label, which keys its
checkbox. A cleared checkbox is recorded as its label in a set. Dates are
abstract timestamps (`int`); `None` means pandas gave NaT for it. Demand
values and means are `real`.

Where the code differs from what a reader might expect, the model follows the code:

- The keyword test is case-sensitive. "sale" does not match "Summer SALE event".
- An empty Earlier selection counts as mean 0, so the estimate is then half the
  Later mean, not the Later mean itself.
- An Earlier selection whose demands are all missing gives NaN, not "absent".
- `Campaign name` is a required column.
- There is no category filter.
- A keyword shorter than three characters stops the page; it does not mean
  "match everything".
- The normalisation is not idempotent on numbers. An already numeric cell
  is rendered as text, and its decimal point is then removed as a thousands
  separator.

## Model

| member | source | states |
|---|---|---|
| DemandNormalizer.CleanedText | app.py:19 | no euro sign, space or comma is left after cleaning; there are as many dots as the input had commas; every other character keeps its count; the length drops by the number of deleted characters |
| DemandNormalizer.CleanIsOnePass | app.py:19 | the chain of four `replace` calls equals a single left-to-right pass: delete euro signs, spaces and dots, and turn each comma into a dot |
| DemandNormalizer.CleanAppend | app.py:19 | cleaning the concatenation of two texts gives the concatenation of their cleaned forms |
| DemandNormalizer.LeadingDigits | app.py:21 | the prefix of digits that float() reads first is all digits, and is followed by a non-digit or the end of the text |
| DemandNormalizer.ParseFloatDefined | app.py:20-23 | the model of float() succeeds exactly on texts of the form: optional sign, digits, optional dot with digits, at least one digit in all |
| DemandNormalizer.ParseFloatValue | app.py:21 | float() gives "digits a, dot, digits b" the value of a plus b read as a fraction |
| DemandNormalizer.ParseFloatDigits | app.py:21 | float() gives a digit string the whole number it denotes |
| DemandNormalizer.SignedValue | app.py:21 | a leading "-" negates the parsed value and a leading "+" keeps it |
| DemandNormalizer.HornerAppend | app.py:21 | reading the digits of `a + b` is reading `a`, then carrying on with `b` |
| DemandNormalizer.AcceptedHasAtMostOneDot | app.py:20-23 | every text float() accepts has at most one dot |
| DemandNormalizer.ParseDemandDefined | app.py:16-23 | `parse_demand` never fails: a text cell gives a number exactly when its cleaned form is in float()'s grammar, and None otherwise |
| DemandNormalizer.MissingIsNone | app.py:17-18 | a missing cell gives None and is stored back as missing |
| DemandNormalizer.SeparatorIgnored | app.py:19 | a euro sign, space or dot inserted anywhere in a text never changes the parsed demand |
| DemandNormalizer.LocaleAmount | app.py:19-21 | "digits, comma, digits, space, euro sign" is read as the number with the comma as decimal point |
| DemandNormalizer.DecimalCommaAmount | app.py:19-21 | "digits, comma, digits" is read with the comma as decimal point |
| DemandNormalizer.DotIsThousands | app.py:19-21 | "digits, dot, digits" is read as the whole number of all its digits: a dot is never a decimal point |
| DemandNormalizer.PlainAmount | app.py:19-21 | a bare digit string is read as that whole number |
| DemandNormalizer.NumberReadAsText | app.py:19 | a cell already holding a number is parsed exactly like the text `str()` gives for it |
| DemandNormalizer.RenormalizingShiftsDecimals | app.py:19-24 | a stored number whose text is "a.b" is read back as the whole number of the digits ab, so cleaning a cleaned column changes it |
| DemandNormalizer.ExampleRenormalized | app.py:19-24 | with Python's rendering "1234.5", the number 1234.5 becomes 12345 when cleaned again |
| DemandNormalizer.TwoCommasRejected | app.py:19-23 | a text with two or more commas gives None |
| DemandNormalizer.ExampleLocale | app.py:19-21 | "1.234,56 €" is read as 1234.56 |
| DemandNormalizer.ExampleDotIsThousands | app.py:19-21 | "1234.56" is read as 123456 |
| DemandNormalizer.ExampleHalf | app.py:19-21 | "0,5" is read as 0.5 |
| DemandNormalizer.ExampleGarbage | app.py:20-23 | "abc" and the empty text give None |
| DemandNormalizer.ExampleTwoCommas | app.py:19-23 | "1,2,3" gives None |
| DemandNormalizer.Clean | app.py:19 | no contract of its own: the four `replace` calls in the source's order (delete euro signs, spaces, dots; comma to dot); its properties are CleanedText, CleanIsOnePass and CleanAppend |
| DemandNormalizer.ParseFloat | app.py:20-23 | no contract of its own: `float()` on the cleaned text over an optional sign, digits and one optional dot, None standing for the caught ValueError; its properties are ParseFloatDefined, ParseFloatValue, ParseFloatDigits and SignedValue |
| DemandNormalizer.ParseDemand | app.py:16-23 | no contract of its own: a missing cell gives None, otherwise `str()` (the parameter `render` for a number), then Clean, then ParseFloat; its properties are ParseDemandDefined, MissingIsNone, SeparatorIgnored, LocaleAmount, DotIsThousands and the examples |
| DemandNormalizer.StoredCell | app.py:24 | a parsed value is stored as a missing or numeric cell, never as text |
| DemandNormalizer.CleanedColumn | app.py:24 | the cleaned column has one cell per input row, and none of them is text |
| DemandNormalizer.ApplyToColumn | app.py:24 | `apply` replaces every cell of the column, in place, by the image of its old value |
| DemandNormalizer.CleanDemandColumn | app.py:15-25 | the column becomes the cleaned column of its old contents, and no cell of it is text |
| PeriodFilter.Matches | app.py:29-35 | no contract of its own: the combined mask for one row (same country, a present description containing the keyword, a parsed start date on or after the window start, a parsed end date on or before the window end); its properties are FilterData, FilteredRowsMatch, UnparsedDatesExcluded and MatchingRowsKept |
| PeriodFilter.Contains | app.py:33 | `str.contains` with a literal keyword holds exactly when the keyword occurs at some position of the description |
| PeriodFilter.FilterData | app.py:28-37 | the result is a subsequence of the rows in their original order; every returned row matches; each matching row is returned as often as it occurs and nothing else is returned |
| PeriodFilter.FilteredRowsMatch | app.py:29-35 | a returned row is an input row with the query's exact country, a description containing the keyword, and parsed dates inside the window with both bounds inclusive |
| PeriodFilter.UnparsedDatesExcluded | app.py:30-35 | a row whose start or end date did not parse is never returned, whatever the window |
| PeriodFilter.MatchingRowsKept | app.py:29-35 | a row passing the country, keyword and both date tests is always returned |
| PeriodFilter.FilterIdempotent | app.py:28-37 | filtering a filtered table again with the same query changes nothing |
| PeriodFilter.AbsentCharNotContained | app.py:33 | a keyword with a character that never occurs in the text is not contained in it |
| PeriodFilter.ContainedBetween | app.py:33 | a keyword placed between any two texts is contained in the result |
| PeriodFilter.KeywordIsCaseSensitive | app.py:33 | "sale" does not occur in "Summer SALE event" but does occur in "Summer sale event" |
| PeriodFilter.OtherCaseFilteredOut | app.py:32-35 | a row described as "Summer SALE event" is filtered out by the keyword "sale" |
| Estimator.Kept | app.py:89-100 | no contract of its own: the listed rows whose label is not cleared, in order; its properties are SelectRows, KeptAppend, KeptIsSelection, KeptCounts and DefaultKeepsAll |
| Estimator.SelectRows | app.py:89-93 | the checkbox loop collects exactly the filtered rows whose box is ticked, in order |
| Estimator.KeptAppend | app.py:89-93 | the selection of two lists appended is the two selections appended |
| Estimator.KeptIsSelection | app.py:89-100 | the selected rows are a subsequence of the listed rows; they are exactly the listed rows whose box stays ticked, each as often as it is listed |
| Estimator.KeptCounts | app.py:89-100 | a listed row whose box stays ticked is selected as often as it is listed, and a cleared one never |
| Estimator.DefaultKeepsAll | app.py:92 | with every checkbox left at its default (ticked), every listed row is selected |
| Estimator.SelectionStaysInPeriod | app.py:84-93 | a selected row is an input row that passes its period's filter |
| Estimator.Mean | app.py:107-109 | the mean is NaN exactly when no selected row has a demand, and otherwise times that count equals the sum of the demands |
| Estimator.SumAppend | app.py:107-109 | sums and counts of demands add up over concatenation |
| Estimator.SumPermutation | app.py:107-109 | sum and count of demands depend only on which rows are selected, not their order |
| Estimator.MeanOrderIndependent | app.py:107-109 | the mean depends only on which rows are selected |
| Estimator.ScaledIsProduct | app.py:107-109 | a bound counted once per row with a demand is that count times the bound |
| Estimator.SumAtLeast | app.py:107-109 | the sum of demands is at least the count of demands times any lower bound |
| Estimator.SumAtMost | app.py:107-109 | the sum of demands is at most the count of demands times any upper bound |
| Estimator.MeanBounds | app.py:107-109 | the mean lies between the smallest and the largest selected demand |
| Estimator.Adjusted | app.py:108 | no contract of its own: the Earlier mean times `1 + growth/100`; its properties are EstimateDemand, ZeroGrowthAverages and GrowthMonotone |
| Estimator.EstimateDemand | app.py:103-124 | no Later row gives the warning; an empty Earlier selection gives half the Later mean; a NaN mean gives NaN; otherwise the result is the average of the grown Earlier mean and the Later mean |
| Estimator.ZeroGrowthAverages | app.py:108-110 | with growth 0 the estimate is the plain average of the two means |
| Estimator.EstimateWithinDemands | app.py:106-110 | with growth 0 and rows in both periods, the estimate lies within the range of the selected demands |
| Estimator.GrowthMonotone | app.py:108-110 | more growth never lowers the estimate when the Earlier mean is not negative |
| Estimator.EstimateOrderIndependent | app.py:103-110 | the estimate depends only on which rows are selected in each period |
| Estimator.ExampleBlend | app.py:106-110 | Earlier mean 100, growth 10%, Later mean 200 give 155 |
| Estimator.ExampleNegativeGrowth | app.py:108-110 | Earlier 100, growth -50%, Later 100 give 75 |
| Estimator.ExampleNoEarlier | app.py:107-110 | no Earlier rows and Later mean 200 give 100, whatever the growth |
| Estimator.ExampleNoLater | app.py:123-124 | no Later rows give the warning, whatever the Earlier rows |
| Schema.MissingColumns | app.py:48-50 | the reported columns are required ones, each required column is reported exactly when absent, and none is reported exactly when all are present |
| Schema.ExtraColumnsHarmless | app.py:49 | extra columns never cause or add a missing-column error |
| Schema.ColumnOrderIrrelevant | app.py:49-50 | only which columns are present matters, not their order or repetition |
| Schema.ExampleDemandMissing | app.py:48-50 | a table lacking only "Demand" is rejected naming only "Demand" |
| CampaignApp.DemandOf | app.py:24 | reading a cleaned cell gives back the value stored in it |
| CampaignApp.StoredValue | app.py:24 | storing a parsed value and reading it back gives the value |
| CampaignApp.Table | app.py:46-52 | the cleaned table has one row per record, labelled by its position |
| CampaignApp.Session | app.py:44-124 | no contract of its own: one pass of the page (schema error, then a keyword under three characters, then waiting for the button, then both period lists and the estimate); its properties are Run, MissingColumnsReported, ShortKeywordStops, ListedRowsFaithful, DefaultListsFiltered, WarningWithoutLater and GrowthNeverLowers |
| CampaignApp.Run | app.py:44-124 | a pass ends as `Session` says; with a missing column the Demand array is untouched; otherwise it holds the cleaned column |
| CampaignApp.MissingColumnsReported | app.py:48-50 | a pass stops with a schema error exactly when a required column is absent, naming exactly the absent ones |
| CampaignApp.ShortKeywordStops | app.py:56-57 | with the columns present, a pass stops before filtering exactly when the keyword has fewer than three characters |
| CampaignApp.PeriodRowsFaithful | app.py:84-100 | a row listed and ticked for a period passes that period's filter and is the row built from record `id`: that record's country, description and dates, and the parsed value of its raw Demand cell |
| CampaignApp.ListedRowsFaithful | app.py:84-100 | in a finished pass, every row listed and ticked for either period passes that period's filter and carries its record's country, description, dates and parsed demand |
| CampaignApp.RowsOfTable | app.py:46-52 | every row of the cleaned table carries the country, description and dates of the record at its label, and the parsed value of that record's raw Demand cell |
| CampaignApp.DefaultListsFiltered | app.py:84-100 | with all checkboxes left ticked, each period's selection is exactly its filtered rows |
| CampaignApp.WarningWithoutLater | app.py:123-124 | a finished pass warns instead of estimating exactly when no Later row is selected |
| CampaignApp.GrowthNeverLowers | app.py:68-110 | since the growth input is never negative, the estimate is never below the plain average of the means when the Earlier mean is not negative |

## Left out

- Streamlit widgets, titles, markdown and the `:.2f` formatting of the result
  (app.py:40-42, 59-83, 112-122). The user's entries are the fields of
  `CampaignApp.Query`, and the page's end state is a `CampaignApp.Outcome`.
- File reading, `chardet` encoding detection and `pd.read_csv` (app.py:7-12). The
  model starts from the column names, the records and the raw `Demand` cells.
- The `pd.to_datetime(dayfirst=True, errors='coerce')` date grammar (app.py:30-31).
  A date is the timestamp pandas gives it when it parses the queried country's
  rows, or None. Since pandas 2.0, `to_datetime` on a column takes its format from
  the first value that is not missing, so a date that would parse alone can still
  be None. One pass has one country, and both periods filter the same rows, so one
  fixed `Option<int>` per record covers this. The window bounds are timestamps of
  the chosen days.
- Regex semantics of `str.contains` (app.py:33). The keyword is treated as a
  literal substring, and `PeriodFilter.LiteralKeyword` restricts it to keywords
  without regex metacharacters.
- Python `float()` extras: exponents, `inf`/`nan`, underscores, surrounding
  whitespace, non-ASCII digits. The modelled grammar is an optional sign, digits,
  and an optional dot with digits.
- IEEE floating point: values and means are exact reals, so rounding is not modelled.
- How pandas renders an already numeric cell as text. It is the parameter `render`
  of `DemandNormalizer.ParseDemand`. Which cells pandas reads as numbers rather
  than text is decided by the `Cell` given.
- Rows whose country is NaN. A country is always a string, and the country list
  of the select box (app.py:53-54) is not modelled: any country may be queried.
- The `Campaign name` column's contents, which only label the checkboxes (app.py:91, 98).
- The catch-all `except` (app.py:127-128) and the errors it catches. One of them is
  reachable from a table the model accepts. When the Description column holds no
  text at all (every cell empty, or every cell a number), pandas does not store it
  as text, and `str.contains` at app.py:33 raises once the button is pressed. The
  page then shows the catch-all error message. The model instead gives every such
  row a `None` description, lists no rows in either period and ends with the
  Later-period warning. `CampaignApp.Outcome` has no case for the caught error.
- Streamlit's rerun rule. The checkboxes sit inside the button branch (app.py:83-100),
  and clearing one reruns the page with the button released, so the page never
  shows an estimate with a cleared box. `CampaignApp.Query` still allows `pressed`
  together with cleared boxes. This over-approximates what the page reaches, and the
  case it does reach is `CampaignApp.DefaultListsFiltered`.
- `Estimator.EstimateDemand` accepts any real growth, as the formula does. Only
  `CampaignApp.Session` and `CampaignApp.Run` require the 0–100 range of the
  number input (app.py:68-74).
