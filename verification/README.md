# Pension contribution bases: report extraction and regulatory-base engine

A Dafny model of the core of a service that reads the monthly contribution
bases ("bases de cotización") of a Spanish Social Security contributions report
and computes the window of bases a retirement pension is based on. The model
covers four parts:

- **Report extraction** (`ExtractorBases`, `ExtractorBasesCotizacion.run`).
  The report text is read line by line. A "Régimen:" line opens a section
  of the general regime or the self-employed one. A general line names its
  employer through the pattern
  `Empresa/Razón\s+Social:\s*(.+?)\s+CCC:`, modelled with the leftmost, greedy
  and lazy choices that `re.search` makes, or through a split-based
  fallback. A line that starts with a four-digit year gives up to twelve
  monthly records, one per cell that holds an amount in Spanish notation
  (`1.234,56`). The records are finally sorted by year and month.
- **Records** (`BaseCotizacion`, `BasesCotizacion`). A record's amount is
  validated to whole cents. The container appends records.
- **The engine** (`SimuladorPeriodos`). The constructor validates the
  input and groups the records by month. A month worked for several employers
  is merged into one record held to the year's caps. The engine then projects
  the months up to retirement at the mean of the last six months. It walks
  back over the computation window, filling each month with no record (a
  "laguna") by the gap rule of article 209.1 of the Ley General de la
  Seguridad Social and its transitional provision 41. The last 24 months are
  kept as they are and older months are revalued by their index. Statistics
  and the regulatory base are computed. The whole computation runs once
  under the 2023 reform parameters of the retirement year and once under
  the earlier rules (300 months, divisor 350), and the more favourable run
  is kept.
- **Request validators** (`SimulateRequest`): retirement date shape, access
  regime and sex.

Amounts are whole euro cents (`Money.Cents`). Python's `round(x, 2)` is
rounding half up on exact rationals (`Money.RoundHalfUp`). A month `MM/YYYY`
is the index `year * 12 + month - 1` (`MonthYear`), so `relativedelta` is
integer arithmetic. Errors the source raises are `Err` values of a `Result`
(`Wrappers`). The configuration tables the engine loads (computation
parameters, revaluation indices, caps) are a parameter (`Tables.Tables`)
rather than files. The report's text is a parameter rather than a PDF.

Files: `wrappers.dfy`, `money.dfy`, `month_year.dfy`, `text.dfy` (the string
operations used), `constants.dfy`, `records.dfy`, `api_validators.dfy`,
`tables.dfy`, `sorting.dfy` (Python's stable `list.sort`), `ingestion.dfy`,
`projection.dfy`, `window.dfy`, `revaluation.dfy`, `statistics.dfy`,
`engine.dfy`, `report_cells.dfy`, `employer_pattern.dfy`, `extractor.dfy`.

## Model

| member | source | states |
|---|---|---|
| Records.ValidateBase | models/bases_cotizacion.py:29-35 | A missing amount becomes 0 and any other is rounded to the nearest cent |
| Records.ValidateWholeCents | models/bases_cotizacion.py:29-35 | Validating an amount that is already whole cents gives it back unchanged |
| Records.NewRecord | models/bases_cotizacion.py:20-35 | A built record holds the validated amount, the given month, employer and regime, and no multi-employer metadata |
| Records.ContributionList.constructor | models/bases_cotizacion.py:45 | A new container holds no records |
| Records.ContributionList.Add | models/bases_cotizacion.py:47-49 | `agregar_base` appends the record at the end and leaves the earlier records as they were |
| ApiValidators.ValidateRetirementDate | models/api_models.py:35-42 | Accepts exactly the texts of two digits, a slash and four digits, and returns them unchanged; anything else is an error |
| ApiValidators.EngineDatesPassValidator | models/api_models.py:35-42 | Every retirement date the engine can read passes the request validator |
| ApiValidators.ValidatorAcceptsMonthThirteen | models/api_models.py:40 | The validator accepts "13/2025", which the engine then refuses as not a month |
| ApiValidators.ValidateRegime | models/api_models.py:44-50 | Accepted exactly when the upper-cased text is GENERAL or AUTONOMO; the result is the upper-cased text |
| ApiValidators.ValidateSex | models/api_models.py:52-58 | Accepted exactly when the upper-cased text is MASCULINO or FEMENINO; the result is the upper-cased text |
| ApiValidators.ValidateRegimeIdempotent | models/api_models.py:44-50 | Validating an accepted regime again returns it unchanged |
| ApiValidators.ValidateSexIdempotent | models/api_models.py:52-58 | Validating an accepted sex again returns it unchanged |
| ApiValidators.DefaultRegimeValid | models/api_models.py:32 | The default regime "GENERAL" is accepted as it is |
| ApiValidators.ValidateRegimeLowerCase | models/api_models.py:44-50 | Lower-case "autonomo" is accepted as "AUTONOMO" |
| Money.RoundHalfUp | services/simulator.py:248 | The result is the whole number within half a unit of the value, halves going up |
| Money.RoundHalfUpMonotone | services/simulator.py:248 | Rounding never reverses the order of two values |
| Money.Scale | services/simulator.py:519 | `round(base * index, 2)` is the product to the nearest cent |
| Money.ScaleShare | services/simulator.py:398-403 | A share of at most 100% of a non-negative amount lies between 0 and the amount |
| Money.ScaleMonotone | services/simulator.py:519 | A larger factor never gives a smaller amount |
| Money.Divide | services/simulator.py:566 | `round(total / divisor, 2)` is the quotient to the nearest cent |
| Money.MeanRounds | services/simulator.py:239-248 | The mean, computed on whole cents, is the exact quotient of the sum by the count rounded to the nearest cent, halves going up |
| Money.MeanWithin | services/simulator.py:239-248 | The rounded mean of some amounts lies between the smallest and the largest of them |
| MonthYear.IndexParts | services/simulator.py:166 | The year and the month are recovered from the month index |
| MonthYear.ParseRender | services/simulator.py:91 | Parsing "MM/YYYY" for months 1-12 of years 1-9999 gives that month's index |
| MonthYear.ParseFormat | services/simulator.py:438-440 | Formatting a month with `%m/%Y` and parsing it back gives the same month |
| MonthYear.FormatParse | services/simulator.py:91 | Every text the engine accepts as a date is the canonical text of the month it denotes |
| MonthYear.ParseInjective | services/simulator.py:117-120 | Two different texts never denote the same month, so grouping by text is grouping by month |
| Tables.FindYear | services/simulator.py:193 | Finds an entry for the year exactly when the table has one, and it is the first such entry |
| Tables.FirstNearest | services/simulator.py:271-272 | Picks an entry at the least distance from the year, and no earlier entry is as near |
| Tables.SmallestNearest | services/simulator.py:195-196 | Picks an entry at the least distance from the year, with the smallest year among those as near |
| Tables.LookupParams | services/simulator.py:184-205 | Fails exactly on an empty table; a year in the table gets its own entry; otherwise the nearest year, ties to the smaller year |
| Tables.LookupCaps | services/simulator.py:257-273 | Fails exactly on an empty table; otherwise gives the caps of the year or of the first nearest year in table order |
| Tables.LookupCapsExact | services/simulator.py:267-268 | A year the table holds once gets its own caps |
| Tables.NearestOfPresentYear | services/simulator.py:193-199 | When the year is in the table, both nearest-year rules pick that year, agreeing with the exact branch |
| Tables.MinimumBase | services/simulator.py:275-286 | The minimum base of the year's caps, failing exactly when there are no caps |
| Tables.TieBreaks | services/simulator.py:195-196 | For two years equally near, the caps lookup keeps the first in table order and the parameter lookup keeps the smaller year |
| Sorting.Sort | services/simulator.py:165-168 | The result has the same length and the same multiset of elements |
| Sorting.SortSorted | services/simulator.py:165-168 | The sort's result is in key order |
| Sorting.SortStable | services/extractor.py:149-154 | Elements with the same key keep their relative order |
| Sorting.SortSortedIdentity | services/simulator.py:649-653 | Sorting a sequence already in key order leaves it unchanged |
| Sorting.SortStrict | services/simulator.py:165-168 | Elements with distinct keys come out in strictly increasing key order |
| Ingestion.FirstNegative | services/simulator.py:111-115 | Finds the first entry with a negative amount, or none when no entry has one |
| Ingestion.MonthsDistinct | services/simulator.py:118-120 | Each month text is listed once in the grouping |
| Ingestion.MonthsListed | services/simulator.py:118-120 | A month text is listed exactly when some entry has it, and then it has entries |
| Ingestion.OfMonthMembers | services/simulator.py:118-120 | A month's group holds exactly the entries of that month, in input order |
| Ingestion.Largest | services/simulator.py:320 | Picks the first entry with the largest amount |
| Ingestion.Clamp | services/simulator.py:308-317 | Below the minimum gives the minimum ("minimo"); otherwise above the maximum gives the maximum ("maximo"); otherwise the rounded sum ("ninguno") |
| Ingestion.AggregateMerges | services/simulator.py:288-335 | A merged month fails only when the text after its '/' is not a whole number (reported as such) or there are no caps; its record is the capped sum, with the regime of the largest entry, the multi-employer name and the metadata |
| Text.IntValueDigits | services/simulator.py:303 | `int()` reads plain digits as their value |
| Text.IntValueNegative | services/simulator.py:303 | `int()` reads a minus sign before plain digits as the negated value |
| Text.IntValuePadded | services/simulator.py:303 | `int()` ignores blanks around plain digits |
| Ingestion.ParseYearField | services/simulator.py:303 | On a month text that parses, the year read after its '/' is the month's own year, so a merged month is held to its own year's caps |
| Ingestion.LonePassesThrough | services/simulator.py:128-137 | A month with one entry keeps its amount rounded, its employer and its regime, with no metadata |
| Ingestion.GroupByMonth | services/simulator.py:109-123 | Fails exactly on a negative amount and reports the first one; otherwise groups each month's entries in order of first appearance |
| Ingestion.CombineAll | services/simulator.py:125-162 | The loop yields one record per month in first-appearance order, or the first month's error |
| Ingestion.ProcessInputs | services/simulator.py:99-170 | The imperative ingestion equals the ingestion specification |
| Ingestion.CombineOk | services/simulator.py:128-151 | A month's record is made exactly when the month has one entry, or the text after its '/' is a whole number and there are caps; an unreadable month text is left to the final sort |
| Ingestion.IngestDescending | services/simulator.py:164-168 | The engine's records run strictly from the most recent month back, one per month |
| Ingestion.IngestCoversMonths | services/simulator.py:99-170 | Every input month has its record among the engine's records, and each engine record belongs to an input month |
| Ingestion.IngestOk | services/simulator.py:99-170 | Ingestion fails exactly on a negative amount, an unreadable month text, or a merged month without caps |
| Ingestion.UnreadableReportedAtSort | services/simulator.py:125-168 | With caps and a whole-number year after every '/', every month merges, and the first month text that is not a month, in order of first appearance, is the error the final sort reports |
| Ingestion.IngestOkSufficient | services/simulator.py:99-170 | Non-negative amounts, readable months, and caps or no merged month make ingestion succeed |
| Projection.LatestAt | services/simulator.py:221 | The first record of the most recent month |
| Projection.RecentHasLatest | services/simulator.py:229-233 | A record dated on or after the cut-off puts its amount among the recent ones |
| Projection.ProjectionMonths | services/simulator.py:207-255 | Nothing is projected without records or when retirement is not later; otherwise one record per month from the one after the latest to the one before retirement |
| Projection.ProjectionPriced | services/simulator.py:228-251 | Each projected record is "SIMULADA", of the access regime, priced between the smallest and largest of the last six months' amounts |
| Projection.ProjectionStopsBeforeRetirement | services/simulator.py:241-253 | Records 09/2024-01/2025 with retirement 06/2025 project exactly 02/2025 to 05/2025 |
| PeriodWindow.IndexOfLast | services/simulator.py:420-422 | The month index holds exactly the months of the records, each mapped to the last record of that month |
| PeriodWindow.GapBaseOk | services/simulator.py:358-403 | A gap is priced unless the scheme is general and there are no caps |
| PeriodWindow.GapBaseWithinMinimum | services/simulator.py:382-403 | A gap never exceeds a non-negative minimum base, and the first 48 gaps get all of it |
| PeriodWindow.GapBaseNonIncreasing | services/simulator.py:384-403 | A later gap is never priced higher than an earlier one |
| PeriodWindow.GapBaseFemaleAtLeast | services/simulator.py:389-403 | A woman's gap is never priced lower than anyone else's same gap |
| PeriodWindow.GapTierEdges | services/simulator.py:385-403 | With a 1000.00 minimum, a woman gets 1000.00 at gaps 48 and 60, 800.00 at 61 and 84, and 500.00 at 85; a man gets 500.00 at gap 49 |
| PeriodWindow.Missing | services/simulator.py:435-446 | The gap counter never exceeds the months walked |
| PeriodWindow.MissingNone | services/simulator.py:435-446 | No gap is counted exactly when every month walked has a record |
| PeriodWindow.WindowErrPersists | services/simulator.py:437-457 | Once the walk fails, a longer walk fails in the same way |
| PeriodWindow.WindowShape | services/simulator.py:437-457 | A successful walk of n months holds one item per month, the k-th for month top - k |
| PeriodWindow.WindowOk | services/simulator.py:437-457 | The walk fails exactly when one of its gaps cannot be priced |
| PeriodWindow.GapWindowOk | services/simulator.py:437-457 | With the gap rule, the walk fails only at a gap of a general scheme with no caps |
| PeriodWindow.WindowContents | services/simulator.py:430-457 | One record per month from the top back; a month with a record reuses it unchanged; a gap gets a "LAGUNA" record priced by its ordinal among this walk's gaps |
| PeriodWindow.WindowPrefix | services/simulator.py:434-437 | The gap counter restarts in each walk, so a shorter walk is the start of a longer one |
| Revaluation.PeriodsPartition | services/simulator.py:545-557 | The two period counts add up to the number of items, and the two period sums add up to the total |
| Revaluation.ClassifiedWindow | services/simulator.py:460-497 | In a window going back from the month before retirement, exactly the first 24 records are not revalued, and no record changes |
| Revaluation.RevaluedAllEffect | services/simulator.py:499-529 | Recent items are kept; older ones take the amount times their month's index rounded, or keep it under index 1.0, and record the original amount; nothing else changes |
| Revaluation.RevaluedAllCounts | services/simulator.py:511-527 | Revaluation moves no item between periods |
| Revaluation.RevaluationRaises | services/simulator.py:514-521 | With indices of at least 1, the revalued sum never drops and the recent sum is unchanged |
| Revaluation.ResortKeepsOrder | services/simulator.py:649-653 | The re-sort by date leaves a window in strictly decreasing month order unchanged |
| Revaluation.RevaluedWindow | services/simulator.py:640-653 | A window's items are its records classified and revalued, in the same order; the first 24 are not revalued |
| Statistics.SummarizeFacts | services/simulator.py:531-567 | No statistics for an empty window; an error for a zero divisor; otherwise the counts and sums add up and the regulatory base is the total over the divisor to the cent |
| Statistics.Choose | services/simulator.py:693-718 | Keeps the scheme with the larger regulatory base, the reform on a tie; needs both statistics |
| Engine.SetupFacts | services/simulator.py:20-97 | The constructor accepts exactly valid inputs (records present, a date, a known regime, records that ingest, parameters for the retirement year) and reports the first failed check: no records, then the date, then the regime |
| Engine.SetupAccepted | services/simulator.py:20-97 | Once accepted: the records are the ingested ones, one per month, most recent first; the date reads back as given; the regime is a known one; the sex is upper-cased; the parameters are those of the retirement year |
| Engine.Create | services/simulator.py:20-64 | Building the engine succeeds or fails as the specification says, with its error; a new engine has nothing processed |
| Engine.Simulator.constructor | services/simulator.py:20-64 | The engine holds the validated configuration and tables and has processed nothing |
| Engine.Simulator.Project | services/simulator.py:207-255 | `simular_periodo_futuro` computes the projected months |
| Engine.LatestPosition | services/simulator.py:221 | The loop finds the first record of the most recent month |
| Engine.RecentAmounts | services/simulator.py:229-233 | The loop collects the amounts of the records dated on or after the cut-off, in order |
| Engine.ProjectMonths | services/simulator.py:245-253 | The loop yields `count` monthly records from `first` on at the given amount |
| Engine.MonthIndex | services/simulator.py:420-422 | The loop builds the month index, each month to its last record |
| Engine.WalkBack | services/simulator.py:430-457 | The backwards walk with its gap counter equals the window specification |
| Engine.Simulator.PeriodBases | services/simulator.py:405-458 | The window of the retirement year's length, or of 300 months under the earlier rules |
| Engine.Simulator.AddPeriod | services/simulator.py:460-497 | `añadir_periodo` classifies each record in order |
| Engine.Simulator.Revalue | services/simulator.py:499-529 | `revalorizar_bases` revalues each item in order |
| Engine.Simulator.RunScheme | services/simulator.py:633-691 | One scheme's window, periods, revaluation, re-sort and statistics, with that scheme's length and divisor |
| Engine.Simulator.ProcessComplete | services/simulator.py:773-801 | Runs both schemes and keeps the chosen scheme's items; on failure the kept items are unchanged |
| Engine.Simulator.PeriodSums | services/simulator.py:584-612 | After a successful run, `suma_periodo_revalorizado` and `suma_periodo_no_revalorizado` are the chosen scheme's period sums, and together they make its total, the sum of every kept amount |
| Engine.Simulator.TotalSum | services/simulator.py:584-621 | `suma_total` is the sum of every kept amount |
| Engine.SchemeWindowOk | services/simulator.py:405-458 | A scheme's window fails only at a month with no record, under the general regime, with no caps |
| Engine.SchemeWindowContents | services/simulator.py:405-458 | The window covers the n months before retirement, most recent first; a month with a record takes the last such record unchanged |
| Engine.GapsOverRecords | services/simulator.py:440-453 | A month with no record gets the gap rule's "LAGUNA" record for its ordinal among the gaps met so far |
| Engine.RunOfFacts | services/simulator.py:640-659 | A run fails only on a zero divisor with a non-empty window; its items are the window's records classified and revalued in order, the first 24 not revalued, with the items' statistics |
| Engine.SchemeRunFacts | services/simulator.py:633-691 | A scheme run fails exactly when its window fails or the divisor is zero; otherwise it is the run of the window |
| Engine.SchemeRunItems | services/simulator.py:633-691 | A successful run has one item per month and statistics exactly when its window is not empty |
| Engine.SchemesShareRecentMonths | services/simulator.py:633-691 | Two schemes agree on shared months: the shorter run's items start the longer run |
| Engine.SchemeWindowPrefix | services/simulator.py:405-458 | A shorter scheme window is the start of a longer one |
| Engine.CompletedOk | services/simulator.py:773-801 | The computation succeeds exactly when both runs succeed and the reform window is not empty; otherwise statistics are missing |
| Engine.CompletedFacts | services/simulator.py:773-801 | Both runs have their full lengths; the chosen one has the larger regulatory base, the reform on a tie; a reform window of up to 300 months starts the other run |
| ReportCells.ParseCellDropsDots | services/extractor.py:116 | A '.' in a cell groups thousands: removing it changes nothing |
| ReportCells.ParseCellComma | services/extractor.py:116 | Digits, a ',' and digits read as the whole part plus the fraction |
| ReportCells.ParseCellCents | services/extractor.py:111-118 | A cell with two digits of cents reads as its euros and cents |
| ReportCells.CellTextRoundTrip | services/extractor.py:111-118 | The text of an amount reads back as that amount, and a record built from it holds exactly those cents |
| ReportCells.ParseCellExamples | services/extractor.py:111-118 | "1.234,56" is 1234.56; "---" and "Pendiente" are no amount |
| EmployerPattern.MatchAtChoice | core/config/constants.py:24 | The match found at a place is a real match; none found means none exists; it has the latest name start and, for that, the earliest name end |
| EmployerPattern.SearchChoice | services/extractor.py:55 | `re.search` finds a match at the leftmost place with one, with the greedy and lazy choices; none found means the pattern matches nowhere |
| EmployerPattern.SearchCanonical | services/extractor.py:55-57 | In a line as reports write it, the search finds the marker before the name, and the group is exactly the name |
| Extractor.ReportContext.constructor | services/extractor.py:33 | The section starts with regime and employer unset |
| Extractor.ReportContext.Update | services/extractor.py:47-82 | `_actualizar_contexto` moves the section as `Updated` says: a GENERAL line gives the general regime and its employer, an AUTÓNOMOS line the self-employed one |
| Extractor.EmployerOfUnmarked | services/extractor.py:76-77 | A GENERAL line without the "Empresa/Razón" marker names "Empresa no identificada" |
| Extractor.EmployerOfFallback | services/extractor.py:59-72 | On a line the pattern misses because "Social:" follows the marker with no blank, with a single marker, the fallback split still yields exactly the name |
| Extractor.EmployerOfCanonical | services/extractor.py:53-58 | A GENERAL line naming its employer the way reports do yields exactly that name |
| Extractor.ReadCells | services/extractor.py:93-103 | The loop over the cells yields their records |
| Extractor.ProcessLine | services/extractor.py:85-108 | `_procesar_linea_bases` yields the records of the line in the current section |
| Extractor.FilledMonths | services/extractor.py:93-95 | The months with records are exactly the cells holding an amount, each once, increasing |
| Extractor.CellRecordsShape | services/extractor.py:93-103 | One record per filled cell in order, month i from cell i, with the line's year, regime and employer; an empty cell does not shift later months |
| Extractor.LineRecordsBounds | services/extractor.py:89-103 | A year line gives at most twelve records of the section's regime and employer; a non-numeric first word gives none |
| Extractor.MonthTextParses | services/extractor.py:98 | For four-digit years the month text is the canonical "MM/YYYY", which the engine reads back to that month |
| Extractor.Extract | services/extractor.py:26-44 | The loop over the lines equals the extraction specification |
| Extractor.SectionAfterOk | services/extractor.py:33-42 | Reading lines keeps the section well formed; before any "Régimen:" line there is no section |
| Extractor.NoSectionNoRecords | services/extractor.py:38-42 | Lines before the first "Régimen:" line give no records |
| Extractor.RecordsOfSections | services/extractor.py:26-44 | Every record has a known regime, the self-employed employer when self-employed, and a month of its line's year |
| Extractor.TextKeyOfMonth | services/extractor.py:149-154 | The sort key of a record for a month of a year is that month's index |
| Extractor.IndexOrder | services/extractor.py:149-154 | Ordering by the key is ordering by year, then month |
| Extractor.Run | services/extractor.py:140-160 | `run` returns a new container holding the extracted records sorted by year and month |
| Extractor.RunOrder | services/extractor.py:149-154 | The sorted records are in year and month order, are a permutation of the extracted ones, and keep the reading order within a month |

## Left out

- Loading the PDF (`cargar_pdf`, `__post_init__`'s file check), HTTP endpoints, YAML configuration loading, `to_json` and the result dictionary of `_generar_resultado_completo`. The report text and the three tables are parameters instead.
- Floating point. Amounts are exact rationals, and `round(x, 2)` is half up on the exact value. Python rounds the binary double half to even, which can differ on values such as 2.675.
- `float()` on cells accepts exponents, `inf`, `nan`, underscores and surrounding blanks. The model reads only an optional sign and digits with at most one point. `int()` on the year word of a report line accepts a sign, underscores and non-ASCII digits, which the extractor model does not.
- `\d` and `str.isspace` on non-ASCII characters; `str.upper()` on non-ASCII letters (ASCII only here).
- `datetime.strptime("%m/%Y")` also accepts one-digit months; only the two-digit form is modelled. Years before 1000 are not modelled as text.
- `^\d{2}/\d{4}$` also matches before a trailing newline; the model's date shape does not.
- Type checks on the input dictionary (`isinstance`) and missing keys in the input entries (a `KeyError`). The model's input entries always have all their fields.
- `_validar_coherencia_pluriactividad` always returns true. The model has no such check.
- Revaluation indices are keyed by month index rather than by "MM/YYYY" text. This is the same for canonical texts.
- The error printed and swallowed in `_procesar_linea_bases`. The model's line reader never raises, so nothing is lost.
- The exception wrapping in `run`.
- Extractor.TextKey: gives 0 for a month text that is not "MM/YYYY", where `run` would raise. The extractor never produces such a text (Extractor.RecordsOfSections).
- Extractor.Run: `run` sorts its list in place. The model computes the sorted sequence, in the same stable order.
- Ingestion.YearField: `int()` also accepts non-ASCII digits in the year of a merged month; the model refuses them.
- tests/services/test_simulator.py:131 expects five projected months for retirement in 06/2025, but the code stops before the month of retirement and projects four. Lines 8-9 expect a `ValidationError` where the code raises `ValueError`. The model follows the code (Projection.ProjectionStopsBeforeRetirement).
- `cumple_condiciones_hombre` is always false in the source and is a constant here.
