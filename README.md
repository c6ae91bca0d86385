# Average programmer salaries per language: a Dafny model

`view_average_salary.py` estimates the average salary that programmers in
Moscow are offered, per programming language, from two job boards, both queried for
Moscow only: HeadHunter (api.hh.ru, "HH" below), whose answers report
`pages`, and SuperJob (api.superjob.ru, "SJ" below), whose answers report
`total` and which needs an `X-Api-App-Id` key.
For each of ten languages, a paginated collector fetches every page of
vacancies. It keeps the ones paid in roubles (`"RUR"` or `"rub"`) and turns
each salary range into one estimate with `predict_salary`. It then averages
the estimates with `get_average_salary`. The statistics collectors build one
record per language: `vacancies_found`, `vacancies_processed` and
`average_salary`.

The model has one module per part of the pipeline:

- `Wrappers`: `Option` and `Result`.
- `Estimator`: `predict_salary` under Python truthiness. `Harvest` is what the
  per-page item loop appends.
- `Aggregator`: `get_average_salary`, with `int()` as truncation toward zero.
- `Pagination`: the `while page < pages` loop both collectors share, as a
  specification (`Walk`, `Requests`). The HTTP layer is a finite sequence of
  replies, one per requested page index. A reply is either a decoded body or
  the status of a 4xx or 5xx answer; `raise_for_status` aborts on the latter.
- `HeadHunter` and `SuperJob`: the two collectors. Each is a method with the
  source's own loop, proved equal to `Walk`. A ghost out-parameter records
  the page indices it requests.
- `OrderedDict`: a Python dict filled key by key in insertion order. `Fill`
  is the loop that stops at the first value that cannot be computed.
- `Statistics`: `LANGUAGES` and the two `collect_statistics_*` loops.

Salaries are exact `real` numbers. A missing JSON field is `None`. Two
details of the code shape the model's inputs and results:

- `predict_rub_salary_*` return only the estimates.
- `vacancies_found` comes from `get_vacancies_count_*` (lines 15-46). Its
  result is the input map `found` here.

## Model

| member | source | states |
|---|---|---|
| Estimator.PredictSalary | view_average_salary.py:49-56 | `None` iff neither bound is truthy. Both bounds give the midpoint. A lone lower bound gives 6/5 of it. A lone upper bound gives 4/5 of it. |
| Estimator.ZeroBoundIsAbsent | view_average_salary.py:49-56 | A bound of 0 gives the same estimate as a missing bound. `(0, 0)` and `(None, None)` both give `None`. |
| Estimator.NonNegativeBoundsEstimate | view_average_salary.py:49-56 | With non-negative bounds, the estimate is truthy iff some bound is. Two bounds put it between them. A lone lower bound gives more than that bound. A lone upper bound gives a positive value below that bound. |
| Estimator.OppositeBoundsGiveDroppedEstimate | view_average_salary.py:50-51 | For `x ≠ 0`, bounds `-x` and `x` give the estimate 0, which is falsy and so dropped. |
| Estimator.Truthy | view_average_salary.py:50-54 | Python truthiness of an optional number: `None` and `0` are false. It has no contract of its own; `ZeroBoundIsAbsent` and `Kept` state its effect. |
| Estimator.Kept | view_average_salary.py:88-89 | One estimate appends at most one entry. It appends exactly one, its value, iff it is truthy. |
| Estimator.Harvest | view_average_salary.py:81-89 | A run of items never appends more entries than it has items. |
| Estimator.HarvestHasNoZero | view_average_salary.py:88-89 | No collected entry is 0. |
| Estimator.HarvestExtend | view_average_salary.py:81-89 | One more item appends exactly that item's entries, after the earlier ones. |
| Estimator.HarvestConcat | view_average_salary.py:81-89 | Two runs of items, one after the other, collect the first run's entries followed by the second's. |
| Estimator.HarvestSingle | view_average_salary.py:81-89 | One item collects its estimate if that is truthy, and nothing otherwise. |
| Estimator.SkippedItemIgnored | view_average_salary.py:83-84 | An item with a falsy estimate can be removed from anywhere in the run without changing what is collected. |
| Aggregator.Sum | view_average_salary.py:138 | `sum()` as a left fold. It has no contract of its own; `SumBounds` characterizes it. |
| Aggregator.Trunc | view_average_salary.py:138 | `int()` on a number rounds toward zero. It keeps the sign. |
| Aggregator.AverageSalary | view_average_salary.py:134-139 | The count is the list's length. The average is `None` iff the list is empty. Otherwise it is sum / length truncated toward zero. |
| Aggregator.AverageSalaryExamples | view_average_salary.py:134-139 | `[]` gives `(None, 0)`. `[100000, 200000]` gives `(150000, 2)`. |
| Aggregator.SumBounds | view_average_salary.py:138 | If every element lies in `[lo, hi]`, the sum lies in `[n*lo, n*hi]`. |
| Aggregator.AverageWithinRange | view_average_salary.py:138 | Non-negative estimates in `[lo, hi]` average to a value between `floor(lo)` and `floor(hi)`. |
| Pagination.Walk | view_average_salary.py:62-93 | The `while page < pages` loop as a specification. It has no contract of its own; `WalkGathersRequestedPages`, `StopsAtFirstExhaustedPage` and `ConstantPageCount` characterize it. |
| Pagination.Requests | view_average_salary.py:62-65 | At least one request is made, and never more than the replies. |
| Pagination.StopsAtFirstExhaustedPage | view_average_salary.py:65-91 | Every page but the last requested one was answered and reported a count above the next index. The last one failed, or its count does not exceed the next index. |
| Pagination.WalkGathersRequestedPages | view_average_salary.py:65-93 | A fetch succeeds iff every requested page is answered. It then yields those pages' entries in page order. An abort carries the status of the last requested page. |
| Pagination.ConstantPageCount | view_average_salary.py:65-91 | For `page < c`: if every answer reports count `c`, then exactly `c - page` requests are made from `page` on, and the fetch succeeds. |
| Pagination.GatheredIsHarvest | view_average_salary.py:81-91 | The entries of a run of pages are what the item loop collects from all their items, in page order and then item order. |
| HeadHunter.HhEstimate | view_average_salary.py:82-87 | A vacancy with no salary, or with a currency other than `"RUR"`, is skipped. |
| HeadHunter.HhView | view_average_salary.py:78-79 | A page collects at most one entry per item of `items` (missing `items` reads as `[]`). A missing `pages` reads as 1. |
| HeadHunter.HhContribution | view_average_salary.py:81-89 | A vacancy appends exactly one entry, its estimate, iff it has a salary in `"RUR"` whose estimate is truthy. Otherwise it appends none. |
| HeadHunter.HhNonRoubleIgnored | view_average_salary.py:82-84 | A vacancy without a salary, or not in `"RUR"`, never changes what is collected. |
| HeadHunter.HhCollectsRequestedItems | view_average_salary.py:59-93 | A completed fetch answered every requested page. It holds the entries of all their items, in page order and then item order. |
| HeadHunter.HhReportedPageCount | view_average_salary.py:63-91 | If every answer reports `pages = c` (a missing `pages` reads as 1), exactly `c` requests are made when `c ≥ 1` and exactly one when `c ≤ 0`, and the fetch succeeds. |
| HeadHunter.AppendHhEstimates | view_average_salary.py:81-89 | The item loop appends exactly the page's collected entries to the list. |
| HeadHunter.PredictRubSalaryHh | view_average_salary.py:59-93 | The loop returns exactly the `Walk` outcome. Its ghost request trace is page indices `0, 1, …, n-1`, where `n` is the `Requests` count (at least one request, the first for page 0). |
| SuperJob.SjPageCount | view_average_salary.py:115 | A missing `total` gives 1 page. Otherwise `total` lies in `[(c-1)*100, c*100)`. |
| SuperJob.SjPageCountQuirk | view_average_salary.py:115 | The count is the pages the matches fill, plus one when `total` is a multiple of 100. 250 and 200 each give 3 requests, and 0 gives 1. |
| SuperJob.SjEstimate | view_average_salary.py:118-125 | A vacancy with a currency other than `"rub"` is skipped. |
| SuperJob.SjView | view_average_salary.py:114-115 | A page collects at most one entry per item of `objects` (missing `objects` reads as `[]`). A missing or non-negative `total` gives a page count of at least 1. |
| SuperJob.SjContribution | view_average_salary.py:117-127 | A vacancy appends exactly one entry, its estimate, iff it is in `"rub"` and the estimate is truthy. |
| SuperJob.SjForeignCurrencyIgnored | view_average_salary.py:122-123 | A `"usd"` vacancy, or any other non-rouble one, never changes what is collected, whatever its bounds. |
| SuperJob.SjRequestsForTotal | view_average_salary.py:102-115 | If every answer reports the same `total` ≥ 0, then `total / 100 + 1` requests are made and the fetch succeeds. |
| SuperJob.SjCollectsRequestedItems | view_average_salary.py:96-131 | A completed fetch answered every requested page. It holds the entries of all their items, in page order and then item order. |
| SuperJob.AppendSjEstimates | view_average_salary.py:117-127 | The item loop appends exactly the page's collected entries to the list. |
| SuperJob.PredictRubSalarySj | view_average_salary.py:96-131 | The loop returns exactly the `Walk` outcome. Its ghost request trace is page indices `0, 1, …, n-1` (at least one request, the first for page 0). |
| OrderedDict.Empty | view_average_salary.py:144 | `{}` is a well-formed dict with no keys. |
| OrderedDict.Insert | view_average_salary.py:147-151 | `d[k] = v` stores `v` under `k` and keeps every other entry. A new key goes last in the order; an existing key keeps its place. |
| OrderedDict.Fill | view_average_salary.py:146-153 | The `for lang in LANGUAGES` loop that fills the dict and stops at the first abort. It has no contract of its own; `FillStep`, `FillWellFormed`, `FillSucceedsIff`, `FillFailsAtFirstFailure`, `FillOrder` and `FillEntries` characterize it. |
| OrderedDict.FillWellFormed | view_average_salary.py:146-153 | A completed loop leaves a well-formed dict: each key is once in the order, and the order lists exactly the keys of `entries`. |
| OrderedDict.FillStep | view_average_salary.py:145-151 | One iteration either ends with the failure, or stores the value and goes on with the next key. |
| OrderedDict.FillSucceedsIff | view_average_salary.py:145-151 | The loop completes iff every value is computed. |
| OrderedDict.FillFailsAtFirstFailure | view_average_salary.py:145-151 | An aborted loop carries the error of the first failed value. |
| OrderedDict.FillOrder | view_average_salary.py:145-151 | Over distinct new keys, a completed loop appends every key to the order, in key order. |
| OrderedDict.FillEntries | view_average_salary.py:145-151 | Over distinct keys, a completed loop stores under each key the value computed for it. Earlier entries are kept. |
| Statistics.Languages | view_average_salary.py:8-11 | The ten language names in list order. It is a constant; `LanguagesDistinct` states that they are distinct. |
| Statistics.LanguagesDistinct | view_average_salary.py:8-11 | The ten language names are pairwise distinct. |
| Statistics.Record | view_average_salary.py:146-151 | The record holds the found count. `vacancies_processed` is the number of collected estimates. `average_salary` is `None` exactly when nothing was processed; otherwise it is their mean truncated toward zero. |
| Statistics.RecordOf | view_average_salary.py:145-151 | A completed fetch gives its record. An aborted fetch gives its status. |
| Statistics.HhRecords | view_average_salary.py:145-151 | Entry `i` succeeds iff the HH fetch for the `i`-th language completes. A success is the record built from `found` and that fetch; a failure is the fetch's abort status. |
| Statistics.SjRecords | view_average_salary.py:161-167 | Entry `i` succeeds iff the SJ fetch for the `i`-th language completes. A success is the record built from `found` and that fetch; a failure is the fetch's abort status. |
| Statistics.CollectedTable | view_average_salary.py:145-153 | Over distinct languages, the table succeeds iff every fetch does, and a failure is the first abort. The dict is well formed, so its keys are exactly the languages, in list order, each with its own record. |
| Statistics.HhTable | view_average_salary.py:142-155 | The HH table exists iff every language's fetch completes. It is a well-formed dict whose keys are exactly `LANGUAGES` in order, each with the record of its own fetch. |
| Statistics.CollectStatisticsHh | view_average_salary.py:142-155 | The loop's result is `Fill` over the HH records. It succeeds iff every fetch completes. It is then a well-formed dict whose keys are exactly `LANGUAGES` in order, each language's record built from `found` and its own fetch. |
| Statistics.SjTable | view_average_salary.py:158-171 | The SJ table exists iff every language's fetch completes. It is a well-formed dict whose keys are exactly `LANGUAGES` in order, each with the record of its own fetch. |
| Statistics.CollectStatisticsSj | view_average_salary.py:158-171 | The loop's result is `Fill` over the SJ records. It succeeds iff every fetch completes. It is then a well-formed dict whose keys are exactly `LANGUAGES` in order, each language's record built from `found` and its own fetch. |
| Statistics.OnePageRecord | view_average_salary.py:142-155 | One page with a `"RUR"` vacancy paid 100000–200000 and a `"USD"` one gives `[150000]`. With 10 matches that is the record `(10, 1, 150000)`. |

## Left out

- HTTP transport (`requests.get`, `raise_for_status`): replaced by a finite sequence of replies per language. A 4xx or 5xx answer is `Failed(status)` and aborts the fetch, and then the whole statistics collection. Network errors and undecodable JSON are not modelled.
- PredictRubSalaryHh: requires the reply sequence to be non-empty and no reply to report more pages than there are replies. The source loops for as long as a live board keeps raising `pages`. The model proves nothing about a board that never stops.
- PredictRubSalarySj: the same finiteness bound on the replies, with `total // 100 + 1` as the reported count.
- CollectStatisticsHh: requires `found` to hold every language and every fetch to be finite, as above. The source's count lookup always fills every language.
- CollectStatisticsSj: the same requirement as `CollectStatisticsHh`.
- `get_vacancies_count_hh` / `get_vacancies_count_sj` (lines 15-46): only HTTP plus a default. Their result is the input map `found`.
- The recency cutoff from `datetime.now()` (line 60) and the query parameters: they only shape the requests, and they depend on the clock.
- Credential loading with `environs`, `main` and `print_table` / `AsciiTable` (lines 174-207): configuration and console output.
- IEEE floating point: the `* 1.2`, `* 0.8`, `/ 2`, `sum` and `/ len` arithmetic is exact (`real`). The model does not capture rounding.
- JSON `null` in `items`, `objects` or `total`: the source would raise `TypeError`. The model reads it like a missing field. Non-numeric bounds and non-integer page counts are likewise not modelled.
- An HH `salary` that is an empty object is falsy in the source. The model represents it as a salary with no currency, which is skipped the same way.
- The collectors return a Python list; the model returns the sequence of collected estimates inside an `Outcome`. The item loop is a separate method (`AppendHhEstimates`, `AppendSjEstimates`) called from the page loop. The model does not show the list being updated in place.
