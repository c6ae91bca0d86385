/**
 * `predict_rub_salary_sj`: the paginated salary collector for SuperJob
 * (api.superjob.ru), town Moscow. Each answer carries `objects` (vacancies with `payment_from`,
 * `payment_to` and `currency`) and `total`, the number of matches; the page
 * count is not reported and is derived as `total // 100 + 1`, with a missing
 * `total` read as `1`.
 */
module SuperJob {
  import opened Wrappers
  import opened Estimator
  import opened Pagination

  datatype SjVacancy = SjVacancy(paymentFrom: Option<real>, paymentTo: Option<real>, currency: Option<string>)

  datatype SjPage = SjPage(objects: Option<seq<SjVacancy>>, total: Option<int>)

  const AcceptedCurrency: string := "rub"

  /** Vacancies requested per page (`count`). */
  const PageSize: int := 100

  /**
   * `total // 100 + 1`. With a positive divisor Dafny's `/` rounds down, as
   * Python's `//` does, also for a negative `total`.
   */
  function SjPageCount(total: Option<int>): (c: int)
    ensures total.None? ==> c == 1
    ensures total.Some? ==> (c - 1) * PageSize <= total.value < c * PageSize
  {
    total.GetOr(1) / PageSize + 1
  }

  /**
   * For a non-negative `total` the count is the number of pages the matches
   * fill, plus one more (empty) page when `total` is an exact multiple of 100;
   * so 250 and 200 both give three requests.
   */
  lemma SjPageCountQuirk(total: int)
    requires total >= 0
    ensures SjPageCount(Some(total)) ==
              (total + PageSize - 1) / PageSize + (if total % PageSize == 0 then 1 else 0)
    ensures SjPageCount(Some(250)) == 3 && SjPageCount(Some(200)) == 3 && SjPageCount(Some(0)) == 1
  {
  }

  /** `None` for a vacancy the collector skips (currency not `"rub"`), else the estimate. */
  function SjEstimate(vacancy: SjVacancy): (e: Option<real>)
    ensures vacancy.currency != Some(AcceptedCurrency) ==> e.None?
  {
    if vacancy.currency != Some(AcceptedCurrency) then None
    else PredictSalary(vacancy.paymentFrom, vacancy.paymentTo)
  }

  /** What the loop reads from one answer: the derived page count and the entries of `objects` (default []). */
  function SjView(answer: SjPage): (v: PageView)
    ensures |v.harvest| <= |SjItems(answer)|
    ensures (answer.total.None? || answer.total.value >= 0) ==> v.count >= 1
  {
    PageView(SjPageCount(answer.total), Harvest(SjItems(answer), SjEstimate))
  }

  /** A vacancy contributes exactly one entry, its estimate, iff it is paid in `"rub"` and that estimate is truthy. */
  lemma SjContribution(vacancy: SjVacancy)
    ensures |Harvest([vacancy], SjEstimate)| <= 1
    ensures |Harvest([vacancy], SjEstimate)| == 1 <==>
              vacancy.currency == Some(AcceptedCurrency) && Truthy(PredictSalary(vacancy.paymentFrom, vacancy.paymentTo))
    ensures |Harvest([vacancy], SjEstimate)| == 1 ==>
              Harvest([vacancy], SjEstimate)[0] == PredictSalary(vacancy.paymentFrom, vacancy.paymentTo).value
  {
    HarvestSingle(vacancy, SjEstimate);
  }

  /** A `"usd"` vacancy (or any other non-rouble one) never changes what is collected, whatever its bounds. */
  lemma SjForeignCurrencyIgnored(before: seq<SjVacancy>, vacancy: SjVacancy, after: seq<SjVacancy>)
    requires vacancy.currency != Some(AcceptedCurrency)
    ensures Harvest(before + [vacancy] + after, SjEstimate) == Harvest(before + after, SjEstimate)
  {
    SkippedItemIgnored(before, vacancy, after, SjEstimate);
  }

  /**
   * When every answer reports the same non-negative `total`, the collector
   * requests pages `0 .. total / 100` (one more than the matches fill when
   * `total` is a multiple of 100) and succeeds.
   */
  lemma SjRequestsForTotal(replies: seq<Reply<SjPage>>, total: int)
    requires Bounded(replies, SjView)
    requires total >= 0
    requires forall j :: 0 <= j < |replies| ==> replies[j].Ok? && replies[j].body.total == Some(total)
    ensures Requests(replies, SjView, 0) == total / PageSize + 1
    ensures Walk(replies, SjView, 0).Done?
  {
    forall j | 0 <= j < |replies|
      ensures replies[j].Ok? && SjView(replies[j].body).count == total / PageSize + 1
    {
    }
    ConstantPageCount(replies, SjView, total / PageSize + 1, 0);
  }

  /** `answer.get("objects", [])` */
  function SjItems(answer: SjPage): seq<SjVacancy> {
    answer.objects.GetOr([])
  }

  /**
   * A completed fetch collects exactly the truthy rouble estimates of all
   * vacancies on the requested pages, in page order, then item order.
   */
  lemma SjCollectsRequestedItems(replies: seq<Reply<SjPage>>)
    requires Bounded(replies, SjView)
    ensures var n := Requests(replies, SjView, 0);
      Walk(replies, SjView, 0).Done? ==>
        && (forall j :: 0 <= j < n ==> replies[j].Ok?)
        && Walk(replies, SjView, 0).salaries == Harvest(AllItems(replies, SjItems, 0, n), SjEstimate)
  {
    var n := Requests(replies, SjView, 0);
    WalkGathersRequestedPages(replies, SjView, 0);
    if Walk(replies, SjView, 0).Done? {
      GatheredIsHarvest(replies, SjView, SjItems, SjEstimate, 0, n);
    }
  }

  /**
   * The inner loop over one page's vacancies: appends, in item order, the
   * truthy estimate of each vacancy it does not skip.
   */
  method AppendSjEstimates(salaries: seq<real>, vacancies: seq<SjVacancy>) returns (extended: seq<real>)
    ensures extended == salaries + Harvest(vacancies, SjEstimate)
  {
    extended := salaries;
    for k := 0 to |vacancies|
      invariant extended == salaries + Harvest(vacancies[..k], SjEstimate)
    {
      HarvestExtend(vacancies, k, SjEstimate);
      var vacancy := vacancies[k];
      if vacancy.currency != Some(AcceptedCurrency) {
        continue;
      }
      var predictedSalary := PredictSalary(vacancy.paymentFrom, vacancy.paymentTo);
      if Truthy(predictedSalary) {
        extended := extended + [predictedSalary.value];
      }
    }
    assert vacancies[..|vacancies|] == vacancies;
  }

  /**
   * `predict_rub_salary_sj(lang, api_key)`, with `replies` the board's
   * answers to the page requests for `lang`. Returns what the loop collects
   * (or the status that aborted it) and the page indices it requested.
   */
  method PredictRubSalarySj(replies: seq<Reply<SjPage>>) returns (outcome: Outcome, ghost requested: seq<nat>)
    requires Bounded(replies, SjView)
    ensures outcome == Walk(replies, SjView, 0)
    ensures requested == Indices(Requests(replies, SjView, 0))
    ensures |requested| >= 1 && requested[0] == 0
  {
    var salaries: seq<real> := [];
    requested := [];
    var page := 0;
    var pages := 1;

    while page < pages
      invariant pages <= |replies|
      invariant page <= |replies|
      invariant requested == Indices(page)
      invariant page < pages ==> Walk(replies, SjView, 0) == Prepend(salaries, Walk(replies, SjView, page))
      invariant page >= pages ==> Walk(replies, SjView, 0) == Done(salaries)
      invariant page < pages ==> Requests(replies, SjView, 0) == page + Requests(replies, SjView, page)
      invariant page >= pages ==> Requests(replies, SjView, 0) == page
      decreases |replies| - page
    {
      requested := requested + [page];
      var response := replies[page];
      if response.Failed? {
        // raise_for_status: the fetch for this language ends here
        outcome := Aborted(response.status);
        return;
      }
      var answer := response.body;
      var vacancies := answer.objects.GetOr([]);
      pages := answer.total.GetOr(1) / PageSize + 1;

      ghost var before := salaries;
      salaries := AppendSjEstimates(salaries, vacancies);
      WalkStep(replies, SjView, page, before);
      page := page + 1;
    }
    outcome := Done(salaries);
  }
}
