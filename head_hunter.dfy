/**
 * `predict_rub_salary_hh`: the paginated salary collector for HeadHunter
 * (api.hh.ru), Moscow area. Each answer carries `items` (vacancies, each with an optional
 * `salary` object holding `from`, `to` and `currency`) and `pages`; a missing
 * `items` reads as `[]` and a missing `pages` as `1`.
 */
module HeadHunter {
  import opened Wrappers
  import opened Estimator
  import opened Pagination

  datatype HhSalary = HhSalary(salaryFrom: Option<real>, salaryTo: Option<real>, currency: Option<string>)

  /** A vacancy; an empty `salary` object behaves like a missing one (its currency is not `"RUR"`). */
  datatype HhVacancy = HhVacancy(salary: Option<HhSalary>)

  datatype HhPage = HhPage(items: Option<seq<HhVacancy>>, pages: Option<int>)

  const AcceptedCurrency: string := "RUR"

  /**
   * The value the collector tests for truthiness: `None` for a vacancy it
   * skips (no salary, or a currency other than `"RUR"`), else the estimate.
   */
  function HhEstimate(vacancy: HhVacancy): (e: Option<real>)
    ensures vacancy.salary.None? ==> e.None?
    ensures vacancy.salary.Some? && vacancy.salary.value.currency != Some(AcceptedCurrency) ==> e.None?
  {
    match vacancy.salary
    case None => None
    case Some(salary) =>
      if salary.currency != Some(AcceptedCurrency) then None
      else PredictSalary(salary.salaryFrom, salary.salaryTo)
  }

  /** What the loop reads from one answer: `pages` (default 1) and the entries of `items` (default []). */
  function HhView(answer: HhPage): (v: PageView)
    ensures |v.harvest| <= |HhItems(answer)|
    ensures answer.pages.None? ==> v.count == 1
  {
    PageView(answer.pages.GetOr(1), Harvest(HhItems(answer), HhEstimate))
  }

  /**
   * A vacancy contributes exactly one entry, its estimate, iff it has a
   * salary in `"RUR"` whose estimate is truthy; otherwise it contributes none.
   */
  lemma HhContribution(vacancy: HhVacancy)
    ensures |Harvest([vacancy], HhEstimate)| <= 1
    ensures |Harvest([vacancy], HhEstimate)| == 1 <==>
              && vacancy.salary.Some?
              && vacancy.salary.value.currency == Some(AcceptedCurrency)
              && Truthy(PredictSalary(vacancy.salary.value.salaryFrom, vacancy.salary.value.salaryTo))
    ensures |Harvest([vacancy], HhEstimate)| == 1 ==>
              Harvest([vacancy], HhEstimate)[0] ==
                PredictSalary(vacancy.salary.value.salaryFrom, vacancy.salary.value.salaryTo).value
  {
    HarvestSingle(vacancy, HhEstimate);
  }

  /** A vacancy without a salary or paid in another currency never changes what is collected. */
  lemma HhNonRoubleIgnored(before: seq<HhVacancy>, vacancy: HhVacancy, after: seq<HhVacancy>)
    requires vacancy.salary.None? || vacancy.salary.value.currency != Some(AcceptedCurrency)
    ensures Harvest(before + [vacancy] + after, HhEstimate) == Harvest(before + after, HhEstimate)
  {
    SkippedItemIgnored(before, vacancy, after, HhEstimate);
  }

  /** `answer.get("items", [])` */
  function HhItems(answer: HhPage): seq<HhVacancy> {
    answer.items.GetOr([])
  }

  /**
   * A completed fetch collects exactly the truthy rouble estimates of all
   * vacancies on the requested pages, in page order, then item order.
   */
  lemma HhCollectsRequestedItems(replies: seq<Reply<HhPage>>)
    requires Bounded(replies, HhView)
    ensures var n := Requests(replies, HhView, 0);
      Walk(replies, HhView, 0).Done? ==>
        && (forall j :: 0 <= j < n ==> replies[j].Ok?)
        && Walk(replies, HhView, 0).salaries == Harvest(AllItems(replies, HhItems, 0, n), HhEstimate)
  {
    var n := Requests(replies, HhView, 0);
    WalkGathersRequestedPages(replies, HhView, 0);
    if Walk(replies, HhView, 0).Done? {
      GatheredIsHarvest(replies, HhView, HhItems, HhEstimate, 0, n);
    }
  }

  /**
   * When every answer reports `pages == c`, pages `0 .. c - 1` are requested
   * for `c >= 1`, so `pages = 3` gives the requests 0, 1 and 2; a count of 0
   * or less still leaves the one request for page 0, and a missing `pages`
   * reads as 1. Either way the fetch succeeds.
   */
  lemma HhReportedPageCount(replies: seq<Reply<HhPage>>, c: int)
    requires Bounded(replies, HhView)
    requires forall j :: 0 <= j < |replies| ==> replies[j].Ok? && replies[j].body.pages.GetOr(1) == c
    ensures Requests(replies, HhView, 0) == if c >= 1 then c else 1
    ensures Walk(replies, HhView, 0).Done?
  {
    forall j | 0 <= j < |replies|
      ensures replies[j].Ok? && HhView(replies[j].body).count == c
    {
    }
    if c >= 1 {
      ConstantPageCount(replies, HhView, c, 0);
    } else {
      assert HhView(replies[0].body).count == c;
    }
  }

  /**
   * The inner loop over one page's vacancies: appends, in item order, the
   * truthy estimate of each vacancy it does not skip.
   */
  method AppendHhEstimates(salaries: seq<real>, vacancies: seq<HhVacancy>) returns (extended: seq<real>)
    ensures extended == salaries + Harvest(vacancies, HhEstimate)
  {
    extended := salaries;
    for k := 0 to |vacancies|
      invariant extended == salaries + Harvest(vacancies[..k], HhEstimate)
    {
      HarvestExtend(vacancies, k, HhEstimate);
      var salary := vacancies[k].salary;
      if salary.None? || salary.value.currency != Some(AcceptedCurrency) {
        continue;
      }
      var predictedSalary := PredictSalary(salary.value.salaryFrom, salary.value.salaryTo);
      if Truthy(predictedSalary) {
        extended := extended + [predictedSalary.value];
      }
    }
    assert vacancies[..|vacancies|] == vacancies;
  }

  /**
   * `predict_rub_salary_hh(lang)`, with `replies` the board's answers to the
   * page requests for `lang`. Returns what the loop collects (or the status
   * that aborted it) and the page indices it requested, in order.
   */
  method PredictRubSalaryHh(replies: seq<Reply<HhPage>>) returns (outcome: Outcome, ghost requested: seq<nat>)
    requires Bounded(replies, HhView)
    ensures outcome == Walk(replies, HhView, 0)
    ensures requested == Indices(Requests(replies, HhView, 0))
    ensures |requested| >= 1 && requested[0] == 0
  {
    var salaries: seq<real> := [];
    requested := [];
    var page := 0;
    var pages := 1;

    while page < pages
      invariant pages <= |replies|
      invariant page <= |replies|
      invariant requested == Indices(page)
      invariant page < pages ==> Walk(replies, HhView, 0) == Prepend(salaries, Walk(replies, HhView, page))
      invariant page >= pages ==> Walk(replies, HhView, 0) == Done(salaries)
      invariant page < pages ==> Requests(replies, HhView, 0) == page + Requests(replies, HhView, page)
      invariant page >= pages ==> Requests(replies, HhView, 0) == page
      decreases |replies| - page
    {
      requested := requested + [page];
      var response := replies[page];
      if response.Failed? {
        // raise_for_status: the fetch for this language ends here
        outcome := Aborted(response.status);
        return;
      }
      var answer := response.body;
      var vacancies := answer.items.GetOr([]);
      pages := answer.pages.GetOr(1);

      ghost var before := salaries;
      salaries := AppendHhEstimates(salaries, vacancies);
      WalkStep(replies, HhView, page, before);
      page := page + 1;
    }
    outcome := Done(salaries);
  }
}
