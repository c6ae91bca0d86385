/**
 * `collect_statistics_hh` / `collect_statistics_sj`: one record per language
 * of `LANGUAGES`, in list order, each built from that language's paginated
 * fetch and the aggregator. A fetch that aborts aborts the whole collection.
 *
 * The per-language match counts (`get_vacancies_count_*`) are an input map
 * `found`; the board's answers to the page requests for a language are
 * `hh(lang)` / `sj(lang)`.
 */
module Statistics {
  import opened Wrappers
  import opened Estimator
  import opened Aggregator
  import opened Pagination
  import opened HeadHunter
  import opened SuperJob
  import opened OrderedDict

  /** `LANGUAGES` */
  const Languages: seq<string> :=
    ["Python", "Java", "JavaScript", "C++", "C#", "Go", "Ruby", "PHP", "Shell", "Scala"]

  /** `{"vacancies_found": …, "vacancies_processed": …, "average_salary": …}` */
  datatype LanguageStats = LanguageStats(vacanciesFound: int, vacanciesProcessed: nat, averageSalary: Option<int>)

  /** `salary_stats_hh` / `salary_stats_sj`: language to record, in insertion order. */
  type SalaryStats = Dict<string, LanguageStats>

  lemma LanguagesDistinct()
    ensures Distinct(Languages)
  {
  }

  /**
   * The record for one language: the collected estimates give
   * `vacancies_processed` and `average_salary`, and `average_salary` is
   * `None` exactly when nothing was processed.
   */
  function Record(found: int, salaries: seq<real>): (r: LanguageStats)
    ensures r.vacanciesFound == found
    ensures r.vacanciesProcessed == |salaries|
    ensures r.averageSalary.None? <==> r.vacanciesProcessed == 0
    ensures r.averageSalary.Some? ==> TruncatesTo(Sum(salaries) / |salaries| as real, r.averageSalary.value)
  {
    var (averageSalary, processed) := AverageSalary(salaries);
    LanguageStats(found, processed, averageSalary)
  }

  /** The record for one language from its fetch, or the status that aborted the fetch. */
  function RecordOf(found: int, outcome: Outcome): (r: Result<LanguageStats, int>)
    ensures r.Success? <==> outcome.Done?
    ensures outcome.Aborted? ==> r.error == outcome.status
    ensures outcome.Done? ==> r.value == Record(found, outcome.salaries)
  {
    match outcome
    case Done(salaries) => Success(Record(found, salaries))
    case Aborted(status) => Failure(status)
  }

  /** Per language of `Languages`, in order: its HeadHunter record or the abort status. */
  function HhRecords(found: map<string, int>, hh: string -> seq<Reply<HhPage>>): (r: seq<Result<LanguageStats, int>>)
    requires forall lang :: lang in Languages ==> lang in found && Bounded(hh(lang), HhView)
    ensures |r| == |Languages|
    ensures forall i :: 0 <= i < |Languages| ==> (r[i].Success? <==> Walk(hh(Languages[i]), HhView, 0).Done?)
    ensures forall i :: 0 <= i < |Languages| ==>
              r[i].Failure? ==> r[i].error == Walk(hh(Languages[i]), HhView, 0).status
    ensures forall i :: 0 <= i < |Languages| ==>
              r[i].Success? ==> r[i].value == Record(found[Languages[i]], Walk(hh(Languages[i]), HhView, 0).salaries)
  {
    seq(|Languages|, i requires 0 <= i < |Languages| =>
      RecordOf(found[Languages[i]], Walk(hh(Languages[i]), HhView, 0)))
  }

  /** Per language of `Languages`, in order: its SuperJob record or the abort status. */
  function SjRecords(found: map<string, int>, sj: string -> seq<Reply<SjPage>>): (r: seq<Result<LanguageStats, int>>)
    requires forall lang :: lang in Languages ==> lang in found && Bounded(sj(lang), SjView)
    ensures |r| == |Languages|
    ensures forall i :: 0 <= i < |Languages| ==> (r[i].Success? <==> Walk(sj(Languages[i]), SjView, 0).Done?)
    ensures forall i :: 0 <= i < |Languages| ==>
              r[i].Failure? ==> r[i].error == Walk(sj(Languages[i]), SjView, 0).status
    ensures forall i :: 0 <= i < |Languages| ==>
              r[i].Success? ==> r[i].value == Record(found[Languages[i]], Walk(sj(Languages[i]), SjView, 0).salaries)
  {
    seq(|Languages|, i requires 0 <= i < |Languages| =>
      RecordOf(found[Languages[i]], Walk(sj(Languages[i]), SjView, 0)))
  }

  /**
   * What a collection over distinct languages promises: it succeeds iff every
   * fetch does, and then holds exactly the languages in list order, each with
   * the record built from its own fetch; a failure carries the status of the
   * first fetch that aborted.
   */
  lemma CollectedTable(languages: seq<string>, records: seq<Result<LanguageStats, int>>)
    requires |records| == |languages|
    requires Distinct(languages)
    ensures var r := Fill(languages, records, Empty());
      && (r.Success? <==> forall i :: 0 <= i < |records| ==> records[i].Success?)
      && (r.Failure? ==> exists i :: 0 <= i < |records| && records[i] == Failure(r.error) &&
                                   forall j :: 0 <= j < i ==> records[j].Success?)
      && (r.Success? ==> WellFormed(r.value) && r.value.order == languages)
      && (r.Success? ==> forall i :: 0 <= i < |languages| ==>
                           records[i].Success? && languages[i] in r.value.entries &&
                           r.value.entries[languages[i]] == records[i].value)
  {
    FillSucceedsIff(languages, records, Empty());
    FillFailsAtFirstFailure(languages, records, Empty());
    FillOrder(languages, records, Empty());
    FillEntries(languages, records, Empty());
    FillWellFormed(languages, records, Empty());
  }

  /** The table `Fill` builds from the Hh records has the shape `CollectedTable` promises, per language of `Languages`. */
  lemma HhTable(found: map<string, int>, hh: string -> seq<Reply<HhPage>>)
    requires forall lang :: lang in Languages ==> lang in found && Bounded(hh(lang), HhView)
    ensures var result := Fill(Languages, HhRecords(found, hh), Empty());
      && (result.Success? <==> forall i :: 0 <= i < |Languages| ==> Walk(hh(Languages[i]), HhView, 0).Done?)
      && (result.Success? ==> WellFormed(result.value) && result.value.order == Languages)
      && (result.Success? ==> forall i :: 0 <= i < |Languages| ==>
            Languages[i] in result.value.entries &&
            result.value.entries[Languages[i]] == Record(found[Languages[i]], Walk(hh(Languages[i]), HhView, 0).salaries))
  {
    LanguagesDistinct();
    CollectedTable(Languages, HhRecords(found, hh));
  }

  /**
   * `collect_statistics_hh()`: on success, one record per language of
   * `Languages`, in list order, with `vacancies_found` from `found` and the
   * other two fields from that language's fetch.
   */
  method CollectStatisticsHh(found: map<string, int>, hh: string -> seq<Reply<HhPage>>) returns (result: Result<SalaryStats, int>)
    requires forall lang :: lang in Languages ==> lang in found && Bounded(hh(lang), HhView)
    ensures result == Fill(Languages, HhRecords(found, hh), Empty())
    ensures result.Success? <==> forall i :: 0 <= i < |Languages| ==> Walk(hh(Languages[i]), HhView, 0).Done?
    ensures result.Success? ==> WellFormed(result.value) && result.value.order == Languages
    ensures result.Success? ==> forall i :: 0 <= i < |Languages| ==>
              Languages[i] in result.value.entries &&
              result.value.entries[Languages[i]] == Record(found[Languages[i]], Walk(hh(Languages[i]), HhView, 0).salaries)
  {
    ghost var records := HhRecords(found, hh);
    var stats: SalaryStats := Empty();
    for i := 0 to |Languages|
      invariant WellFormed(stats)
      invariant Fill(Languages, records, Empty()) == Fill(Languages[i..], records[i..], stats)
    {
      var lang := Languages[i];
      var salaries, _ := PredictRubSalaryHh(hh(lang));
      FillStep(Languages, records, stats, i);
      if salaries.Aborted? {
        return Failure(salaries.status);
      }
      var (averageSalary, processed) := AverageSalary(salaries.salaries);
      stats := Insert(stats, lang, LanguageStats(found[lang], processed, averageSalary));
    }
    result := Success(stats);
    HhTable(found, hh);
  }

  /** The table `Fill` builds from the Sj records has the shape `CollectedTable` promises, per language of `Languages`. */
  lemma SjTable(found: map<string, int>, sj: string -> seq<Reply<SjPage>>)
    requires forall lang :: lang in Languages ==> lang in found && Bounded(sj(lang), SjView)
    ensures var result := Fill(Languages, SjRecords(found, sj), Empty());
      && (result.Success? <==> forall i :: 0 <= i < |Languages| ==> Walk(sj(Languages[i]), SjView, 0).Done?)
      && (result.Success? ==> WellFormed(result.value) && result.value.order == Languages)
      && (result.Success? ==> forall i :: 0 <= i < |Languages| ==>
            Languages[i] in result.value.entries &&
            result.value.entries[Languages[i]] == Record(found[Languages[i]], Walk(sj(Languages[i]), SjView, 0).salaries))
  {
    LanguagesDistinct();
    CollectedTable(Languages, SjRecords(found, sj));
  }

  /**
   * `collect_statistics_sj(api_key)`: on success, one record per language of
   * `Languages`, in list order, with `vacancies_found` from `found` and the
   * other two fields from that language's fetch.
   */
  method CollectStatisticsSj(found: map<string, int>, sj: string -> seq<Reply<SjPage>>) returns (result: Result<SalaryStats, int>)
    requires forall lang :: lang in Languages ==> lang in found && Bounded(sj(lang), SjView)
    ensures result == Fill(Languages, SjRecords(found, sj), Empty())
    ensures result.Success? <==> forall i :: 0 <= i < |Languages| ==> Walk(sj(Languages[i]), SjView, 0).Done?
    ensures result.Success? ==> WellFormed(result.value) && result.value.order == Languages
    ensures result.Success? ==> forall i :: 0 <= i < |Languages| ==>
              Languages[i] in result.value.entries &&
              result.value.entries[Languages[i]] == Record(found[Languages[i]], Walk(sj(Languages[i]), SjView, 0).salaries)
  {
    ghost var records := SjRecords(found, sj);
    var stats: SalaryStats := Empty();
    for i := 0 to |Languages|
      invariant WellFormed(stats)
      invariant Fill(Languages, records, Empty()) == Fill(Languages[i..], records[i..], stats)
    {
      var lang := Languages[i];
      var salaries, _ := PredictRubSalarySj(sj(lang));
      FillStep(Languages, records, stats, i);
      if salaries.Aborted? {
        return Failure(salaries.status);
      }
      var (averageSalary, processed) := AverageSalary(salaries.salaries);
      stats := Insert(stats, lang, LanguageStats(found[lang], processed, averageSalary));
    }
    result := Success(stats);
    SjTable(found, sj);
  }

  /**
   * One answered page holding a rouble vacancy paid 100000 to 200000 and a
   * dollar one: only the first is processed, and the record for a language
   * with 10 matches is `(10, 1, 150000)`.
   */
  lemma OnePageRecord()
    ensures var replies := [Ok(HhPage(Some([HhVacancy(Some(HhSalary(Some(100000.0), Some(200000.0), Some("RUR")))),
                                            HhVacancy(Some(HhSalary(Some(3000.0), None, Some("USD"))))]),
                                      None))];
      && Bounded(replies, HhView)
      && Walk(replies, HhView, 0) == Done([150000.0])
      && RecordOf(10, Walk(replies, HhView, 0)) == Success(LanguageStats(10, 1, Some(150000)))
  {
    var usd := HhVacancy(Some(HhSalary(Some(3000.0), None, Some("USD"))));
    var rur := HhVacancy(Some(HhSalary(Some(100000.0), Some(200000.0), Some("RUR"))));
    var answer := HhPage(Some([rur, usd]), None);
    assert HhEstimate(rur) == Some(150000.0);
    assert HhEstimate(usd) == None;
    assert Harvest([rur, usd], HhEstimate) == [150000.0] by {
      HarvestConcat([rur], [usd], HhEstimate);
      HarvestSingle(rur, HhEstimate);
      HarvestSingle(usd, HhEstimate);
      assert [rur] + [usd] == [rur, usd];
    }
    assert HhView(answer) == PageView(1, [150000.0]);
    assert AverageSalary([150000.0]) == (Some(150000), 1) by {
      assert [150000.0][..0] == [];
    }
  }
}
