/** Evaluating a whole dataset and comparing two evaluations (crates/ketebe-bench/src/eval.rs). */
module EvalReport {
  import opened Wrappers
  import opened Collections
  import opened Store
  import opened Text
  import opened Eval

  const SCHEMA_VERSION: nat := 1

  datatype Query = Query(id: string, text: Option<string>, vector: Option<seq<real>>, judgments: seq<Judgment>)

  datatype Dataset = Dataset(schemaVersion: nat, name: string, version: string, queries: seq<Query>)

  datatype QueryReport = QueryReport(id: string, returned: nat, metrics: Metrics, ranking: seq<RecordId>)

  datatype Report = Report(dataset: string, version: string, schemaVersion: nat, aggregate: Metrics,
                           queries: seq<QueryReport>)

  datatype EvaluationError =
    | UnsupportedSchemaVersion
    | InvalidDatasetIdentity
    | EmptyDataset
    | EmptyQueryId
    | DuplicateQueryId(id: string)
    | EmptyQueryText(id: string)
    | EmptyQueryVector(id: string)
    | EmptyJudgments(id: string)
    | DuplicateJudgment(id: string, record: RecordId)
    | InvalidRunName
    | InvalidTopK
    | MissingRanking(id: string)
    | RankingForUnknownQuery(id: string)
    | DatasetMismatch
    | QuerySetMismatch

  // ---------------------------------------------------------------- validation

  ghost predicate ValidQuery(q: Query, isSpace: char -> bool) {
    && !IsBlank(q.id, isSpace)
    && (q.text.Some? ==> !IsBlank(q.text.value, isSpace))
    && (q.vector.Some? ==> q.vector.value != [])
    && q.judgments != [] && DistinctJudgments(q.judgments)
  }

  ghost predicate ValidQueries(queries: seq<Query>, isSpace: char -> bool) {
    && (forall i :: 0 <= i < |queries| ==> ValidQuery(queries[i], isSpace))
    && (forall i, j :: 0 <= i < j < |queries| ==> queries[i].id != queries[j].id)
  }

  ghost predicate ValidDataset(d: Dataset, isSpace: char -> bool) {
    && d.schemaVersion == SCHEMA_VERSION && !IsBlank(d.name, isSpace) && !IsBlank(d.version, isSpace)
    && d.queries != [] && ValidQueries(d.queries, isSpace)
  }

  // What a query is rejected for.
  ghost predicate IsAtFault(queries: seq<Query>, i: nat, e: EvaluationError, isSpace: char -> bool)
    requires i < |queries|
  {
    var q := queries[i];
    match e
    case EmptyQueryId => IsBlank(q.id, isSpace)
    case DuplicateQueryId(id) => q.id == id && exists j :: 0 <= j < i && queries[j].id == id
    case EmptyQueryText(id) => q.id == id && q.text.Some? && IsBlank(q.text.value, isSpace)
    case EmptyQueryVector(id) => q.id == id && q.vector == Some([])
    case EmptyJudgments(id) => q.id == id && q.judgments == []
    case DuplicateJudgment(id, record) =>
      q.id == id
      && exists j, k :: 0 <= j < k < |q.judgments| && q.judgments[j].record == q.judgments[k].record == record
    case _ => false
  }

  method FindDuplicate(judgments: seq<Judgment>) returns (r: Option<RecordId>)
    ensures r.None? <==> DistinctJudgments(judgments)
    ensures r.Some? ==> exists i, j :: 0 <= i < j < |judgments| && judgments[i].record == judgments[j].record == r.value
  {
    var judged: set<RecordId> := {};
    for i := 0 to |judgments|
      invariant judged == set j | 0 <= j < i :: judgments[j].record
      invariant DistinctJudgments(judgments[..i])
    {
      if judgments[i].record in judged {
        var j :| 0 <= j < i && judgments[j].record == judgments[i].record;
        return Some(judgments[i].record);
      }
      judged := judged + {judgments[i].record};
    }
    assert judgments[..|judgments|] == judgments;
    r := None;
  }

  // The checks of one query, after those with the given ids.
  method CheckQuery(queries: seq<Query>, i: nat, ids: set<string>, isSpace: char -> bool)
    returns (e: Option<EvaluationError>)
    requires i < |queries| && ids == set j | 0 <= j < i :: queries[j].id
    ensures e.None? <==> ValidQuery(queries[i], isSpace) && queries[i].id !in ids
    ensures e.Some? ==> IsAtFault(queries, i, e.value, isSpace)
  {
    var q := queries[i];
    if IsBlank(q.id, isSpace) { return Some(EmptyQueryId); }
    if q.id in ids { return Some(DuplicateQueryId(q.id)); }
    if q.text.Some? && IsBlank(q.text.value, isSpace) { return Some(EmptyQueryText(q.id)); }
    if q.vector.Some? && q.vector.value == [] { return Some(EmptyQueryVector(q.id)); }
    if q.judgments == [] { return Some(EmptyJudgments(q.id)); }
    var duplicate := FindDuplicate(q.judgments);
    if duplicate.Some? { return Some(DuplicateJudgment(q.id, duplicate.value)); }
    e := None;
  }

  method Validate(d: Dataset, isSpace: char -> bool) returns (r: Result<(), EvaluationError>)
    ensures r.Ok? <==> ValidDataset(d, isSpace)
    ensures r == Err(UnsupportedSchemaVersion) <==> d.schemaVersion != 1
    ensures r == Err(InvalidDatasetIdentity) <==>
            d.schemaVersion == 1 && (IsBlank(d.name, isSpace) || IsBlank(d.version, isSpace))
    ensures r == Err(EmptyDataset) <==>
            d.schemaVersion == 1 && !IsBlank(d.name, isSpace) && !IsBlank(d.version, isSpace) && d.queries == []
    ensures r.Err? && r.error !in {UnsupportedSchemaVersion, InvalidDatasetIdentity, EmptyDataset} ==>
              exists i :: 0 <= i < |d.queries| && IsAtFault(d.queries, i, r.error, isSpace)
  {
    if d.schemaVersion != SCHEMA_VERSION { return Err(UnsupportedSchemaVersion); }
    if IsBlank(d.name, isSpace) || IsBlank(d.version, isSpace) { return Err(InvalidDatasetIdentity); }
    if d.queries == [] { return Err(EmptyDataset); }
    var ids: set<string> := {};
    for i := 0 to |d.queries|
      invariant ids == set j | 0 <= j < i :: d.queries[j].id
      invariant ValidQueries(d.queries[..i], isSpace)
    {
      var e := CheckQuery(d.queries, i, ids, isSpace);
      if e.Some? {
        assert IsAtFault(d.queries, i, e.value, isSpace);
        return Err(e.value);
      }
      ids := ids + {d.queries[i].id};
    }
    assert d.queries[..|d.queries|] == d.queries;
    r := Ok(());
  }

  // ---------------------------------------------------------------- evaluation

  function Add(a: Metrics, b: Metrics): Metrics {
    Metrics(a.recall + b.recall, a.precision + b.precision, a.hitRate + b.hitRate, a.mrr + b.mrr, a.ndcg + b.ndcg)
  }

  function Divide(a: Metrics, n: real): Metrics
    requires n != 0.0
  {
    Metrics(a.recall / n, a.precision / n, a.hitRate / n, a.mrr / n, a.ndcg / n)
  }

  function MeanOf(total: Metrics, count: nat): Metrics
    requires count > 0
  {
    Divide(total, count as real)
  }

  function Subtract(a: Metrics, b: Metrics): Metrics {
    Metrics(a.recall - b.recall, a.precision - b.precision, a.hitRate - b.hitRate, a.mrr - b.mrr, a.ndcg - b.ndcg)
  }

  const ZERO: Metrics := Metrics(0.0, 0.0, 0.0, 0.0, 0.0)

  function Sum(reports: seq<QueryReport>): Metrics {
    if reports == [] then ZERO else Add(Sum(reports[..|reports| - 1]), reports[|reports| - 1].metrics)
  }

  predicate AllWithin(m: Metrics, bound: real) {
    && 0.0 <= m.recall <= bound && 0.0 <= m.precision <= bound && 0.0 <= m.hitRate <= bound
    && 0.0 <= m.mrr <= bound && 0.0 <= m.ndcg <= bound
  }

  lemma {:induction false} SumWithin(reports: seq<QueryReport>)
    requires forall i :: 0 <= i < |reports| ==> AllUnit(reports[i].metrics)
    ensures AllWithin(Sum(reports), |reports| as real)
  {
    if reports != [] {
      SumWithin(reports[..|reports| - 1]);
    }
  }

  // The mean of proportions is a proportion.
  lemma MeanIsProportion(reports: seq<QueryReport>)
    requires reports != [] && forall i :: 0 <= i < |reports| ==> AllUnit(reports[i].metrics)
    ensures AllUnit(MeanOf(Sum(reports), |reports|))
  {
    SumWithin(reports);
    var s, n := Sum(reports), |reports| as real;
    Proportion(s.recall, n);
    Proportion(s.precision, n);
    Proportion(s.hitRate, n);
    Proportion(s.mrr, n);
    Proportion(s.ndcg, n);
  }

  // The sum of one metric over all reports.
  function Total(reports: seq<QueryReport>, metric: Metrics -> real): real {
    if reports == [] then 0.0
    else Total(reports[..|reports| - 1], metric) + metric(reports[|reports| - 1].metrics)
  }

  ghost predicate IsMean(x: real, reports: seq<QueryReport>, metric: Metrics -> real) {
    x * |reports| as real == Total(reports, metric)
  }

  lemma {:induction false} SumMeans(reports: seq<QueryReport>)
    ensures var sum := Sum(reports);
            && sum.recall == Total(reports, (m: Metrics) => m.recall)
            && sum.precision == Total(reports, (m: Metrics) => m.precision)
            && sum.hitRate == Total(reports, (m: Metrics) => m.hitRate)
            && sum.mrr == Total(reports, (m: Metrics) => m.mrr)
            && sum.ndcg == Total(reports, (m: Metrics) => m.ndcg)
  {
    if reports != [] {
      SumMeans(reports[..|reports| - 1]);
    }
  }

  // Each aggregate metric is the mean of that metric over the queries.
  lemma AggregateMeans(reports: seq<QueryReport>)
    requires reports != []
    ensures var mean := MeanOf(Sum(reports), |reports|);
            && IsMean(mean.recall, reports, (m: Metrics) => m.recall)
            && IsMean(mean.precision, reports, (m: Metrics) => m.precision)
            && IsMean(mean.hitRate, reports, (m: Metrics) => m.hitRate)
            && IsMean(mean.mrr, reports, (m: Metrics) => m.mrr)
            && IsMean(mean.ndcg, reports, (m: Metrics) => m.ndcg)
  {
    var sum, n := Sum(reports), |reports| as real;
    SumMeans(reports);
    QuotientTimes(sum.recall, n);
    QuotientTimes(sum.precision, n);
    QuotientTimes(sum.hitRate, n);
    QuotientTimes(sum.mrr, n);
    QuotientTimes(sum.ndcg, n);
  }

  // A report names its query, the records that were looked at, and their metrics.
  lemma ReportMeans(report: QueryReport, q: Query, rankings: map<string, seq<RecordId>>, k: nat, d: Discount)
    requires k > 0 && Reports(report, q, rankings, ReporterAt(k, d))
    ensures var ranking := rankings[q.id];
            && report.id == q.id && report.returned == |report.ranking|
            && report.ranking == (if |ranking| <= k then ranking else ranking[..k])
            && MetricsAtK(q.judgments, ranking, k, d) == Ok(report.metrics)
  {
    assert report == ReportOn(q, rankings[q.id], k, d);
  }

  function QueryIds(queries: seq<Query>): set<string> {
    set i | 0 <= i < |queries| :: queries[i].id
  }

  // The report on one query.
  function ReportOn(q: Query, ranking: seq<RecordId>, k: nat, d: Discount): QueryReport
    requires k > 0
  {
    QueryReport(q.id, if |ranking| <= k then |ranking| else k,
                MetricsAtK(q.judgments, ranking, k, d).value, TopK(ranking, k))
  }

  function ReporterAt(k: nat, d: Discount): Reporter
    requires k > 0
  {
    (q: Query, ranking: seq<RecordId>) => ReportOn(q, ranking, k, d)
  }

  type Reporter = (Query, seq<RecordId>) -> QueryReport

  ghost predicate Reports(report: QueryReport, q: Query, rankings: map<string, seq<RecordId>>, reporter: Reporter) {
    q.id in rankings && report == reporter(q, rankings[q.id])
  }

  method ReportQueries(queries: seq<Query>, rankings: map<string, seq<RecordId>>, reporter: Reporter)
    returns (r: Result<(seq<QueryReport>, Metrics), EvaluationError>)
    ensures r.Ok? <==> QueryIds(queries) <= rankings.Keys
    ensures r.Err? ==> r.error.MissingRanking? && r.error.id in QueryIds(queries) && r.error.id !in rankings
    ensures r.Ok? ==> |r.value.0| == |queries| && r.value.1 == Sum(r.value.0)
    ensures r.Ok? ==> forall i :: 0 <= i < |queries| ==> Reports(r.value.0[i], queries[i], rankings, reporter)
  {
    var reports: seq<QueryReport> := [];
    var aggregate := ZERO;
    for i := 0 to |queries|
      invariant |reports| == i && aggregate == Sum(reports)
      invariant forall j :: 0 <= j < i ==> Reports(reports[j], queries[j], rankings, reporter)
    {
      var q := queries[i];
      assert q.id in QueryIds(queries);
      if q.id !in rankings { return Err(MissingRanking(q.id)); }
      var report := reporter(q, rankings[q.id]);
      aggregate := Add(aggregate, report.metrics);
      assert (reports + [report])[..i] == reports;
      reports := reports + [report];
    }
    r := Ok((reports, aggregate));
  }

  // The aggregate of an evaluation whose rankings do not repeat records is made of proportions.
  lemma AggregateIsProportion(dataset: Dataset, reports: seq<QueryReport>, k: nat,
                              rankings: map<string, seq<RecordId>>, d: Discount, isSpace: char -> bool)
    requires ValidDataset(dataset, isSpace) && Discounting(d) && k > 0 && |reports| == |dataset.queries|
    requires forall id :: id in rankings ==> NoRepeats(TopK(rankings[id], k))
    requires forall i :: 0 <= i < |reports| ==> Reports(reports[i], dataset.queries[i], rankings, ReporterAt(k, d))
    ensures AllUnit(MeanOf(Sum(reports), |reports|))
  {
    forall i | 0 <= i < |reports|
      ensures AllUnit(reports[i].metrics)
    {
      var q := dataset.queries[i];
      assert ValidQuery(q, isSpace) && reports[i] == ReportOn(q, rankings[q.id], k, d);
      MetricsAreProportions(q.judgments, rankings[q.id], k, d);
    }
    MeanIsProportion(reports);
  }

  method EvaluateRankings(dataset: Dataset, name: string, k: nat, rankings: map<string, seq<RecordId>>, d: Discount,
                          isSpace: char -> bool)
    returns (r: Result<Report, EvaluationError>)
    ensures r.Ok? <==> && ValidDataset(dataset, isSpace) && !IsBlank(name, isSpace) && k > 0
                       && rankings.Keys == QueryIds(dataset.queries)
    ensures r == Err(InvalidRunName) <==> ValidDataset(dataset, isSpace) && IsBlank(name, isSpace)
    ensures r == Err(EvaluationError.InvalidTopK) <==>
            ValidDataset(dataset, isSpace) && !IsBlank(name, isSpace) && k == 0
    ensures r.Err? && ValidDataset(dataset, isSpace) && !IsBlank(name, isSpace) && k > 0 ==>
              if rankings.Keys <= QueryIds(dataset.queries)
              then r.error.MissingRanking? && r.error.id in QueryIds(dataset.queries) && r.error.id !in rankings
              else r.error.RankingForUnknownQuery? && r.error.id in rankings && r.error.id !in QueryIds(dataset.queries)
    ensures r.Ok? ==> (r.value.dataset, r.value.version) == (dataset.name, dataset.version)
    ensures r.Ok? ==> |r.value.queries| == |dataset.queries| > 0
    ensures r.Ok? ==> r.value.aggregate == MeanOf(Sum(r.value.queries), |r.value.queries|)
    ensures r.Ok? ==> forall i :: 0 <= i < |dataset.queries| ==>
                        Reports(r.value.queries[i], dataset.queries[i], rankings, ReporterAt(k, d))
  {
    var valid := Validate(dataset, isSpace);
    if valid.Err? { return Err(valid.error); }
    if IsBlank(name, isSpace) { return Err(InvalidRunName); }
    if k == 0 { return Err(EvaluationError.InvalidTopK); }
    var known := QueryIds(dataset.queries);
    var strangers := rankings.Keys - known;
    if strangers != {} {
      var unknown :| unknown in strangers;
      return Err(RankingForUnknownQuery(unknown));
    }
    assert rankings.Keys <= known by {
      assert forall id :: id in rankings.Keys && id !in known ==> id in strangers;
    }
    var reported := ReportQueries(dataset.queries, rankings, ReporterAt(k, d));
    if reported.Err? { return Err(reported.error); }
    var (reports, aggregate) := reported.value;
    r := Ok(Report(dataset.name, dataset.version, dataset.schemaVersion, MeanOf(aggregate, |dataset.queries|),
                   reports));
  }

  // ---------------------------------------------------------------- comparison

  datatype Comparison = Comparison(delta: Metrics, improved: nat, regressed: nat, same: nat)

  const TOLERANCE: real := 0.000000000001

  function ByQuery(reports: seq<QueryReport>): map<string, Metrics> {
    if reports == [] then map[]
    else ByQuery(reports[..|reports| - 1])[reports[|reports| - 1].id := reports[|reports| - 1].metrics]
  }

  lemma {:induction false} ByQueryMeans(reports: seq<QueryReport>)
    requires forall i, j :: 0 <= i < j < |reports| ==> reports[i].id != reports[j].id
    ensures forall i :: 0 <= i < |reports| ==>
              reports[i].id in ByQuery(reports) && ByQuery(reports)[reports[i].id] == reports[i].metrics
    ensures forall id :: id in ByQuery(reports) ==> exists i :: 0 <= i < |reports| && reports[i].id == id
  {
    if reports != [] {
      var init := reports[..|reports| - 1];
      ByQueryMeans(init);
      forall id | id in ByQuery(reports)
        ensures exists i :: 0 <= i < |reports| && reports[i].id == id
      {
        if id in ByQuery(init) {
          var i :| 0 <= i < |init| && init[i].id == id;
          assert reports[i].id == id;
        } else {
          assert reports[|reports| - 1].id == id;
        }
      }
    }
  }

  function Better(from: map<string, Metrics>, to: map<string, Metrics>): set<string> {
    set id | id in from && id in to && to[id].ndcg - from[id].ndcg > TOLERANCE
  }

  // Name, version and schema of the dataset that was evaluated.
  function DatasetOf(a: Report): (string, string, nat) {
    (a.dataset, a.version, a.schemaVersion)
  }

  lemma LeavesTodo(counted: set<string>, todo: set<string>, id: string)
    requires id in todo
    ensures |counted - (todo - {id})| == |counted - todo| + if id in counted then 1 else 0
  {
    if id in counted {
      assert counted - (todo - {id}) == (counted - todo) + {id};
    } else {
      assert counted - (todo - {id}) == counted - todo;
    }
  }

  method Tally(delta: real, improved: nat, regressed: nat, same: nat) returns (i: nat, r: nat, s: nat)
    ensures i == improved + if delta > TOLERANCE then 1 else 0
    ensures r == regressed + if delta < -TOLERANCE then 1 else 0
    ensures i + r + s == improved + regressed + same + 1
  {
    i, r, s := improved, regressed, same;
    if delta > TOLERANCE {
      i := i + 1;
    } else if delta < -TOLERANCE {
      r := r + 1;
    } else {
      s := s + 1;
    }
  }

  // The queries outside `todo` have been counted.
  ghost predicate Counted(up: set<string>, down: set<string>, todo: set<string>, total: nat,
                          improved: nat, regressed: nat, same: nat)
  {
    improved == |up - todo| && regressed == |down - todo| && improved + regressed + same + |todo| == total
  }

  lemma OneMoreCounted(up: set<string>, down: set<string>, todo: set<string>, total: nat,
                       improved: nat, regressed: nat, same: nat, id: string, i: nat, r: nat, s: nat)
    requires Counted(up, down, todo, total, improved, regressed, same) && id in todo
    requires i == improved + if id in up then 1 else 0
    requires r == regressed + if id in down then 1 else 0
    requires i + r + s == improved + regressed + same + 1
    ensures Counted(up, down, todo - {id}, total, i, r, s)
  {
    LeavesTodo(up, todo, id);
    LeavesTodo(down, todo, id);
  }

  method CountChanges(from: map<string, Metrics>, to: map<string, Metrics>)
    returns (improved: nat, regressed: nat, same: nat)
    requires from.Keys == to.Keys
    ensures improved == |Better(from, to)| && regressed == |Better(to, from)|
    ensures improved + regressed + same == |from|
  {
    improved, regressed, same := 0, 0, 0;
    var todo := from.Keys;
    ghost var up, down := Better(from, to), Better(to, from);
    assert up - todo == {} && down - todo == {};
    while todo != {}
      invariant todo <= from.Keys
      invariant Counted(up, down, todo, |from|, improved, regressed, same)
      decreases todo
    {
      var id :| id in todo;
      var i, r, s := Tally(to[id].ndcg - from[id].ndcg, improved, regressed, same);
      OneMoreCounted(up, down, todo, |from|, improved, regressed, same, id, i, r, s);
      improved, regressed, same := i, r, s;
      todo := todo - {id};
    }
    assert up - todo == up && down - todo == down;
  }

  method CompareReports(baseline: Report, candidate: Report) returns (r: Result<Comparison, EvaluationError>)
    ensures r == Err(DatasetMismatch) <==> DatasetOf(baseline) != DatasetOf(candidate)
    ensures r == Err(QuerySetMismatch) <==>
            && DatasetOf(baseline) == DatasetOf(candidate)
            && ByQuery(baseline.queries).Keys != ByQuery(candidate.queries).Keys
    ensures r.Err? ==> r.error in {DatasetMismatch, QuerySetMismatch}
    ensures r.Ok? ==>
              var a, b, delta := baseline.aggregate, candidate.aggregate, r.value.delta;
              && delta.recall == b.recall - a.recall && delta.precision == b.precision - a.precision
              && delta.hitRate == b.hitRate - a.hitRate && delta.mrr == b.mrr - a.mrr && delta.ndcg == b.ndcg - a.ndcg
    ensures r.Ok? ==>
              var from, to := ByQuery(baseline.queries), ByQuery(candidate.queries);
              && r.value.improved == |set id | id in from && id in to && to[id].ndcg - from[id].ndcg > 0.000000000001|
              && r.value.regressed == |set id | id in from && id in to && from[id].ndcg - to[id].ndcg > 0.000000000001|
              && r.value.improved + r.value.regressed + r.value.same == |from|
  {
    if || baseline.dataset != candidate.dataset || baseline.version != candidate.version
       || baseline.schemaVersion != candidate.schemaVersion {
      return Err(DatasetMismatch);
    }
    var from, to := ByQuery(baseline.queries), ByQuery(candidate.queries);
    if from.Keys != to.Keys { return Err(QuerySetMismatch); }
    var improved, regressed, same := CountChanges(from, to);
    r := Ok(Comparison(Subtract(candidate.aggregate, baseline.aggregate), improved, regressed, same));
  }
}
