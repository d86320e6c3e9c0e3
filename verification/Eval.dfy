/** Retrieval metrics of one ranking (crates/ketebe-bench/src/eval.rs), over exact reals. */
module Eval {
  import opened Wrappers
  import opened Collections
  import opened Store

  datatype Judgment = Judgment(record: RecordId, relevance: nat)

  datatype Metrics = Metrics(recall: real, precision: real, hitRate: real, mrr: real, ndcg: real)

  datatype MetricsError = InvalidTopK

  // What a gain counts for at a position: linear in the gain, positive, and falling along the ranking.
  // The server divides by log2(rank + 1), where the rank is the position counted from one.
  type Discount = (real, nat) -> real

  ghost predicate LinearAt(d: Discount, x: real, y: real, i: nat) {
    d(x - y, i) == d(x, i) - d(y, i)
  }

  ghost predicate FallsAt(d: Discount, x: real, i: nat, j: nat) {
    i <= j && x >= 0.0 ==> d(x, i) >= d(x, j) >= 0.0
  }

  ghost predicate Discounting(d: Discount) {
    (forall x, y, i :: LinearAt(d, x, y, i)) && (forall x, i, j :: FallsAt(d, x, i, j))
  }

  ghost predicate FallsStrictlyAt(d: Discount, x: real, i: nat, j: nat) {
    i < j && x > 0.0 ==> d(x, i) > d(x, j) > 0.0
  }

  ghost predicate StrictlyDiscounting(d: Discount) {
    Discounting(d) && (forall x, i, j :: FallsStrictlyAt(d, x, i, j))
  }

  function DivideBy(scale: nat -> real): Discount {
    (x: real, i: nat) => if scale(i) == 0.0 then 0.0 else x / scale(i)
  }

  lemma ProductPositive(x: real, y: real)
    requires x > 0.0 && y > 0.0
    ensures x * y > 0.0
  {
  }

  lemma Distributes(p: real, q: real, a: real)
    ensures (p - q) * a == p * a - q * a
  {
  }

  lemma ProductOrder(a: real, p: real, q: real)
    requires a > 0.0
    ensures (p < q <==> p * a < q * a) && (p == q <==> p * a == q * a)
  {
    Distributes(q, p, a);
    Distributes(p, q, a);
    if p < q {
      ProductPositive(q - p, a);
    } else if q < p {
      ProductPositive(p - q, a);
    }
  }

  lemma QuotientTimes(x: real, a: real)
    requires a > 0.0
    ensures (x / a) * a == x
  {
  }

  // `p` and `q` are the quotients of `x` by `a` and by `b`.
  lemma QuotientOrder(x: real, a: real, b: real, p: real, q: real)
    requires 0.0 < a <= b && x >= 0.0 && p * a == x && q * b == x
    ensures p >= q >= 0.0
    ensures a < b && x > 0.0 ==> p > q > 0.0
  {
    ProductOrder(b, q, 0.0);
    ProductOrder(b, 0.0, q);
    ProductOrder(a, q, p);
    ProductOrder(a, p, q);
    if q > 0.0 {
      ProductOrder(q, a, b);
      assert a * q == q * a && b * q == q * b;
    }
  }

  lemma Quotients(x: real, a: real, b: real)
    requires 0.0 < a <= b && x >= 0.0
    ensures x / a >= x / b >= 0.0
    ensures a < b && x > 0.0 ==> x / a > x / b > 0.0
  {
    QuotientTimes(x, a);
    QuotientTimes(x, b);
    QuotientOrder(x, a, b, x / a, x / b);
  }

  lemma QuotientOfDifference(x: real, y: real, a: real)
    requires a > 0.0
    ensures (x - y) / a == x / a - y / a
  {
    QuotientTimes(x, a);
    QuotientTimes(y, a);
    QuotientTimes(x - y, a);
    Distributes(x / a, y / a, a);
    ProductOrder(a, (x - y) / a, x / a - y / a);
  }

  // Dividing by a positive scale that grows with the position is such a discount.
  lemma DivisionDiscounts(scale: nat -> real)
    requires forall i :: scale(i) > 0.0
    requires forall i, j :: i < j ==> scale(i) < scale(j)
    ensures StrictlyDiscounting(DivideBy(scale))
  {
    var d := DivideBy(scale);
    forall x: real, y: real, i: nat
      ensures LinearAt(d, x, y, i)
    {
      QuotientOfDifference(x, y, scale(i));
    }
    forall x: real, i: nat, j: nat
      ensures FallsAt(d, x, i, j) && FallsStrictlyAt(d, x, i, j)
    {
      if i <= j && x >= 0.0 {
        Quotients(x, scale(i), scale(j));
      }
    }
  }

  function Pow2(n: nat): (p: real)
    ensures p >= 1.0 && (n > 0 ==> p >= 2.0)
  {
    if n == 0 then 1.0 else 2.0 * Pow2(n - 1)
  }

  function Gain(grade: nat): (g: real)
    ensures g >= 0.0 && (g == 0.0 <==> grade == 0)
  {
    if grade == 0 then 0.0 else Pow2(grade) - 1.0
  }

  lemma {:induction false} GainGrows(a: nat, b: nat)
    requires a <= b
    ensures Gain(a) <= Gain(b) && (a < b ==> Gain(a) < Gain(b))
  {
    if a < b {
      assert Pow2(b) == 2.0 * Pow2(b - 1);
      if a < b - 1 {
        GainGrows(a, b - 1);
      }
    }
  }

  // ---------------------------------------------------------------- the computation

  function Relevance(judgments: seq<Judgment>): map<RecordId, nat> {
    if judgments == [] then map[]
    else
      var last := judgments[|judgments| - 1];
      Relevance(judgments[..|judgments| - 1])[last.record := last.relevance]
  }

  function Grade(relevance: map<RecordId, nat>, id: RecordId): nat {
    if id in relevance then relevance[id] else 0
  }

  function TopK(ranking: seq<RecordId>, k: nat): (ranked: seq<RecordId>)
    ensures |ranked| <= k
  {
    if |ranking| <= k then ranking else ranking[..k]
  }

  function Grades(ranked: seq<RecordId>, relevance: map<RecordId, nat>): (g: seq<nat>)
    ensures |g| == |ranked| && forall i :: 0 <= i < |g| ==> g[i] == Grade(relevance, ranked[i])
  {
    seq(|ranked|, i requires 0 <= i < |ranked| => Grade(relevance, ranked[i]))
  }

  function JudgedGrades(judgments: seq<Judgment>): (g: seq<nat>)
    ensures |g| == |judgments| && forall i :: 0 <= i < |g| ==> g[i] == judgments[i].relevance
  {
    seq(|judgments|, i requires 0 <= i < |judgments| => judgments[i].relevance)
  }

  predicate Descending(grades: seq<nat>) {
    forall i, j :: 0 <= i < j < |grades| ==> grades[i] >= grades[j]
  }

  lemma ConsDescending(head: nat, rest: seq<nat>)
    requires Descending(rest) && forall y :: y in rest ==> y <= head
    ensures Descending([head] + rest)
  {
    assert forall j :: 0 <= j < |rest| ==> rest[j] in rest;
  }

  function Insert(x: nat, sorted: seq<nat>): (r: seq<nat>)
    requires Descending(sorted)
    ensures Descending(r) && multiset(r) == multiset(sorted) + multiset{x}
  {
    if sorted == [] then [x]
    else if x >= sorted[0] then
      ConsDescending(x, sorted);
      [x] + sorted
    else
      var rest := Insert(x, sorted[1..]);
      InsertedBehind(x, sorted, rest);
      [sorted[0]] + rest
  }

  lemma InsertedBehind(x: nat, sorted: seq<nat>, rest: seq<nat>)
    requires sorted != [] && Descending(sorted) && x < sorted[0]
    requires Descending(rest) && multiset(rest) == multiset(sorted[1..]) + multiset{x}
    ensures Descending([sorted[0]] + rest) && multiset([sorted[0]] + rest) == multiset(sorted) + multiset{x}
  {
    assert sorted == [sorted[0]] + sorted[1..];
    forall y | y in rest
      ensures y <= sorted[0]
    {
      assert y in multiset(rest);
      if y != x {
        assert y in sorted[1..];
      }
    }
    ConsDescending(sorted[0], rest);
  }

  function SortDescending(grades: seq<nat>): (r: seq<nat>)
    ensures Descending(r) && multiset(r) == multiset(grades) && |r| == |grades|
  {
    if grades == [] then []
    else
      var r := Insert(grades[0], SortDescending(grades[1..]));
      assert grades == [grades[0]] + grades[1..];
      assert |multiset(r)| == |multiset(grades)|;
      r
  }

  function Dcg(grades: seq<nat>, d: Discount): real {
    if grades == [] then 0.0
    else Dcg(grades[..|grades| - 1], d) + d(Gain(grades[|grades| - 1]), |grades| - 1)
  }

  function Relevant(grades: seq<nat>): (n: nat)
    ensures n <= |grades|
  {
    if grades == [] then 0 else Relevant(grades[..|grades| - 1]) + if grades[|grades| - 1] > 0 then 1 else 0
  }

  // The position of the first relevant hit, or the number of hits.
  function FirstRelevant(grades: seq<nat>): (i: nat)
    ensures i <= |grades| && (forall j :: 0 <= j < i ==> grades[j] == 0) && (i < |grades| ==> grades[i] > 0)
  {
    if grades == [] || grades[0] > 0 then 0 else 1 + FirstRelevant(grades[1..])
  }

  function RelevantIds(relevance: map<RecordId, nat>): set<RecordId> {
    set id | id in relevance && relevance[id] > 0
  }

  function Ideal(judgments: seq<Judgment>, k: nat): (ideal: seq<nat>) {
    var sorted := SortDescending(JudgedGrades(judgments));
    if |sorted| <= k then sorted else sorted[..k]
  }

  function MetricsAtK(judgments: seq<Judgment>, ranking: seq<RecordId>, k: nat, d: Discount)
    : (r: Result<Metrics, MetricsError>)
    ensures r.Ok? <==> k > 0
  {
    if k == 0 then Err(InvalidTopK)
    else
      var relevance := Relevance(judgments);
      var total := |RelevantIds(relevance)|;
      var grades := Grades(TopK(ranking, k), relevance);
      var retrieved := Relevant(grades);
      var first := FirstRelevant(grades);
      var idcg := Dcg(Ideal(judgments, k), d);
      Ok(Metrics(
           if total == 0 then 1.0 else retrieved as real / total as real,
           retrieved as real / k as real,
           if retrieved > 0 then 1.0 else 0.0,
           if first < |grades| then 1.0 / (first + 1) as real else 0.0,
           if idcg > 0.0 then Dcg(grades, d) / idcg else 1.0))
  }

  // ---------------------------------------------------------------- gains, padded with nothing

  function GainAt(grades: seq<nat>, i: nat): (g: real)
    ensures g >= 0.0
  {
    if i < |grades| then Gain(grades[i]) else 0.0
  }

  // The gain of the first n positions, undiscounted and discounted.
  function Total(grades: seq<nat>, n: nat): (t: real)
    ensures t >= 0.0
  {
    if n == 0 then 0.0 else Total(grades, n - 1) + GainAt(grades, n - 1)
  }

  function Weighted(grades: seq<nat>, n: nat, d: Discount): real {
    if n == 0 then 0.0 else Weighted(grades, n - 1, d) + d(GainAt(grades, n - 1), n - 1)
  }

  lemma {:induction false} PrefixAgrees(a: seq<nat>, b: seq<nat>, n: nat, d: Discount)
    requires forall i :: 0 <= i < n ==> GainAt(a, i) == GainAt(b, i)
    ensures Total(a, n) == Total(b, n) && Weighted(a, n, d) == Weighted(b, n, d)
  {
    if n > 0 {
      PrefixAgrees(a, b, n - 1, d);
    }
  }

  lemma {:induction false} DcgIsWeighted(grades: seq<nat>, n: nat, d: Discount)
    requires Discounting(d) && |grades| <= n
    ensures Weighted(grades, n, d) == Dcg(grades, d)
    decreases n
  {
    if n > |grades| {
      assert LinearAt(d, 0.0, 0.0, n - 1);
      DcgIsWeighted(grades, n - 1, d);
    } else if grades != [] {
      var init := grades[..n - 1];
      DcgIsWeighted(init, n - 1, d);
      PrefixAgrees(grades, init, n - 1, d);
    }
  }

  function Lead(r: seq<nat>, l: seq<nat>, n: nat, d: Discount): real {
    Weighted(l, n, d) - Weighted(r, n, d)
  }

  function Gap(r: seq<nat>, l: seq<nat>, n: nat): real {
    Total(l, n) - Total(r, n)
  }

  // Summation by parts: if no prefix of `r` gains more than that of `l`, then with falling discounts
  // `r` is worth no more than `l`, and strictly less unless all prefixes gain the same.
  lemma {:induction false} PrefixesDecide(r: seq<nat>, l: seq<nat>, n: nat, d: Discount)
    requires Discounting(d) && n > 0
    requires forall j :: 0 <= j <= n ==> Gap(r, l, j) >= 0.0
    ensures Lead(r, l, n, d) >= d(Gap(r, l, n), n - 1) >= 0.0
    ensures StrictlyDiscounting(d) && Lead(r, l, n, d) == d(Gap(r, l, n), n - 1)
            ==> forall j :: 0 <= j < n ==> Gap(r, l, j) == 0.0
  {
    var gap, earlier := Gap(r, l, n), Gap(r, l, n - 1);
    assert gap - earlier == GainAt(l, n - 1) - GainAt(r, n - 1);
    assert LinearAt(d, gap, earlier, n - 1);
    assert LinearAt(d, GainAt(l, n - 1), GainAt(r, n - 1), n - 1);
    assert FallsAt(d, gap, n - 1, n - 1);
    if n == 1 {
      assert LinearAt(d, 0.0, 0.0, 0);
      assert Lead(r, l, 0, d) == 0.0;
    } else {
      PrefixesDecide(r, l, n - 1, d);
      assert FallsAt(d, earlier, n - 2, n - 1);
      if StrictlyDiscounting(d) {
        assert FallsStrictlyAt(d, earlier, n - 2, n - 1);
      }
    }
  }

  // ---------------------------------------------------------------- no selection beats the ideal one

  function GainSum(grades: seq<nat>): (t: real)
    ensures t >= 0.0
  {
    if grades == [] then 0.0 else Gain(grades[0]) + GainSum(grades[1..])
  }

  lemma {:induction false} GainSumWithout(grades: seq<nat>, i: nat)
    requires i < |grades|
    ensures GainSum(grades) == Gain(grades[i]) + GainSum(grades[..i] + grades[i + 1..])
    ensures multiset(grades[..i] + grades[i + 1..]) == multiset(grades) - multiset{grades[i]}
  {
    var rest := grades[..i] + grades[i + 1..];
    assert grades == grades[..i] + [grades[i]] + grades[i + 1..];
    if i == 0 {
      assert rest == grades[1..];
    } else {
      GainSumWithout(grades[1..], i - 1);
      assert rest == [grades[0]] + (grades[1..][..i - 1] + grades[1..][i..]);
    }
  }

  lemma {:induction false} TotalFromFirst(grades: seq<nat>, n: nat)
    requires n > 0 && grades != []
    ensures Total(grades, n) == Gain(grades[0]) + Total(grades[1..], n - 1)
  {
    if n > 1 {
      TotalFromFirst(grades, n - 1);
      assert GainAt(grades, n - 1) == GainAt(grades[1..], n - 2);
    }
  }

  lemma DropChosen(selection: multiset<nat>, others: multiset<nat>, best: nat, x: nat)
    requires selection <= others + multiset{best}
    requires x in selection && (best in selection ==> x == best)
    ensures selection - multiset{x} <= others
  {
    forall y
      ensures (selection - multiset{x})[y] <= others[y]
    {
      assert selection[y] <= (others + multiset{best})[y];
    }
  }

  // Of all selections of at most n grades, the n largest gain the most.
  lemma {:induction false} TopGainsMost(selection: seq<nat>, sorted: seq<nat>, n: nat)
    requires Descending(sorted) && multiset(selection) <= multiset(sorted) && |selection| <= n
    ensures GainSum(selection) <= Total(sorted, n)
    decreases |sorted|
  {
    if selection != [] {
      assert selection[0] in multiset(sorted);
      var best, others := sorted[0], sorted[1..];
      var i := Pick(selection, best);
      var rest := selection[..i] + selection[i + 1..];
      GainSumWithout(selection, i);
      RestFits(selection, sorted, i, rest);
      TopGainsMost(rest, others, n - 1);
      TotalFromFirst(sorted, n);
      GainGrows(selection[i], best);
    }
  }

  lemma Pick(selection: seq<nat>, best: nat) returns (i: nat)
    requires selection != []
    ensures i < |selection| && (best in selection ==> selection[i] == best)
  {
    if best in selection {
      i :| 0 <= i < |selection| && selection[i] == best;
    } else {
      i := 0;
    }
  }

  lemma RestFits(selection: seq<nat>, sorted: seq<nat>, i: nat, rest: seq<nat>)
    requires Descending(sorted) && sorted != [] && multiset(selection) <= multiset(sorted)
    requires i < |selection| && (sorted[0] in selection ==> selection[i] == sorted[0])
    requires multiset(rest) == multiset(selection) - multiset{selection[i]}
    ensures multiset(rest) <= multiset(sorted[1..]) && selection[i] <= sorted[0]
  {
    assert sorted == [sorted[0]] + sorted[1..];
    assert selection[i] in multiset(selection);
    assert sorted[0] in multiset(selection) <==> sorted[0] in selection;
    BestIsLargest(sorted, selection[i]);
    DropChosen(multiset(selection), multiset(sorted[1..]), sorted[0], selection[i]);
  }

  lemma BestIsLargest(sorted: seq<nat>, x: nat)
    requires Descending(sorted) && x in multiset(sorted)
    ensures sorted != [] && x <= sorted[0]
  {
    var i :| 0 <= i < |sorted| && sorted[i] == x;
  }

  // ---------------------------------------------------------------- what a ranking selects

  // `EvaluationDataset::validate` rejects a second judgment of one record.
  predicate DistinctJudgments(judgments: seq<Judgment>) {
    forall i, j :: 0 <= i < j < |judgments| ==> judgments[i].record != judgments[j].record
  }

  lemma {:induction false} RelevanceOfJudged(judgments: seq<Judgment>)
    requires DistinctJudgments(judgments)
    ensures forall i :: 0 <= i < |judgments| ==>
              && judgments[i].record in Relevance(judgments)
              && Relevance(judgments)[judgments[i].record] == judgments[i].relevance
    ensures forall id :: id in Relevance(judgments) ==> exists i :: 0 <= i < |judgments| && judgments[i].record == id
  {
    if judgments != [] {
      var init := judgments[..|judgments| - 1];
      RelevanceOfJudged(init);
      forall id | id in Relevance(judgments)
        ensures exists i :: 0 <= i < |judgments| && judgments[i].record == id
      {
        if id in Relevance(init) {
          var i :| 0 <= i < |init| && init[i].record == id;
          assert judgments[i].record == id;
        } else {
          assert judgments[|judgments| - 1].record == id;
        }
      }
    }
  }

  // The grades of the judged records among `ids`.
  function Selected(ids: seq<RecordId>, relevance: map<RecordId, nat>): (g: seq<nat>)
    ensures |g| <= |ids|
  {
    if ids == [] then []
    else
      Selected(ids[..|ids| - 1], relevance)
      + if ids[|ids| - 1] in relevance then [relevance[ids[|ids| - 1]]] else []
  }

  lemma {:induction false} GainSumAppend(grades: seq<nat>, g: nat)
    ensures GainSum(grades + [g]) == GainSum(grades) + Gain(g)
  {
    if grades != [] {
      assert (grades + [g])[1..] == grades[1..] + [g];
      GainSumAppend(grades[1..], g);
    } else {
      assert ([g])[1..] == [];
      assert grades + [g] == [g];
    }
  }

  lemma {:induction false} TotalIsSelected(ids: seq<RecordId>, relevance: map<RecordId, nat>, n: nat)
    requires n <= |ids|
    ensures Total(Grades(ids, relevance), n) == GainSum(Selected(ids[..n], relevance))
  {
    if n > 0 {
      TotalIsSelected(ids, relevance, n - 1);
      assert ids[..n][..n - 1] == ids[..n - 1];
      var before := Selected(ids[..n - 1], relevance);
      if ids[n - 1] in relevance {
        GainSumAppend(before, relevance[ids[n - 1]]);
      } else {
        assert before + [] == before;
      }
    }
  }

  // Records that do not repeat select each judgment at most once.
  lemma {:induction false} SelectsEachOnce(ids: seq<RecordId>, judgments: seq<Judgment>, relevance: map<RecordId, nat>)
    requires NoRepeats(ids) && DistinctJudgments(judgments)
    requires forall k :: 0 <= k < |ids| && ids[k] in relevance ==>
               exists i :: 0 <= i < |judgments| && judgments[i] == Judgment(ids[k], relevance[ids[k]])
    ensures multiset(Selected(ids, relevance)) <= multiset(JudgedGrades(judgments))
    decreases |ids|
  {
    if ids != [] {
      var init, last := ids[..|ids| - 1], ids[|ids| - 1];
      if last in relevance {
        var i :| 0 <= i < |judgments| && judgments[i] == Judgment(last, relevance[last]);
        var others := judgments[..i] + judgments[i + 1..];
        forall k | 0 <= k < |init| && init[k] in relevance
          ensures exists j :: 0 <= j < |others| && others[j] == Judgment(init[k], relevance[init[k]])
        {
          var j :| 0 <= j < |judgments| && judgments[j] == Judgment(ids[k], relevance[ids[k]]);
          assert others[if j < i then j else j - 1] == judgments[j];
        }
        SelectsEachOnce(init, others, relevance);
        JudgedWithout(judgments, i);
      } else {
        SelectsEachOnce(init, judgments, relevance);
        assert Selected(init, relevance) + [] == Selected(init, relevance);
      }
    }
  }

  lemma JudgedWithout(judgments: seq<Judgment>, i: nat)
    requires i < |judgments|
    ensures multiset(JudgedGrades(judgments))
            == multiset(JudgedGrades(judgments[..i] + judgments[i + 1..])) + multiset{judgments[i].relevance}
  {
    var g := JudgedGrades(judgments);
    assert JudgedGrades(judgments[..i] + judgments[i + 1..]) == g[..i] + g[i + 1..];
    assert g == g[..i] + [g[i]] + g[i + 1..];
  }

  // ---------------------------------------------------------------- the metrics are proportions

  function RankedGrades(judgments: seq<Judgment>, ranking: seq<RecordId>, k: nat): seq<nat> {
    Grades(TopK(ranking, k), Relevance(judgments))
  }

  lemma JudgmentOf(judgments: seq<Judgment>, id: RecordId) returns (i: nat)
    requires DistinctJudgments(judgments) && id in Relevance(judgments)
    ensures i < |judgments| && judgments[i] == Judgment(id, Relevance(judgments)[id])
  {
    RelevanceOfJudged(judgments);
    i :| 0 <= i < |judgments| && judgments[i].record == id;
  }

  lemma SelectsJudged(ids: seq<RecordId>, judgments: seq<Judgment>)
    requires DistinctJudgments(judgments) && NoRepeats(ids)
    ensures multiset(Selected(ids, Relevance(judgments))) <= multiset(JudgedGrades(judgments))
  {
    var relevance := Relevance(judgments);
    forall m | 0 <= m < |ids| && ids[m] in relevance
      ensures exists i :: 0 <= i < |judgments| && judgments[i] == Judgment(ids[m], relevance[ids[m]])
    {
      var i := JudgmentOf(judgments, ids[m]);
    }
    SelectsEachOnce(ids, judgments, relevance);
  }

  lemma IdealDominates(judgments: seq<Judgment>, ranking: seq<RecordId>, k: nat, j: nat)
    requires DistinctJudgments(judgments) && NoRepeats(TopK(ranking, k)) && j <= k
    ensures Gap(RankedGrades(judgments, ranking, k), Ideal(judgments, k), j) >= 0.0
  {
    var ranked, relevance := TopK(ranking, k), Relevance(judgments);
    var grades := Grades(ranked, relevance);
    var sorted := SortDescending(JudgedGrades(judgments));
    var anything: Discount := (x, i) => x;
    PrefixAgrees(Ideal(judgments, k), sorted, j, anything);
    var n := if j <= |ranked| then j else |ranked|;
    var ids := ranked[..n];
    TotalStops(grades, n, j);
    TotalIsSelected(ranked, relevance, n);
    SelectsJudged(ids, judgments);
    TopGainsMost(Selected(ids, relevance), sorted, j);
  }

  lemma {:induction false} TotalStops(grades: seq<nat>, n: nat, j: nat)
    requires n <= j && (n == j || |grades| <= n)
    ensures Total(grades, j) == Total(grades, n)
  {
    if n < j {
      TotalStops(grades, n, j - 1);
    }
  }

  // The discounted gain of a ranking without repeats never exceeds the ideal one.
  lemma DcgAtMostIdeal(judgments: seq<Judgment>, ranking: seq<RecordId>, k: nat, d: Discount)
    requires Discounting(d) && k > 0
    requires DistinctJudgments(judgments) && NoRepeats(TopK(ranking, k))
    ensures 0.0 <= Dcg(RankedGrades(judgments, ranking, k), d) <= Dcg(Ideal(judgments, k), d)
  {
    var grades, ideal := RankedGrades(judgments, ranking, k), Ideal(judgments, k);
    forall j | 0 <= j <= k
      ensures Gap(grades, ideal, j) >= 0.0
    {
      IdealDominates(judgments, ranking, k, j);
    }
    PrefixesDecide(grades, ideal, k, d);
    DcgIsWeighted(grades, k, d);
    DcgIsWeighted(ideal, k, d);
    WeightedNonNegative(grades, k, d);
  }

  lemma {:induction false} WeightedNonNegative(grades: seq<nat>, n: nat, d: Discount)
    requires Discounting(d)
    ensures Weighted(grades, n, d) >= 0.0
  {
    if n > 0 {
      WeightedNonNegative(grades, n - 1, d);
      assert FallsAt(d, GainAt(grades, n - 1), n - 1, n - 1);
    }
  }

  lemma {:induction false} SameTotalsSameGrades(a: seq<nat>, b: seq<nat>, n: nat)
    requires forall j :: 0 <= j <= n ==> Gap(a, b, j) == 0.0
    ensures forall i :: 0 <= i < n ==> GainAt(a, i) == GainAt(b, i)
  {
    forall i | 0 <= i < n
      ensures GainAt(a, i) == GainAt(b, i)
    {
      assert Gap(a, b, i) == 0.0 && Gap(a, b, i + 1) == 0.0;
    }
  }

  // With strictly falling discounts a ranking is worth as much as the ideal one exactly when its
  // grades are the ideal ones, position by position.
  lemma DcgIdealIff(judgments: seq<Judgment>, ranking: seq<RecordId>, k: nat, d: Discount)
    requires StrictlyDiscounting(d) && k > 0
    requires DistinctJudgments(judgments) && NoRepeats(TopK(ranking, k))
    ensures var grades, ideal := RankedGrades(judgments, ranking, k), Ideal(judgments, k);
            Dcg(grades, d) == Dcg(ideal, d) <==> forall i :: 0 <= i < k ==> GainAt(grades, i) == GainAt(ideal, i)
  {
    var grades, ideal := RankedGrades(judgments, ranking, k), Ideal(judgments, k);
    DcgIsWeighted(grades, k, d);
    DcgIsWeighted(ideal, k, d);
    if Dcg(grades, d) == Dcg(ideal, d) {
      forall j | 0 <= j <= k
        ensures Gap(grades, ideal, j) >= 0.0
      {
        IdealDominates(judgments, ranking, k, j);
      }
      PrefixesDecide(grades, ideal, k, d);
      assert FallsStrictlyAt(d, Gap(grades, ideal, k), k - 1, k);
      SameTotalsSameGrades(grades, ideal, k);
    } else {
      if forall i :: 0 <= i < k ==> GainAt(grades, i) == GainAt(ideal, i) {
        PrefixAgrees(grades, ideal, k, d);
      }
    }
  }

  // ---------------------------------------------------------------- recall

  function HitIds(ranked: seq<RecordId>, relevance: map<RecordId, nat>): set<RecordId> {
    set id | id in ranked && Grade(relevance, id) > 0
  }

  lemma HitIdsMore(init: seq<RecordId>, last: RecordId, relevance: map<RecordId, nat>)
    requires last !in init
    ensures |HitIds(init + [last], relevance)|
            == |HitIds(init, relevance)| + if Grade(relevance, last) > 0 then 1 else 0
  {
    if Grade(relevance, last) > 0 {
      assert HitIds(init + [last], relevance) == HitIds(init, relevance) + {last};
    } else {
      assert HitIds(init + [last], relevance) == HitIds(init, relevance);
    }
  }

  lemma {:induction false} RelevantIsHits(ranked: seq<RecordId>, relevance: map<RecordId, nat>)
    requires NoRepeats(ranked)
    ensures Relevant(Grades(ranked, relevance)) == |HitIds(ranked, relevance)|
  {
    if ranked != [] {
      var init, last := ranked[..|ranked| - 1], ranked[|ranked| - 1];
      RelevantIsHits(init, relevance);
      assert Grades(ranked, relevance)[..|ranked| - 1] == Grades(init, relevance);
      assert ranked == init + [last];
      HitIdsMore(init, last, relevance);
    }
  }

  lemma RetrievedAtMostRelevant(judgments: seq<Judgment>, ranking: seq<RecordId>, k: nat)
    requires NoRepeats(TopK(ranking, k))
    ensures Relevant(RankedGrades(judgments, ranking, k)) <= |RelevantIds(Relevance(judgments))|
  {
    var ranked, relevance := TopK(ranking, k), Relevance(judgments);
    RelevantIsHits(ranked, relevance);
    SubsetSize(HitIds(ranked, relevance), RelevantIds(relevance));
  }

  lemma Proportion(part: real, whole: real)
    requires 0.0 <= part <= whole && whole > 0.0
    ensures 0.0 <= part / whole <= 1.0
    ensures part / whole == 1.0 <==> part == whole
  {
    QuotientTimes(part, whole);
    ProductOrder(whole, part / whole, 0.0);
    ProductOrder(whole, 1.0, part / whole);
  }

  predicate Unit(x: real) {
    0.0 <= x <= 1.0
  }

  predicate AllUnit(m: Metrics) {
    Unit(m.recall) && Unit(m.precision) && Unit(m.hitRate) && Unit(m.mrr) && Unit(m.ndcg)
  }

  // Every metric of a ranking that repeats no record among its first k lies between 0 and 1.
  lemma MetricsAreProportions(judgments: seq<Judgment>, ranking: seq<RecordId>, k: nat, d: Discount)
    requires Discounting(d) && k > 0
    requires DistinctJudgments(judgments) && NoRepeats(TopK(ranking, k))
    ensures MetricsAtK(judgments, ranking, k, d).Ok? && AllUnit(MetricsAtK(judgments, ranking, k, d).value)
  {
    RecallBounded(judgments, ranking, k, d);
    RecallNonNegative(judgments, ranking, k, d);
    var grades := RankedGrades(judgments, ranking, k);
    Proportion(Relevant(grades) as real, k as real);
    Proportion(1.0, (FirstRelevant(grades) + 1) as real);
    NdcgAtMostOne(judgments, ranking, k, d);
  }

  lemma NdcgAtMostOne(judgments: seq<Judgment>, ranking: seq<RecordId>, k: nat, d: Discount)
    requires Discounting(d) && k > 0
    requires DistinctJudgments(judgments) && NoRepeats(TopK(ranking, k))
    ensures Unit(MetricsAtK(judgments, ranking, k, d).value.ndcg)
  {
    DcgAtMostIdeal(judgments, ranking, k, d);
    var idcg := Dcg(Ideal(judgments, k), d);
    if idcg > 0.0 {
      Proportion(Dcg(RankedGrades(judgments, ranking, k), d), idcg);
    }
  }

  lemma RecallNonNegative(judgments: seq<Judgment>, ranking: seq<RecordId>, k: nat, d: Discount)
    requires k > 0
    ensures MetricsAtK(judgments, ranking, k, d).value.recall >= 0.0
  {
    var total := |RelevantIds(Relevance(judgments))|;
    if total > 0 {
      Quotients(Relevant(RankedGrades(judgments, ranking, k)) as real, total as real, total as real);
    }
  }

  // nDCG is 1 exactly when nothing relevant was judged or the grades are ideal at every position.
  lemma NdcgIsOneIff(judgments: seq<Judgment>, ranking: seq<RecordId>, k: nat, d: Discount)
    requires StrictlyDiscounting(d) && k > 0
    requires DistinctJudgments(judgments) && NoRepeats(TopK(ranking, k))
    ensures var grades, ideal := RankedGrades(judgments, ranking, k), Ideal(judgments, k);
            MetricsAtK(judgments, ranking, k, d).value.ndcg == 1.0
            <==> forall i :: 0 <= i < k ==> GainAt(grades, i) == GainAt(ideal, i)
  {
    var grades, ideal := RankedGrades(judgments, ranking, k), Ideal(judgments, k);
    DcgAtMostIdeal(judgments, ranking, k, d);
    DcgIdealIff(judgments, ranking, k, d);
    if Dcg(ideal, d) > 0.0 {
      Proportion(Dcg(grades, d), Dcg(ideal, d));
    }
  }

  // ---------------------------------------------------------------- what the metrics are

  // One of the first k records, at this position, was judged relevant.
  ghost predicate IsHit(judgments: seq<Judgment>, ranking: seq<RecordId>, k: nat, i: nat) {
    i < k && i < |ranking| && exists j :: j in judgments && j.record == ranking[i] && j.relevance > 0
  }

  ghost function HitsOf(judgments: seq<Judgment>, ranking: seq<RecordId>, k: nat): set<nat> {
    set i | 0 <= i < |ranking| && IsHit(judgments, ranking, k, i)
  }

  ghost function JudgedRelevant(judgments: seq<Judgment>): set<RecordId> {
    set j | j in judgments && j.relevance > 0 :: j.record
  }

  lemma {:induction false} RelevantCounts(grades: seq<nat>)
    ensures Relevant(grades) == |set i: nat | i < |grades| && grades[i] > 0|
  {
    var hits := set i: nat | i < |grades| && grades[i] > 0;
    if grades != [] {
      var init := grades[..|grades| - 1];
      RelevantCounts(init);
      var before := set i: nat | i < |init| && init[i] > 0;
      if grades[|grades| - 1] > 0 {
        assert hits == before + {|init|};
      } else {
        assert hits == before;
      }
    }
  }

  lemma GradesOfHits(judgments: seq<Judgment>, ranking: seq<RecordId>, k: nat)
    requires DistinctJudgments(judgments)
    ensures var grades := RankedGrades(judgments, ranking, k);
            HitsOf(judgments, ranking, k) == set i: nat | i < |grades| && grades[i] > 0
    ensures RelevantIds(Relevance(judgments)) == JudgedRelevant(judgments)
  {
    var relevance := Relevance(judgments);
    RelevanceOfJudged(judgments);
    forall i: nat | i < |TopK(ranking, k)|
      ensures Grade(relevance, ranking[i]) > 0 <==> IsHit(judgments, ranking, k, i)
    {
      if Grade(relevance, ranking[i]) > 0 {
        var j := JudgmentOf(judgments, ranking[i]);
        assert judgments[j] in judgments;
      }
    }
    forall id | id in RelevantIds(relevance)
      ensures id in JudgedRelevant(judgments)
    {
      var j := JudgmentOf(judgments, id);
      assert judgments[j] in judgments;
    }
  }

  lemma FirstHit(grades: seq<nat>, hits: set<nat>, i: nat)
    requires hits == set j: nat | j < |grades| && grades[j] > 0
    requires i in hits && forall j :: j in hits ==> i <= j
    ensures FirstRelevant(grades) == i
  {
    var first := FirstRelevant(grades);
    assert first < |grades| ==> first in hits;
  }

  // How often a whole contains a part.
  ghost predicate IsQuotient(x: real, part: nat, whole: nat) {
    whole > 0 && x * whole as real == part as real
  }

  lemma QuotientIs(part: nat, whole: nat)
    requires whole > 0
    ensures IsQuotient(part as real / whole as real, part, whole)
  {
    QuotientTimes(part as real, whole as real);
  }

  lemma RetrievedAreHits(judgments: seq<Judgment>, ranking: seq<RecordId>, k: nat)
    requires DistinctJudgments(judgments)
    ensures Relevant(RankedGrades(judgments, ranking, k)) == |HitsOf(judgments, ranking, k)|
    ensures |RelevantIds(Relevance(judgments))| == |JudgedRelevant(judgments)|
  {
    GradesOfHits(judgments, ranking, k);
    RelevantCounts(RankedGrades(judgments, ranking, k));
  }

  // Precision is the share of hits among k, recall their share of the records judged relevant.
  lemma PrecisionAndRecallMean(judgments: seq<Judgment>, ranking: seq<RecordId>, k: nat, d: Discount)
    requires k > 0 && DistinctJudgments(judgments)
    ensures var m, hits := MetricsAtK(judgments, ranking, k, d).value, |HitsOf(judgments, ranking, k)|;
            var relevant := |JudgedRelevant(judgments)|;
            && IsQuotient(m.precision, hits, k)
            && (if relevant == 0 then m.recall == 1.0 else IsQuotient(m.recall, hits, relevant))
  {
    RetrievedAreHits(judgments, ranking, k);
    QuotientIs(|HitsOf(judgments, ranking, k)|, k);
    if |JudgedRelevant(judgments)| > 0 {
      QuotientIs(|HitsOf(judgments, ranking, k)|, |JudgedRelevant(judgments)|);
    }
  }

  lemma FirstHits(judgments: seq<Judgment>, ranking: seq<RecordId>, k: nat)
    requires DistinctJudgments(judgments)
    ensures var first, hits := FirstRelevant(RankedGrades(judgments, ranking, k)), HitsOf(judgments, ranking, k);
            && (hits == {} <==> first == |RankedGrades(judgments, ranking, k)|)
            && forall i :: i in hits && (forall j :: j in hits ==> i <= j) ==> first == i
  {
    var grades, hits := RankedGrades(judgments, ranking, k), HitsOf(judgments, ranking, k);
    GradesOfHits(judgments, ranking, k);
    forall i | i in hits && forall j :: j in hits ==> i <= j
      ensures FirstRelevant(grades) == i
    {
      FirstHit(grades, hits, i);
    }
    assert FirstRelevant(grades) < |grades| ==> FirstRelevant(grades) in hits;
  }

  // The hit rate tells whether there is a hit, the reciprocal rank where the first one is.
  lemma HitRateAndRankMean(judgments: seq<Judgment>, ranking: seq<RecordId>, k: nat, d: Discount)
    requires k > 0 && DistinctJudgments(judgments)
    ensures var m, hits := MetricsAtK(judgments, ranking, k, d).value, HitsOf(judgments, ranking, k);
            && m.hitRate == (if hits != {} then 1.0 else 0.0)
            && (hits == {} ==> m.mrr == 0.0)
            && (forall i :: i in hits && (forall j :: j in hits ==> i <= j) ==> m.mrr == 1.0 / (i + 1) as real)
  {
    RetrievedAreHits(judgments, ranking, k);
    FirstHits(judgments, ranking, k);
    NoHits(HitsOf(judgments, ranking, k));
    MrrIs(judgments, ranking, k, d);
  }

  lemma NoHits(hits: set<nat>)
    ensures |hits| == 0 <==> hits == {}
  {
  }

  lemma MrrIs(judgments: seq<Judgment>, ranking: seq<RecordId>, k: nat, d: Discount)
    requires k > 0
    ensures var m, grades := MetricsAtK(judgments, ranking, k, d).value, RankedGrades(judgments, ranking, k);
            m.mrr == if FirstRelevant(grades) < |grades| then 1.0 / (FirstRelevant(grades) + 1) as real else 0.0
  {
  }

  // The grade at a position is what the record there was judged, and nothing if it was not.
  lemma RankedGradesMean(judgments: seq<Judgment>, ranking: seq<RecordId>, k: nat, i: nat)
    requires DistinctJudgments(judgments)
    ensures var grades := RankedGrades(judgments, ranking, k);
            && |grades| == (if |ranking| <= k then |ranking| else k)
            && (i < |grades| ==>
                  && (forall j :: j in judgments && j.record == ranking[i] ==> grades[i] == j.relevance)
                  && ((forall j :: j in judgments ==> j.record != ranking[i]) ==> grades[i] == 0))
  {
    RelevanceOfJudged(judgments);
  }

  // nDCG compares two sums of discounted gains: of the grades as ranked, and of the k largest.
  lemma NdcgMeans(judgments: seq<Judgment>, ranking: seq<RecordId>, k: nat, d: Discount)
    requires k > 0
    ensures var ndcg := MetricsAtK(judgments, ranking, k, d).value.ndcg;
            var dcg, ideal := Dcg(RankedGrades(judgments, ranking, k), d), Dcg(Ideal(judgments, k), d);
            if ideal > 0.0 then ndcg * ideal == dcg else ndcg == 1.0
  {
    var ideal := Dcg(Ideal(judgments, k), d);
    if ideal > 0.0 {
      QuotientTimes(Dcg(RankedGrades(judgments, ranking, k), d), ideal);
    }
  }

  lemma DcgMeans(grades: seq<nat>, next: nat, d: Discount)
    ensures Dcg([], d) == 0.0
    ensures Dcg(grades + [next], d) == Dcg(grades, d) + d(Gain(next), |grades|)
    ensures Gain(0) == 0.0 && Gain(next + 1) == 2.0 * Gain(next) + 1.0
  {
    assert (grades + [next])[..|grades|] == grades;
    assert Pow2(next + 1) == 2.0 * Pow2(next);
  }

  lemma IdealMeans(judgments: seq<Judgment>, k: nat) returns (sorted: seq<nat>)
    ensures multiset(sorted) == multiset(JudgedGrades(judgments)) && Descending(sorted)
    ensures Ideal(judgments, k) == if |sorted| <= k then sorted else sorted[..k]
  {
    sorted := SortDescending(JudgedGrades(judgments));
  }

  // ---------------------------------------------------------------- rankings with repeats

  lemma RecallBounded(judgments: seq<Judgment>, ranking: seq<RecordId>, k: nat, d: Discount)
    requires k > 0 && NoRepeats(TopK(ranking, k)) && DistinctJudgments(judgments)
    ensures MetricsAtK(judgments, ranking, k, d).value.recall <= 1.0
  {
    RetrievedAtMostRelevant(judgments, ranking, k);
    var total := |RelevantIds(Relevance(judgments))|;
    if total > 0 {
      Proportion(Relevant(RankedGrades(judgments, ranking, k)) as real, total as real);
    }
  }

  lemma RelevanceOfOne(id: RecordId)
    ensures DistinctJudgments([Judgment(id, 1)]) && Relevance([Judgment(id, 1)]) == map[id := 1]
    ensures RelevantIds(map[id := 1]) == {id}
  {
    assert [Judgment(id, 1)][..0] == [];
  }

  // Whoever judges only a repeated record relevant finds it more than once.
  lemma RecallExceeded(ranking: seq<RecordId>, k: nat, d: Discount) returns (judgments: seq<Judgment>)
    requires k > 0 && !NoRepeats(TopK(ranking, k))
    ensures DistinctJudgments(judgments) && MetricsAtK(judgments, ranking, k, d).value.recall > 1.0
  {
    var ranked := TopK(ranking, k);
    var i, j :| 0 <= i < j < |ranked| && ranked[i] == ranked[j];
    judgments := [Judgment(ranked[i], 1)];
    RelevanceOfOne(ranked[i]);
    RepeatsCountTwice(Grades(ranked, Relevance(judgments)), i, j);
    RecallOverOne(judgments, ranking, k, d);
  }

  lemma RecallOverOne(judgments: seq<Judgment>, ranking: seq<RecordId>, k: nat, d: Discount)
    requires k > 0 && |RelevantIds(Relevance(judgments))| == 1
    ensures MetricsAtK(judgments, ranking, k, d).value.recall
            == Relevant(Grades(TopK(ranking, k), Relevance(judgments))) as real
  {
  }

  // Nothing rejects a ranking that lists a record twice. Recall stays at most 1 under every set of
  // judgments exactly when the first k records do not repeat.
  lemma RecallBoundedIff(ranking: seq<RecordId>, k: nat, d: Discount)
    requires k > 0
    ensures NoRepeats(TopK(ranking, k)) <==>
            forall judgments :: DistinctJudgments(judgments) ==>
              MetricsAtK(judgments, ranking, k, d).value.recall <= 1.0
  {
    if NoRepeats(TopK(ranking, k)) {
      forall judgments | DistinctJudgments(judgments)
        ensures MetricsAtK(judgments, ranking, k, d).value.recall <= 1.0
      {
        RecallBounded(judgments, ranking, k, d);
      }
    } else {
      var judgments := RecallExceeded(ranking, k, d);
    }
  }

  // One judgment of grade 1 for each record of a list.
  function JudgeAll(ids: seq<RecordId>): (judgments: seq<Judgment>)
    ensures forall i :: 0 <= i < |judgments| ==> judgments[i].relevance == 1
  {
    if ids == [] then []
    else
      var before, last := JudgeAll(ids[..|ids| - 1]), ids[|ids| - 1];
      if Judgment(last, 1) in before then before else before + [Judgment(last, 1)]
  }

  lemma {:induction false} JudgeAllIs(ids: seq<RecordId>)
    ensures DistinctJudgments(JudgeAll(ids)) && |JudgeAll(ids)| <= |ids|
    ensures forall i :: 0 <= i < |ids| ==> Judgment(ids[i], 1) in JudgeAll(ids)
    ensures forall j :: j in JudgeAll(ids) ==> j.record in ids
    ensures ids != [] ==> JudgeAll(ids) != []
  {
    if ids != [] {
      var init, last := ids[..|ids| - 1], ids[|ids| - 1];
      JudgeAllIs(init);
      assert ids == init + [last];
      var before := JudgeAll(init);
      if Judgment(last, 1) !in before {
        assert forall i :: 0 <= i < |before| ==> before[i] in before && before[i] == Judgment(before[i].record, 1);
      }
    }
  }

  lemma {:induction false} RepeatsAreJudgedOnce(ids: seq<RecordId>, i: nat, j: nat)
    requires i < j < |ids| && ids[i] == ids[j]
    ensures |JudgeAll(ids)| < |ids|
  {
    var init := ids[..|ids| - 1];
    JudgeAllIs(init);
    if j < |init| {
      RepeatsAreJudgedOnce(init, i, j);
    } else {
      assert Judgment(init[i], 1) in JudgeAll(init);
    }
  }

  predicate AllOnes(grades: seq<nat>) {
    forall i :: 0 <= i < |grades| ==> grades[i] == 1
  }

  lemma {:induction false} MoreOnesGainMore(a: seq<nat>, b: seq<nat>, d: Discount)
    requires StrictlyDiscounting(d) && AllOnes(a) && AllOnes(b) && |a| < |b|
    ensures Dcg(a, d) < Dcg(b, d)
    decreases |b|
  {
    var n := |b| - 1;
    assert FallsStrictlyAt(d, Gain(b[n]), n, n + 1);
    if |a| < n {
      MoreOnesGainMore(a, b[..n], d);
    } else {
      assert a == b[..n];
    }
  }

  lemma SortedOnes(grades: seq<nat>)
    requires AllOnes(grades)
    ensures AllOnes(SortDescending(grades))
  {
    var sorted := SortDescending(grades);
    forall i | 0 <= i < |sorted|
      ensures sorted[i] == 1
    {
      assert sorted[i] in multiset(sorted);
      assert sorted[i] in multiset(grades);
    }
  }

  lemma JudgedAllGrades(ids: seq<RecordId>)
    ensures AllOnes(Grades(ids, Relevance(JudgeAll(ids))))
  {
    var judgments := JudgeAll(ids);
    JudgeAllIs(ids);
    RelevanceOfJudged(judgments);
    forall i | 0 <= i < |ids|
      ensures Grade(Relevance(judgments), ids[i]) == 1
    {
      assert Judgment(ids[i], 1) in judgments;
      var j :| 0 <= j < |judgments| && judgments[j] == Judgment(ids[i], 1);
    }
  }

  lemma MoreThanWhole(part: real, whole: real)
    requires part > whole > 0.0
    ensures part / whole > 1.0
  {
    QuotientTimes(part, whole);
    ProductOrder(whole, 1.0, part / whole);
  }

  // Whoever judges all of these records alike finds more than the ideal ranking of these judgments.
  lemma NdcgExceeded(ranking: seq<RecordId>, k: nat, d: Discount) returns (judgments: seq<Judgment>)
    requires StrictlyDiscounting(d) && k > 0 && !NoRepeats(TopK(ranking, k))
    ensures DistinctJudgments(judgments) && MetricsAtK(judgments, ranking, k, d).value.ndcg > 1.0
  {
    var ranked := TopK(ranking, k);
    var i, j :| 0 <= i < j < |ranked| && ranked[i] == ranked[j];
    judgments := JudgeAll(ranked);
    JudgeAllIs(ranked);
    RepeatsAreJudgedOnce(ranked, i, j);
    JudgedAllGrades(ranked);
    SortedOnes(JudgedGrades(judgments));
    var grades, ideal := RankedGrades(judgments, ranking, k), Ideal(judgments, k);
    MoreOnesGainMore(ideal, grades, d);
    MoreOnesGainMore([], ideal, d);
    MoreThanWhole(Dcg(grades, d), Dcg(ideal, d));
  }

  // The same for nDCG.
  lemma NdcgBoundedIff(ranking: seq<RecordId>, k: nat, d: Discount)
    requires StrictlyDiscounting(d) && k > 0
    ensures NoRepeats(TopK(ranking, k)) <==>
            forall judgments :: DistinctJudgments(judgments) ==> MetricsAtK(judgments, ranking, k, d).value.ndcg <= 1.0
  {
    if NoRepeats(TopK(ranking, k)) {
      forall judgments | DistinctJudgments(judgments)
        ensures MetricsAtK(judgments, ranking, k, d).value.ndcg <= 1.0
      {
        NdcgAtMostOne(judgments, ranking, k, d);
      }
    } else {
      var judgments := NdcgExceeded(ranking, k, d);
    }
  }

  lemma {:induction false} RepeatsCountTwice(grades: seq<nat>, i: nat, j: nat)
    requires i < j < |grades| && grades[i] > 0 && grades[j] > 0
    ensures Relevant(grades) >= 2
  {
    var init := grades[..|grades| - 1];
    if j < |init| {
      RepeatsCountTwice(init, i, j);
    } else {
      CountsOnce(init, i);
    }
  }

  lemma {:induction false} CountsOnce(grades: seq<nat>, i: nat)
    requires i < |grades| && grades[i] > 0
    ensures Relevant(grades) >= 1
  {
    if i < |grades| - 1 {
      CountsOnce(grades[..|grades| - 1], i);
    }
  }
}
