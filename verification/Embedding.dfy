/** Asking an embedding provider for vectors: batches that finish in any order, retries, and
    responses whose items arrive in any order (crates/ketebe-server/src/embedding.rs). */
module Embedding {
  import opened Wrappers
  import opened Collections

  datatype ProviderError = Retryable | NonRetryable | WrongCount | IndexMismatch

  // ---------------------------------------------------------------- one response

  datatype Item<V> = Item(index: nat, embedding: V)

  predicate Sorted<V>(items: seq<Item<V>>) {
    forall i, j :: 0 <= i < j < |items| ==> items[i].index <= items[j].index
  }

  // Insertion of `item` behind the items with the same index.
  function Place<V>(item: Item<V>, sorted: seq<Item<V>>): (r: seq<Item<V>>)
    ensures multiset(r) == multiset(sorted) + multiset{item}
  {
    if sorted == [] then [item]
    else
      var init, last := sorted[..|sorted| - 1], sorted[|sorted| - 1];
      assert sorted == init + [last];
      if last.index <= item.index then sorted + [item] else Place(item, init) + [last]
  }

  lemma PlacedAreBelow<V>(item: Item<V>, items: seq<Item<V>>, bound: nat)
    requires item.index <= bound && forall i :: 0 <= i < |items| ==> items[i].index <= bound
    ensures forall i :: 0 <= i < |Place(item, items)| ==> Place(item, items)[i].index <= bound
  {
    var placed := Place(item, items);
    forall i | 0 <= i < |placed|
      ensures placed[i].index <= bound
    {
      assert placed[i] in multiset(placed);
      assert placed[i] in items || placed[i] == item;
    }
  }

  lemma {:induction false} PlaceSorts<V>(item: Item<V>, sorted: seq<Item<V>>)
    requires Sorted(sorted)
    ensures Sorted(Place(item, sorted))
  {
    if sorted != [] {
      var init, last := sorted[..|sorted| - 1], sorted[|sorted| - 1];
      if last.index > item.index {
        PlaceSorts(item, init);
        PlacedAreBelow(item, init, last.index);
      }
    }
  }

  function SortByIndex<V>(items: seq<Item<V>>): (r: seq<Item<V>>)
    ensures Sorted(r) && multiset(r) == multiset(items)
  {
    if items == [] then []
    else
      var init, last := items[..|items| - 1], items[|items| - 1];
      assert items == init + [last];
      PlaceSorts(last, SortByIndex(init));
      Place(last, SortByIndex(init))
  }

  // Every input has exactly one item.
  ghost predicate Complete<V>(items: seq<Item<V>>, n: nat) {
    && |items| == n
    && (forall x :: x in items ==> x.index < n)
    && (forall i, j :: 0 <= i < j < |items| ==> items[i].index != items[j].index)
  }

  // The vectors of a response in the order of its inputs.
  method OrderResponse<V>(items: seq<Item<V>>, n: nat) returns (r: Result<seq<V>, ProviderError>)
    ensures r.Ok? <==> Complete(items, n)
    ensures r.Ok? ==> |r.value| == n && forall x :: x in items ==> r.value[x.index] == x.embedding
    ensures r == Err(WrongCount) <==> |items| != n
  {
    if |items| != n { return Err(WrongCount); }
    var data := SortByIndex(items);
    assert |data| == |multiset(data)| == |multiset(items)| == n;
    var vectors := [];
    for i := 0 to n
      invariant |vectors| == i
      invariant forall k :: 0 <= k < i ==> data[k].index == k && vectors[k] == data[k].embedding
    {
      if data[i].index != i {
        if Complete(items, n) {
          SortedIsComplete(items, n);
        }
        return Err(IndexMismatch);
      }
      vectors := vectors + [data[i].embedding];
    }
    CountedIsComplete(items, data, n);
    forall x | x in items
      ensures x.index < n && vectors[x.index] == x.embedding
    {
      assert x in multiset(items);
      assert x in data;
    }
    r := Ok(vectors);
  }

  // Distinct indices below `n`, `n` of them, are 0, 1, ... when sorted.
  lemma SortedIsComplete<V>(items: seq<Item<V>>, n: nat)
    requires Complete(items, n)
    ensures var data := SortByIndex(items); |data| == n && forall i :: 0 <= i < n ==> data[i].index == i
  {
    var data := SortByIndex(items);
    assert |data| == |multiset(data)| == n;
    forall i, j | 0 <= i < j < n
      ensures data[i].index < data[j].index
    {
      if data[i].index == data[j].index {
        NoTwice(items, data, i, j);
      }
    }
    forall i | 0 <= i < n
      ensures data[i].index < n
    {
      assert data[i] in multiset(data);
      assert data[i] in items;
    }
    forall i | 0 <= i < n
      ensures data[i].index == i
    {
      AtLeast(data, i);
      AtMost(data, n, i);
    }
  }

  lemma {:induction false} AtLeast<V>(data: seq<Item<V>>, i: nat)
    requires i < |data| && forall j, k :: 0 <= j < k < |data| ==> data[j].index < data[k].index
    ensures data[i].index >= i
  {
    if i > 0 { AtLeast(data, i - 1); }
  }

  lemma {:induction false} AtMost<V>(data: seq<Item<V>>, n: nat, i: nat)
    requires i < |data| == n && forall j, k :: 0 <= j < k < |data| ==> data[j].index < data[k].index
    requires forall j :: 0 <= j < n ==> data[j].index < n
    ensures data[i].index <= i
    decreases n - i
  {
    if i + 1 < n { AtMost(data, n, i + 1); }
  }

  // A rearrangement of items with distinct indices has distinct indices.
  lemma NoTwice<V>(items: seq<Item<V>>, data: seq<Item<V>>, i: nat, j: nat)
    requires multiset(items) == multiset(data)
    requires forall k, l :: 0 <= k < l < |items| ==> items[k].index != items[l].index
    requires i < j < |data|
    ensures data[i].index != data[j].index
  {
    if data[i].index == data[j].index {
      var x, y := data[i], data[j];
      assert x in multiset(items) && y in multiset(items);
      var k :| 0 <= k < |items| && items[k] == x;
      var l :| 0 <= l < |items| && items[l] == y;
      assert k == l && x == y;
      Twice(data, i, j);
      OnlyOnce(items, k);
    }
  }

  lemma Twice<T>(s: seq<T>, i: nat, j: nat)
    requires i < j < |s| && s[i] == s[j]
    ensures multiset(s)[s[i]] >= 2
  {
    assert s == s[..j] + [s[j]] + s[j + 1..];
    assert s[..j][i] == s[i] && s[i] in multiset(s[..j]);
  }

  lemma OnlyOnce<T>(s: seq<T>, k: nat)
    requires k < |s| && forall j :: 0 <= j < |s| && j != k ==> s[j] != s[k]
    ensures multiset(s)[s[k]] == 1
  {
    assert s == s[..k] + [s[k]] + s[k + 1..];
    assert s[k] !in s[..k] && s[k] !in s[k + 1..];
    assert s[k] !in multiset(s[..k]) && s[k] !in multiset(s[k + 1..]);
  }

  lemma CountedIsComplete<V>(items: seq<Item<V>>, data: seq<Item<V>>, n: nat)
    requires multiset(items) == multiset(data) && |items| == |data| == n
    requires forall k :: 0 <= k < n ==> data[k].index == k
    ensures Complete(items, n)
  {
    forall x | x in items
      ensures x.index < n
    {
      assert x in multiset(data);
    }
    forall i, j | 0 <= i < j < n
      ensures items[i].index != items[j].index
    {
      NoTwice(data, items, i, j);
    }
  }

  // ---------------------------------------------------------------- retries

  // Keeps asking until there is an answer, or an error that retrying cannot mend, or the retries are
  // used up. `answers(i)` is what the provider says to request `i`.
  method RequestBatch<T>(answers: nat -> Result<T, ProviderError>, maxRetries: nat)
    returns (r: Result<T, ProviderError>, requests: nat)
    ensures 1 <= requests <= maxRetries + 1
    ensures r == answers(requests - 1)
    ensures r.Ok? || r.error == NonRetryable || requests == maxRetries + 1
    ensures forall i: nat :: i < requests - 1 ==> answers(i).Err? && answers(i).error != NonRetryable
  {
    var attempt := 0;
    while true
      invariant attempt <= maxRetries
      invariant forall i: nat :: i < attempt ==> answers(i).Err? && answers(i).error != NonRetryable
      decreases maxRetries - attempt
    {
      var answer := answers(attempt);
      if answer.Ok? { return answer, attempt + 1; }
      if attempt >= maxRetries { return answer, attempt + 1; }
      attempt := attempt + 1;
      if answer.error == NonRetryable { return answer, attempt; }
    }
  }

  // ---------------------------------------------------------------- batches

  function Flatten<T>(parts: seq<seq<T>>): seq<T> {
    if parts == [] then [] else Flatten(parts[..|parts| - 1]) + parts[|parts| - 1]
  }

  // The consecutive batches of `size` texts, the last one possibly smaller.
  method SplitBatches(texts: seq<string>, size: nat) returns (batches: seq<seq<string>>)
    requires size > 0
    ensures Flatten(batches) == texts
    ensures forall b :: b in batches ==> 0 < |b| <= size
    ensures forall b :: 0 <= b < |batches| - 1 ==> |batches[b]| == size
  {
    batches := [];
    var i := 0;
    while i < |texts|
      invariant i <= |texts| && Flatten(batches) == texts[..i]
      invariant forall b :: b in batches ==> 0 < |b| <= size
      invariant i < |texts| ==> forall b :: 0 <= b < |batches| ==> |batches[b]| == size
      invariant forall b :: 0 <= b < |batches| - 1 ==> |batches[b]| == size
    {
      var end := if i + size <= |texts| then i + size else |texts|;
      assert (batches + [texts[i..end]])[..|batches|] == batches;
      batches, i := batches + [texts[i..end]], end;
    }
  }

  // A provider answers with the vectors of the texts, or, unless it is healthy, with a wrong number
  // of vectors or not at all.
  method EmbedBatch<V>(texts: seq<string>, embed: string -> V, healthy: bool)
    returns (r: Result<seq<V>, ProviderError>)
    ensures r.Ok? && |r.value| == |texts| ==> r.value == Mapped(texts, embed)
    ensures healthy ==> r == Ok(Mapped(texts, embed))
  {
    var answered: bool, garbage: seq<V> := *, *;
    if healthy || |garbage| == |texts| { return Ok(Mapped(texts, embed)); }
    r := if answered then Ok(garbage) else Err(Retryable);
  }

  // A batch counts only if there is a vector for each of its texts.
  method EmbedWhole<V>(texts: seq<string>, embed: string -> V, healthy: bool) returns (r: Result<seq<V>, ProviderError>)
    ensures r.Ok? ==> r.value == Mapped(texts, embed)
    ensures healthy ==> r.Ok?
  {
    r := EmbedBatch(texts, embed, healthy);
    if r.Ok? && |r.value| != |texts| { return Err(WrongCount); }
  }

  lemma {:induction false} MappedInParts<V>(parts: seq<seq<string>>, vectors: seq<seq<V>>, embed: string -> V)
    requires |parts| == |vectors|
    requires forall b :: 0 <= b < |parts| ==> vectors[b] == Mapped(parts[b], embed)
    ensures Flatten(vectors) == Mapped(Flatten(parts), embed)
  {
    if parts != [] {
      var n := |parts| - 1;
      MappedInParts(parts[..n], vectors[..n], embed);
    }
  }

  // The batches that have finished have their vectors.
  ghost predicate Filled<V>(slots: seq<Option<seq<V>>>, parts: seq<seq<string>>, unfinished: set<nat>,
                            embed: string -> V)
  {
    && |slots| == |parts|
    && forall b :: 0 <= b < |parts| && b !in unfinished ==> slots[b] == Some(Mapped(parts[b], embed))
  }

  // Each of these batches was sent once.
  ghost predicate SentOnce(asked: multiset<nat>, batches: set<nat>) {
    (forall b :: b in asked <==> b in batches) && (forall b :: b in asked ==> asked[b] == 1)
  }

  // What has been sent are the batches that no longer wait; some of these are still running.
  ghost predicate Scheduled(waiting: set<nat>, running: set<nat>, sent: set<nat>, n: nat) {
    waiting + sent == UpTo(n) && waiting !! sent && running <= sent
  }

  lemma Starts(waiting: set<nat>, running: set<nat>, sent: set<nat>, asked: multiset<nat>, n: nat, b: nat)
    requires Scheduled(waiting, running, sent, n) && SentOnce(asked, sent) && b in waiting
    ensures Scheduled(waiting - {b}, running + {b}, sent + {b}, n)
    ensures SentOnce(asked + multiset{b}, sent + {b}) && |running + {b}| == |running| + 1
    ensures waiting - {b} + (running + {b}) == waiting + running
  {
  }

  lemma AllFinished<V>(slots: seq<Option<seq<V>>>, parts: seq<seq<string>>, waiting: set<nat>, running: set<nat>,
                       embed: string -> V)
    requires waiting == {} && running == {} && Filled(slots, parts, waiting + running, embed)
    ensures Filled(slots, parts, {}, embed)
  {
  }

  lemma Finishes<V>(slots: seq<Option<seq<V>>>, parts: seq<seq<string>>, waiting: set<nat>, running: set<nat>,
                    sent: set<nat>, embed: string -> V, b: nat)
    requires Scheduled(waiting, running, sent, |parts|) && b in running
    requires Filled(slots, parts, waiting + running, embed)
    ensures b < |parts| && |running - {b}| < |running|
    ensures Filled(slots[b := Some(Mapped(parts[b], embed))], parts, waiting + (running - {b}), embed)
  {
    assert b in UpTo(|parts|);
  }

  // The batches run at the same time, as many as there are permits, and start and finish in any order.
  // `asked` counts how often each of them went to the provider; when one fails, others may have too.
  method RunBatches<V>(parts: seq<seq<string>>, permits: nat, embed: string -> V, healthy: bool)
    returns (r: Result<seq<seq<V>>, ProviderError>, ghost sent: set<nat>, ghost asked: multiset<nat>)
    requires permits > 0
    ensures r.Ok? ==> |r.value| == |parts| && forall b :: 0 <= b < |parts| ==> r.value[b] == Mapped(parts[b], embed)
    ensures healthy ==> r.Ok?
    ensures sent <= UpTo(|parts|) && SentOnce(asked, sent) && (r.Ok? ==> sent == UpTo(|parts|))
  {
    sent, asked := {}, multiset{};
    var slots: seq<Option<seq<V>>> := seq(|parts|, _ => None);
    var waiting, running := UpTo(|parts|), {};
    while waiting != {} || running != {}
      invariant Scheduled(waiting, running, sent, |parts|) && |running| <= permits
      invariant Filled(slots, parts, waiting + running, embed) && SentOnce(asked, sent)
      decreases waiting, running
    {
      var begins: bool := *;
      if waiting != {} && |running| < permits && (begins || running == {}) {
        var started :| started in waiting;
        Starts(waiting, running, sent, asked, |parts|, started);
        waiting, running := waiting - {started}, running + {started};
        asked, sent := asked + multiset{started}, sent + {started};
      } else {
        var finished :| finished in running;
        Finishes(slots, parts, waiting, running, sent, embed, finished);
        var vectors := EmbedWhole(parts[finished], embed, healthy);
        if vectors.Err? { return Err(vectors.error), sent, asked; }
        slots := slots[finished := Some(vectors.value)];
        running := running - {finished};
      }
    }
    AllFinished(slots, parts, waiting, running, embed);
    r := Ok(Vectors(slots, parts, embed));
  }

  function Vectors<V>(slots: seq<Option<seq<V>>>, parts: seq<seq<string>>, embed: string -> V): (vectors: seq<seq<V>>)
    requires Filled(slots, parts, {}, embed)
    ensures |vectors| == |parts| && forall b :: 0 <= b < |parts| ==> vectors[b] == Mapped(parts[b], embed)
  {
    seq(|slots|, b requires 0 <= b < |slots| && slots[b].Some? => slots[b].value)
  }

  // The vectors come back in the order of the texts, in whatever order the batches finish.
  method EmbedTextsBatched<V>(texts: seq<string>, maxBatchInputs: nat, embed: string -> V, healthy: bool)
    returns (r: Result<seq<V>, ProviderError>, ghost batches: seq<seq<string>>, ghost sent: set<nat>,
             ghost asked: multiset<nat>)
    ensures r.Ok? ==> r.value == Mapped(texts, embed)
    ensures healthy || texts == [] ==> r.Ok?
    ensures Flatten(batches) == texts && forall b :: b in batches ==> 0 < |b| && (|b| == 1 || |b| <= maxBatchInputs)
    ensures forall b :: 0 <= b < |batches| - 1 ==> |batches[b]| == if maxBatchInputs == 0 then 1 else maxBatchInputs
    ensures sent <= UpTo(|batches|) && SentOnce(asked, sent) && (r.Ok? ==> sent == UpTo(|batches|))
  {
    batches, sent, asked := [], {}, multiset{};
    if texts == [] { return Ok([]), batches, sent, asked; }
    var parts := SplitBatches(texts, if maxBatchInputs > 1 then maxBatchInputs else 1);
    batches := parts;
    var found;
    var permits: nat := *;
    found, sent, asked := RunBatches(parts, if permits > 0 then permits else 1, embed, healthy);
    if found.Err? { return Err(found.error), batches, sent, asked; }
    MappedInParts(parts, found.value, embed);
    r := Ok(Flatten(found.value));
  }
}
