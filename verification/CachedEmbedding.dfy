/** The cache object and the embedding of many texts through it
    (crates/ketebe-server/src/embedding_cache.rs). */
module CachedEmbedding {
  import opened Wrappers
  import opened Collections
  import opened EmbeddingCache
  import opened Embedding

  lemma {:induction false} WithoutFirst<K>(order: seq<K>, k: K, p: nat)
    requires p < |order| && order[p] == k && k !in order[..p]
    ensures Without(order, k) == order[..p] + order[p + 1..]
  {
    if p > 0 {
      assert order[0] in order[..p];
      assert order[1..][..p - 1] == order[..p][1..];
      WithoutFirst(order[1..], k, p - 1);
      assert order[..p] == [order[0]] + order[1..][..p - 1];
    }
  }

  class Cache<K(!new, ==), V> {
    const capacity: nat
    var entries: map<K, V>
    var order: seq<K>

    ghost function Contents(): Lru<K, V>
      reads this
    {
      Lru(entries, order)
    }

    ghost predicate Valid()
      reads this
    {
      Consistent(Contents(), capacity)
    }

    constructor (capacity: nat)
      ensures Valid() && Contents() == Lru(map[], []) && this.capacity == capacity
    {
      this.capacity, this.entries, this.order := capacity, map[], [];
    }

    // Moves a key to the back of the deque.
    method Touch(key: K)
      modifies this`order
      ensures order == Touched(old(order), key)
    {
      var position := 0;
      while position < |order| && order[position] != key
        invariant position <= |order| && key !in order[..position] && order == old(order)
      {
        position := position + 1;
      }
      if position < |order| {
        WithoutFirst(order, key, position);
        order := order[..position] + order[position + 1..];
      } else {
        assert order[..|order|] == order;
        NotThere(order, key);
      }
      order := order + [key];
    }

    method Get(key: K) returns (vector: Option<V>)
      requires Valid()
      modifies this`order
      ensures Valid() && Contents() == AfterGet(old(Contents()), key)
      ensures vector == GetResult(old(Contents()), key)
    {
      GetKeepsConsistent(Contents(), capacity, key);
      if key !in entries { return None; }
      Touch(key);
      vector := Some(entries[key]);
    }

    // Drops the keys used least recently until there is room for one more.
    method MakeRoom()
      requires Valid() && capacity > 0
      modifies this`entries, this`order
      ensures |old(order)| < capacity ==> Contents() == old(Contents())
      ensures |old(order)| == capacity ==>
                entries == old(entries) - {old(order)[0]} && order == old(order)[1..]
    {
      SizeIsLength(Contents(), capacity);
      ghost var evictions := 0;
      while |entries| >= capacity && order != []
        invariant 0 <= evictions <= 1
        invariant evictions == 0 ==> entries == old(entries) && order == old(order)
        invariant evictions == 1 ==>
                    && |entries| == capacity - 1 && |old(order)| == capacity
                    && entries == old(entries) - {old(order)[0]} && order == old(order)[1..]
        decreases |order|
      {
        var evicted := order[0];
        order := order[1..];
        assert evicted in old(order);
        assert (entries - {evicted}).Keys == entries.Keys - {evicted};
        entries := entries - {evicted};
        evictions := evictions + 1;
      }
    }

    method Insert(key: K, vector: V)
      requires Valid()
      modifies this`entries, this`order
      ensures Valid() && Contents() == AfterInsert(old(Contents()), capacity, key, vector)
    {
      InsertKeepsConsistent(Contents(), capacity, key, vector);
      if capacity == 0 { return; }
      if key in entries {
        entries := entries[key := vector];
        Touch(key);
        return;
      }
      MakeRoom();
      entries := entries[key := vector];
      order := order + [key];
    }

    method Clear()
      modifies this`entries, this`order
      ensures Valid() && Contents() == Lru(map[], [])
    {
      entries, order := map[], [];
    }
  }

  // ---------------------------------------------------------------- a batch of texts

  // `v` is the vector of some text with the key `k`.
  ghost predicate IsVectorFor<K, V>(k: K, v: V, keyOf: string -> K, embed: string -> V) {
    exists t :: keyOf(t) == k && embed(t) == v
  }

  ghost predicate Correct<K(!new), V>(entries: map<K, V>, keyOf: string -> K, embed: string -> V) {
    forall k :: k in entries ==> IsVectorFor(k, entries[k], keyOf, embed)
  }

  function AfterGets<K(==), V>(c: Lru<K, V>, keys: seq<K>): (r: Lru<K, V>)
    ensures r.entries == c.entries
  {
    if keys == [] then c else AfterGet(AfterGets(c, keys[..|keys| - 1]), keys[|keys| - 1])
  }

  // The keys that are not in the cache, each once.
  function Misses<K(==), V>(keys: seq<K>, entries: map<K, V>): seq<K> {
    if keys == [] then []
    else
      var before, last := Misses(keys[..|keys| - 1], entries), keys[|keys| - 1];
      if last in entries || last in before then before else before + [last]
  }

  // The missing keys are those of the texts that are not in the cache, each once.
  lemma {:induction false} MissesAre<K(!new), V>(keys: seq<K>, entries: map<K, V>)
    ensures NoRepeats(Misses(keys, entries))
    ensures forall k :: k in Misses(keys, entries) <==> k in keys && k !in entries
  {
    if keys != [] {
      var init, last := keys[..|keys| - 1], keys[|keys| - 1];
      MissesAre(init, entries);
      assert keys == init + [last];
      if last !in entries && last !in Misses(init, entries) {
        NoRepeatsAppend(Misses(init, entries), last);
      }
    }
  }

  function AfterInserts<K(==), V>(c: Lru<K, V>, capacity: nat, keys: seq<K>, vectors: seq<V>): Lru<K, V>
    requires |keys| == |vectors|
  {
    if keys == [] then c
    else
      var n := |keys| - 1;
      AfterInsert(AfterInserts(c, capacity, keys[..n], vectors[..n]), capacity, keys[n], vectors[n])
  }

  // What other requests do to the shared cache in the meantime: any number of lookups, insertions of
  // vectors of their texts, and clearings; nothing if there are none.
  method OtherRequests<K(!new, ==), V>(cache: Cache<K, V>, keyOf: string -> K, embed: string -> V, alone: bool)
    requires cache.Valid() && Correct(cache.entries, keyOf, embed)
    modifies cache`entries, cache`order
    ensures cache.Valid() && Correct(cache.entries, keyOf, embed)
    ensures alone ==> cache.Contents() == old(cache.Contents())
  {
    if alone { return; }
    var count: int := *;
    for i := 0 to if count > 0 then count else 0
      invariant cache.Valid() && Correct(cache.entries, keyOf, embed)
    {
      var text: string, choice: nat := *, *;
      match choice % 3 {
        case 0 => var _ := cache.Get(keyOf(text));
        case 1 => StoreVector(cache, keyOf, embed, text);
        case _ => cache.Clear();
      }
    }
  }

  method StoreVector<K(!new, ==), V>(cache: Cache<K, V>, keyOf: string -> K, embed: string -> V, text: string)
    requires cache.Valid() && Correct(cache.entries, keyOf, embed)
    modifies cache`entries, cache`order
    ensures cache.Valid() && Correct(cache.entries, keyOf, embed)
    ensures cache.Contents() == AfterInsert(old(cache.Contents()), cache.capacity, keyOf(text), embed(text))
  {
    assert IsVectorFor(keyOf(text), embed(text), keyOf, embed);
    cache.Insert(keyOf(text), embed(text));
  }

  lemma NextKey<K>(texts: seq<string>, keyOf: string -> K, i: nat)
    requires i < |texts|
    ensures Mapped(texts[..i + 1], keyOf) == Mapped(texts[..i], keyOf) + [keyOf(texts[i])]
  {
  }

  // The texts sent to the provider stand for the missing keys.
  ghost predicate Pending<K(!new)>(misses: seq<(K, string)>, pending: map<K, nat>, keyOf: string -> K) {
    && (forall k :: k in pending ==> pending[k] < |misses| && misses[pending[k]].0 == k)
    && (forall m :: 0 <= m < |misses| ==> misses[m].0 == keyOf(misses[m].1) && misses[m].0 in pending
                                          && pending[misses[m].0] == m)
  }

  // A text either has its vector already or waits for one of the missing ones.
  ghost predicate Answered<K, V>(text: string, output: Option<V>, miss: Option<nat>, misses: seq<(K, string)>,
                                 keyOf: string -> K, embed: string -> V)
  {
    if output.Some? then miss == None && IsVectorFor(keyOf(text), output.value, keyOf, embed)
    else miss.Some? && miss.value < |misses| && misses[miss.value].0 == keyOf(text)
  }

  ghost predicate AllAnswered<K, V>(texts: seq<string>, output: seq<Option<V>>, outputToMiss: seq<Option<nat>>,
                                    misses: seq<(K, string)>, keyOf: string -> K, embed: string -> V)
  {
    && |output| == |outputToMiss| == |texts|
    && forall i :: 0 <= i < |texts| ==> Answered(texts[i], output[i], outputToMiss[i], misses, keyOf, embed)
  }

  // One text more, and possibly one missing key more.
  lemma OneMoreAnswered<K, V>(texts: seq<string>, i: nat, output: seq<Option<V>>, outputToMiss: seq<Option<nat>>,
                              vector: Option<V>, miss: Option<nat>, before: seq<(K, string)>,
                              after: seq<(K, string)>, keyOf: string -> K, embed: string -> V)
    requires i < |texts| && AllAnswered(texts[..i], output, outputToMiss, before, keyOf, embed)
    requires before <= after && Answered(texts[i], vector, miss, after, keyOf, embed)
    ensures AllAnswered(texts[..i + 1], output + [vector], outputToMiss + [miss], after, keyOf, embed)
  {
    forall j | 0 <= j < i + 1
      ensures Answered(texts[j], (output + [vector])[j], (outputToMiss + [miss])[j], after, keyOf, embed)
    {
      if j < i {
        assert Answered(texts[..i][j], output[j], outputToMiss[j], before, keyOf, embed);
      }
    }
  }

  // Looks up one text; a text that is missing is noted unless one with the same key already is.
  method LookUp<K(!new, ==), V>(cache: Cache<K, V>, text: string, keyOf: string -> K, embed: string -> V,
                                misses: seq<(K, string)>, waiting: map<K, nat>)
    returns (vector: Option<V>, miss: Option<nat>, newMisses: seq<(K, string)>, newWaiting: map<K, nat>)
    requires cache.Valid() && Correct(cache.entries, keyOf, embed) && Pending(misses, waiting, keyOf)
    modifies cache`order
    ensures cache.Valid() && cache.Contents() == AfterGet(old(cache.Contents()), keyOf(text))
    ensures Pending(newMisses, newWaiting, keyOf)
    ensures Answered(text, vector, miss, newMisses, keyOf, embed)
    ensures vector == GetResult(old(cache.Contents()), keyOf(text))
    ensures newMisses == if keyOf(text) in cache.entries || keyOf(text) in KeysOf(misses) then misses
                         else misses + [(keyOf(text), text)]
  {
    var key := keyOf(text);
    newMisses, newWaiting := misses, waiting;
    vector := cache.Get(key);
    if vector.Some? { return vector, None, newMisses, newWaiting; }
    if key in waiting {
      assert KeysOf(misses)[waiting[key]] == key;
    } else {
      assert key !in KeysOf(misses);
      newWaiting := waiting[key := |misses|];
      newMisses := misses + [(key, text)];
    }
    miss := Some(newWaiting[key]);
  }

  // The first of the texts with this key.
  function FirstWith<K(==)>(texts: seq<string>, k: K, keyOf: string -> K): (t: string)
    requires k in Mapped(texts, keyOf)
    ensures t in texts && keyOf(t) == k
  {
    var init, last := texts[..|texts| - 1], texts[|texts| - 1];
    NextKey(texts, keyOf, |texts| - 1);
    assert texts[..|texts|] == texts;
    if k in Mapped(init, keyOf) then FirstWith(init, k, keyOf) else last
  }

  lemma {:induction false} FirstWithIs<K>(texts: seq<string>, k: K, keyOf: string -> K, i: nat)
    requires i < |texts| && keyOf(texts[i]) == k && forall j :: 0 <= j < i ==> keyOf(texts[j]) != k
    ensures k in Mapped(texts, keyOf) && FirstWith(texts, k, keyOf) == texts[i]
  {
    assert Mapped(texts, keyOf)[i] == k;
    var init := texts[..|texts| - 1];
    if i < |init| {
      FirstWithIs(init, k, keyOf, i);
    }
  }

  // What the first pass found in a cache that nobody else used.
  ghost predicate Found<K(!new), V>(texts: seq<string>, output: seq<Option<V>>, keyOf: string -> K,
                                    entries: map<K, V>)
  {
    && |output| == |texts|
    && forall i :: 0 <= i < |texts| ==>
         output[i] == if keyOf(texts[i]) in entries then Some(entries[keyOf(texts[i])]) else None
  }

  // Each missing key comes with the first text that has it.
  ghost predicate FirstOnes<K>(texts: seq<string>, misses: seq<(K, string)>, keyOf: string -> K) {
    forall m :: 0 <= m < |misses| ==>
      misses[m].0 in Mapped(texts, keyOf) && misses[m].1 == FirstWith(texts, misses[m].0, keyOf)
  }

  lemma FirstWithMore<K>(texts: seq<string>, i: nat, k: K, keyOf: string -> K)
    requires i < |texts|
    ensures Mapped(texts[..i + 1], keyOf) == Mapped(texts[..i], keyOf) + [keyOf(texts[i])]
    ensures k in Mapped(texts[..i], keyOf) ==> FirstWith(texts[..i + 1], k, keyOf) == FirstWith(texts[..i], k, keyOf)
    ensures k !in Mapped(texts[..i], keyOf) && k == keyOf(texts[i]) ==> FirstWith(texts[..i + 1], k, keyOf) == texts[i]
  {
    var some := texts[..i + 1];
    assert some[..|some| - 1] == texts[..i];
    NextKey(texts, keyOf, i);
  }

  lemma FirstOnesMore<K(!new), V>(texts: seq<string>, i: nat, before: seq<(K, string)>, after: seq<(K, string)>,
                                  keyOf: string -> K, entries: map<K, V>)
    requires i < |texts| && FirstOnes(texts[..i], before, keyOf)
    requires KeysOf(before) == Misses(Mapped(texts[..i], keyOf), entries)
    requires after == if keyOf(texts[i]) in entries || keyOf(texts[i]) in KeysOf(before) then before
                      else before + [(keyOf(texts[i]), texts[i])]
    ensures FirstOnes(texts[..i + 1], after, keyOf)
  {
    MissesAre(Mapped(texts[..i], keyOf), entries);
    forall m | 0 <= m < |after|
      ensures after[m].0 in Mapped(texts[..i + 1], keyOf)
      ensures after[m].1 == FirstWith(texts[..i + 1], after[m].0, keyOf)
    {
      FirstWithMore(texts, i, after[m].0, keyOf);
    }
  }

  lemma NextMiss<K, V>(texts: seq<string>, keyOf: string -> K, i: nat, c: Lru<K, V>,
                       before: seq<(K, string)>, after: seq<(K, string)>)
    requires i < |texts| && KeysOf(before) == Misses(Mapped(texts[..i], keyOf), c.entries)
    requires after == if keyOf(texts[i]) in c.entries || keyOf(texts[i]) in KeysOf(before) then before
                      else before + [(keyOf(texts[i]), texts[i])]
    ensures KeysOf(after) == Misses(Mapped(texts[..i + 1], keyOf), c.entries)
    ensures AfterGets(c, Mapped(texts[..i + 1], keyOf))
            == AfterGet(AfterGets(c, Mapped(texts[..i], keyOf)), keyOf(texts[i]))
  {
    NextKey(texts, keyOf, i);
    var keys := Mapped(texts[..i + 1], keyOf);
    assert keys[..|keys| - 1] == Mapped(texts[..i], keyOf);
    if |after| > |before| {
      assert KeysOf(after) == KeysOf(before) + [keyOf(texts[i])];
    }
  }

  // What the first pass has done, as far as it got, to a cache that nobody else used.
  ghost predicate LookedUp<K(!new), V>(texts: seq<string>, output: seq<Option<V>>, misses: seq<(K, string)>,
                                       keyOf: string -> K, before: Lru<K, V>, after: Lru<K, V>)
  {
    && after == AfterGets(before, Mapped(texts, keyOf))
    && KeysOf(misses) == Misses(Mapped(texts, keyOf), before.entries)
    && Found(texts, output, keyOf, before.entries)
    && FirstOnes(texts, misses, keyOf)
  }

  lemma LookedUpMore<K(!new), V>(texts: seq<string>, i: nat, output: seq<Option<V>>, vector: Option<V>,
                                 misses: seq<(K, string)>, more: seq<(K, string)>, keyOf: string -> K,
                                 before: Lru<K, V>, now: Lru<K, V>, after: Lru<K, V>)
    requires i < |texts| && LookedUp(texts[..i], output, misses, keyOf, before, now)
    requires vector == GetResult(now, keyOf(texts[i])) && after == AfterGet(now, keyOf(texts[i]))
    requires more == if keyOf(texts[i]) in now.entries || keyOf(texts[i]) in KeysOf(misses) then misses
                     else misses + [(keyOf(texts[i]), texts[i])]
    ensures LookedUp(texts[..i + 1], output + [vector], more, keyOf, before, after)
  {
    NextMiss(texts, keyOf, i, before, misses, more);
    FirstOnesMore(texts, i, misses, more, keyOf, before.entries);
    FoundMore(texts, i, output, vector, keyOf, before.entries);
  }

  lemma FoundMore<K(!new), V>(texts: seq<string>, i: nat, output: seq<Option<V>>, vector: Option<V>,
                              keyOf: string -> K, entries: map<K, V>)
    requires i < |texts| && Found(texts[..i], output, keyOf, entries)
    requires vector == if keyOf(texts[i]) in entries then Some(entries[keyOf(texts[i])]) else None
    ensures Found(texts[..i + 1], output + [vector], keyOf, entries)
  {
  }

  // The first pass: looks up every text and collects the ones to embed, each key once.
  method LookUpAll<K(!new, ==), V>(cache: Cache<K, V>, texts: seq<string>, keyOf: string -> K, embed: string -> V,
                                   alone: bool)
    returns (output: seq<Option<V>>, outputToMiss: seq<Option<nat>>, misses: seq<(K, string)>,
             ghost pending: map<K, nat>)
    requires cache.Valid() && Correct(cache.entries, keyOf, embed)
    modifies cache`entries, cache`order
    ensures cache.Valid() && Correct(cache.entries, keyOf, embed)
    ensures Pending(misses, pending, keyOf)
    ensures AllAnswered(texts, output, outputToMiss, misses, keyOf, embed)
    ensures forall m :: m in misses ==> m.1 in texts
    ensures alone ==> LookedUp(texts, output, misses, keyOf, old(cache.Contents()), cache.Contents())
  {
    output, outputToMiss, misses := [], [], [];
    var waiting: map<K, nat> := map[];
    ghost var start := cache.Contents();
    for i := 0 to |texts|
      invariant cache.Valid() && Correct(cache.entries, keyOf, embed)
      invariant Pending(misses, waiting, keyOf)
      invariant AllAnswered(texts[..i], output, outputToMiss, misses, keyOf, embed)
      invariant forall m :: m in misses ==> m.1 in texts
      invariant alone ==> LookedUp(texts[..i], output, misses, keyOf, start, cache.Contents())
    {
      OtherRequests(cache, keyOf, embed, alone);
      ghost var before, now := misses, cache.Contents();
      var vector, miss;
      vector, miss, misses, waiting := LookUp(cache, texts[i], keyOf, embed, misses, waiting);
      OneMoreAnswered(texts, i, output, outputToMiss, vector, miss, before, misses, keyOf, embed);
      if alone {
        LookedUpMore(texts, i, output, vector, before, misses, keyOf, start, now, cache.Contents());
      }
      output, outputToMiss := output + [vector], outputToMiss + [miss];
    }
    assert texts[..|texts|] == texts;
    pending := waiting;
  }

  // ---------------------------------------------------------------- the whole request

  function TextsOf<K>(misses: seq<(K, string)>): (texts: seq<string>)
    ensures |texts| == |misses| && forall i :: 0 <= i < |misses| ==> texts[i] == misses[i].1
  {
    seq(|misses|, i requires 0 <= i < |misses| => misses[i].1)
  }

  // The second pass: stores the new vectors.
  method StoreAll<K(!new, ==), V>(cache: Cache<K, V>, misses: seq<(K, string)>, vectors: seq<V>,
                                  keyOf: string -> K, embed: string -> V, alone: bool)
    requires cache.Valid() && Correct(cache.entries, keyOf, embed)
    requires vectors == Mapped(TextsOf(misses), embed)
    requires forall m :: 0 <= m < |misses| ==> misses[m].0 == keyOf(misses[m].1)
    modifies cache`entries, cache`order
    ensures cache.Valid() && Correct(cache.entries, keyOf, embed)
    ensures alone ==> cache.Contents() == AfterInserts(old(cache.Contents()), cache.capacity, KeysOf(misses), vectors)
  {
    ghost var keys := KeysOf(misses);
    for i := 0 to |misses|
      invariant cache.Valid() && Correct(cache.entries, keyOf, embed)
      invariant alone ==>
                cache.Contents() == AfterInserts(old(cache.Contents()), cache.capacity, keys[..i], vectors[..i])
    {
      OtherRequests(cache, keyOf, embed, alone);
      StoreVector(cache, keyOf, embed, misses[i].1);
      assert keys[..i + 1][..i] == keys[..i] && vectors[..i + 1][..i] == vectors[..i];
    }
    assert keys[..|misses|] == keys && vectors[..|misses|] == vectors;
  }

  // The third pass: fills in the vectors of the texts that were missing.
  method FillIn<K, V>(texts: seq<string>, output: seq<Option<V>>, outputToMiss: seq<Option<nat>>,
                      misses: seq<(K, string)>, vectors: seq<V>, keyOf: string -> K, embed: string -> V)
    returns (result: seq<V>)
    requires AllAnswered(texts, output, outputToMiss, misses, keyOf, embed)
    requires vectors == Mapped(TextsOf(misses), embed)
    requires forall m :: 0 <= m < |misses| ==> misses[m].0 == keyOf(misses[m].1)
    ensures |result| == |texts|
    ensures forall i :: 0 <= i < |texts| ==> IsVectorFor(keyOf(texts[i]), result[i], keyOf, embed)
    ensures forall i :: 0 <= i < |texts| ==> FilledIn(keyOf(texts[i]), output[i], result[i], misses, embed)
  {
    result := [];
    for i := 0 to |texts|
      invariant |result| == i
      invariant forall j :: 0 <= j < i ==> IsVectorFor(keyOf(texts[j]), result[j], keyOf, embed)
      invariant forall j :: 0 <= j < i ==> FilledIn(keyOf(texts[j]), output[j], result[j], misses, embed)
    {
      assert Answered(texts[i], output[i], outputToMiss[i], misses, keyOf, embed);
      match output[i] {
        case Some(vector) => result := result + [vector];
        case None =>
          var miss := outputToMiss[i].value;
          assert keyOf(misses[miss].1) == keyOf(texts[i]) && embed(misses[miss].1) == vectors[miss];
          result := result + [vectors[miss]];
      }
    }
  }

  ghost predicate FilledIn<K, V>(k: K, output: Option<V>, v: V, misses: seq<(K, string)>, embed: string -> V) {
    match output
    case Some(vector) => v == vector
    case None => exists m :: 0 <= m < |misses| && misses[m].0 == k && v == embed(misses[m].1)
  }

  // What a request that nobody interferes with is answered: what the cache has for a key, and else
  // the vector of the first text with the key.
  function Answers<K(==), V>(texts: seq<string>, entries: map<K, V>, keyOf: string -> K,
                                embed: string -> V): (vs: seq<V>)
    ensures |vs| == |texts|
    ensures forall i :: 0 <= i < |texts| ==>
              vs[i] == if keyOf(texts[i]) in entries then entries[keyOf(texts[i])]
                       else embed(FirstWith(texts, KeyIn(texts, keyOf, i), keyOf))
  {
    seq(|texts|, i requires 0 <= i < |texts| =>
      if keyOf(texts[i]) in entries then entries[keyOf(texts[i])]
      else embed(FirstWith(texts, KeyIn(texts, keyOf, i), keyOf)))
  }

  function KeyIn<K(==)>(texts: seq<string>, keyOf: string -> K, i: nat): (k: K)
    requires i < |texts|
    ensures k == keyOf(texts[i]) && k in Mapped(texts, keyOf)
  {
    assert Mapped(texts, keyOf)[i] == keyOf(texts[i]);
    keyOf(texts[i])
  }

  lemma FilledInAnswers<K(!new), V>(texts: seq<string>, output: seq<Option<V>>, result: seq<V>,
                                    misses: seq<(K, string)>, keyOf: string -> K, embed: string -> V,
                                    entries: map<K, V>)
    requires |result| == |texts| && Found(texts, output, keyOf, entries) && FirstOnes(texts, misses, keyOf)
    requires forall i :: 0 <= i < |texts| ==> FilledIn(keyOf(texts[i]), output[i], result[i], misses, embed)
    ensures result == Answers(texts, entries, keyOf, embed)
  {
    forall i | 0 <= i < |texts|
      ensures result[i] == Answers(texts, entries, keyOf, embed)[i]
    {
      assert FilledIn(keyOf(texts[i]), output[i], result[i], misses, embed);
    }
  }

  // Every text gets the vector of a text with its key. `sent` are the texts that went to the provider.
  method EmbedTextsCached<K(!new, ==), V>(cache: Cache<K, V>, texts: seq<string>, maxBatchInputs: nat,
                                          keyOf: string -> K, embed: string -> V, healthy: bool, alone: bool)
    returns (r: Result<seq<V>, ProviderError>, ghost sent: seq<string>)
    requires cache.Valid() && Correct(cache.entries, keyOf, embed)
    modifies cache`entries, cache`order
    ensures cache.Valid() && Correct(cache.entries, keyOf, embed)
    ensures healthy ==> r.Ok?
    ensures r.Ok? ==> |r.value| == |texts|
                      && forall i :: 0 <= i < |texts| ==> IsVectorFor(keyOf(texts[i]), r.value[i], keyOf, embed)
    ensures alone && r.Ok? ==> r.value == Answers(texts, old(cache.entries), keyOf, embed)
    ensures NoRepeats(Mapped(sent, keyOf)) && forall s :: s in sent ==> s in texts
    ensures alone ==> Mapped(sent, keyOf) == Misses(Mapped(texts, keyOf), old(cache.entries))
    ensures alone && r.Ok? ==>
              cache.Contents() == AfterInserts(AfterGets(old(cache.Contents()), Mapped(texts, keyOf)), cache.capacity,
                                               Mapped(sent, keyOf), Mapped(sent, embed))
  {
    if texts == [] { return Ok([]), []; }
    var output, outputToMiss, misses, pending := LookUpAll(cache, texts, keyOf, embed, alone);
    sent := TextsOf(misses);
    assert Mapped(sent, keyOf) == KeysOf(misses);
    var vectors, _, _, _ := EmbedTextsBatched(TextsOf(misses), maxBatchInputs, embed, healthy);
    if vectors.Err? { return Err(vectors.error), sent; }
    StoreAll(cache, misses, vectors.value, keyOf, embed, alone);
    var result := FillIn(texts, output, outputToMiss, misses, vectors.value, keyOf, embed);
    if alone {
      FilledInAnswers(texts, output, result, misses, keyOf, embed, old(cache.entries));
    }
    r := Ok(result);
  }
}
