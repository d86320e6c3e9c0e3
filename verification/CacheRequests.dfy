/** What whole requests do to the cache of embedding vectors, and what their results are worth
    (crates/ketebe-server/src/embedding_cache.rs). */
module CacheRequests {
  import opened Wrappers
  import opened Collections
  import opened EmbeddingCache
  import opened Embedding
  import opened CachedEmbedding

  // ---------------------------------------------------------------- results

  // No text with the same key as one of these has a different vector.
  ghost predicate DependsOnKey<K, V>(texts: seq<string>, keyOf: string -> K, embed: string -> V) {
    forall s, t :: s in texts && keyOf(t) == keyOf(s) ==> embed(t) == embed(s)
  }

  ghost predicate AnsweredExactly<K(!new), V(!new)>(texts: seq<string>, keyOf: string -> K, embed: string -> V) {
    forall entries: map<K, V> :: Correct(entries, keyOf, embed) ==>
      Answers(texts, entries, keyOf, embed) == Mapped(texts, embed)
  }

  // With one provider: whatever requests have left in the cache, a request is answered with the
  // embedding of each text exactly when the provider depends on nothing of these texts but their keys.
  lemma AnsweredExactlyIff<K(!new), V(!new)>(texts: seq<string>, keyOf: string -> K, embed: string -> V)
    ensures AnsweredExactly(texts, keyOf, embed) <==> DependsOnKey(texts, keyOf, embed)
  {
    if DependsOnKey(texts, keyOf, embed) {
      forall entries: map<K, V> | Correct(entries, keyOf, embed)
        ensures Answers(texts, entries, keyOf, embed) == Mapped(texts, embed)
      {
        forall i | 0 <= i < |texts|
          ensures Answers(texts, entries, keyOf, embed)[i] == embed(texts[i])
        {
          var k := KeyIn(texts, keyOf, i);
          assert texts[i] in texts && (k in entries ==> IsVectorFor(k, entries[k], keyOf, embed));
        }
      }
    } else {
      var s, t :| s in texts && keyOf(t) == keyOf(s) && embed(t) != embed(s);
      AnsweredForAnother(texts, s, t, keyOf, embed);
    }
  }

  // If the vector of `t` is in the cache, a request for `s` is answered with it.
  lemma AnsweredForAnother<K(!new), V>(texts: seq<string>, s: string, t: string, keyOf: string -> K,
                                       embed: string -> V)
    requires s in texts && keyOf(t) == keyOf(s) && embed(t) != embed(s)
    ensures var entries := map[keyOf(t) := embed(t)];
            && Correct(entries, keyOf, embed)
            && Answers(texts, entries, keyOf, embed) != Mapped(texts, embed)
  {
    var i :| 0 <= i < |texts| && texts[i] == s;
    var entries := map[keyOf(t) := embed(t)];
    assert IsVectorFor(keyOf(t), embed(t), keyOf, embed);
    assert Answers(texts, entries, keyOf, embed)[i] == embed(t) != Mapped(texts, embed)[i];
  }

  predicate HasLineEnding(s: string) {
    '\r' in s || '\n' in s
  }

  lemma {:induction false} CrLfLeavesLineEnding(s: string)
    ensures HasLineEnding(ReplaceCrLf(s)) <==> HasLineEnding(s)
    ensures !HasLineEnding(s) ==> ReplaceCrLf(s) == s
  {
    if s != "" {
      if |s| >= 2 && s[0] == '\r' && s[1] == '\n' {
        CrLfLeavesLineEnding(s[2..]);
        assert ReplaceCrLf(s)[0] == '\n';
      } else {
        CrLfLeavesLineEnding(s[1..]);
        assert s == [s[0]] + s[1..];
      }
    }
  }

  lemma {:induction false} CrLeavesLineEnding(s: string)
    ensures HasLineEnding(ReplaceCr(s)) <==> HasLineEnding(s)
    ensures !HasLineEnding(s) ==> ReplaceCr(s) == s
  {
    if s != "" {
      CrLeavesLineEnding(s[1..]);
      assert s == [s[0]] + s[1..];
    }
  }

  // The normal form of a text without line endings is that of no other text.
  lemma OnlyItself(s: string, t: string)
    requires !HasLineEnding(s) && NormalizeContent(s) == NormalizeContent(t)
    ensures s == t
  {
    CrLfLeavesLineEnding(s);
    CrLeavesLineEnding(ReplaceCrLf(s));
    CrLfLeavesLineEnding(t);
    CrLeavesLineEnding(ReplaceCrLf(t));
  }

  function LfToCr(s: string): string {
    if s == "" then "" else [if s[0] == '\n' then '\r' else s[0]] + LfToCr(s[1..])
  }

  lemma {:induction false} LfToCrIsUndone(s: string)
    requires '\r' !in s
    ensures '\n' !in LfToCr(s) && ReplaceCrLf(LfToCr(s)) == LfToCr(s) && ReplaceCr(LfToCr(s)) == s
  {
    if s != "" {
      LfToCrIsUndone(s[1..]);
      assert LfToCr(s)[1..] == LfToCr(s[1..]) && s == [s[0]] + s[1..];
    }
  }

  // A text with line endings has the normal form of another one.
  function SameWithout(s: string): string {
    if '\r' in s then NormalizeContent(s) else LfToCr(s)
  }

  lemma AnotherText(s: string)
    requires HasLineEnding(s)
    ensures SameWithout(s) != s && NormalizeContent(SameWithout(s)) == NormalizeContent(s)
  {
    if '\r' in s {
      NoCrLeft(ReplaceCrLf(s));
      NothingToReplace(NormalizeContent(s));
    } else {
      LfToCrIsUndone(s);
      NothingToReplace(s);
    }
  }

  // For which texts a provider depends on nothing but the keys, whatever the provider: those without
  // line endings. This supposes a digest without collisions.
  lemma DependsOnKeyIff<V(!new)>(texts: seq<string>, keyOf: string -> Key, c: Context, digest: string -> string,
                                 a: V, b: V)
    requires (forall t :: keyOf(t) == CacheKey(c, digest, t)) && forall x, y :: digest(x) == digest(y) ==> x == y
    requires a != b
    ensures (forall embed: string -> V :: DependsOnKey(texts, keyOf, embed)) <==>
            forall s :: s in texts ==> !HasLineEnding(s)
  {
    forall s, t
      ensures keyOf(s) == keyOf(t) <==> NormalizeContent(s) == NormalizeContent(t)
    {
      KeysAgreeIff(c, c, digest, s, t);
    }
    if s :| s in texts && HasLineEnding(s) {
      AnotherText(s);
      var embed: string -> V := x => if x == s then a else b;
      assert keyOf(SameWithout(s)) == keyOf(s) && embed(SameWithout(s)) != embed(s);
      assert !DependsOnKey(texts, keyOf, embed);
    } else {
      forall embed: string -> V, s, t | s in texts && keyOf(t) == keyOf(s)
        ensures embed(t) == embed(s)
      {
        OnlyItself(s, t);
      }
    }
  }

  // Requests for these texts are answered exactly, whatever the provider and the cache, exactly if no
  // text has a line ending.
  lemma ResultIsExactIff<V(!new)>(texts: seq<string>, keyOf: string -> Key, c: Context, digest: string -> string,
                                  a: V, b: V)
    requires (forall t :: keyOf(t) == CacheKey(c, digest, t)) && forall x, y :: digest(x) == digest(y) ==> x == y
    requires a != b
    ensures (forall embed: string -> V :: AnsweredExactly(texts, keyOf, embed)) <==>
            forall s :: s in texts ==> !HasLineEnding(s)
  {
    DependsOnKeyIff(texts, keyOf, c, digest, a, b);
    forall embed: string -> V
      ensures AnsweredExactly(texts, keyOf, embed) <==> DependsOnKey(texts, keyOf, embed)
    {
      AnsweredExactlyIff(texts, keyOf, embed);
    }
  }

  // A provider that tells line endings apart may be answered for by another text's vector.
  lemma LineEndingsAreNotToldApart(c: Context, digest: string -> string)
    ensures CacheKey(c, digest, "a\r\nb") == CacheKey(c, digest, "a\nb") == CacheKey(c, digest, "a\rb")
  {
    assert ReplaceCrLf("a\r\nb") == "a\nb" by {
      assert "a\r\nb"[1..] == "\r\nb" && "\r\nb"[2..] == "b" && "b"[1..] == "";
      assert ReplaceCrLf("b") == "b";
      assert ReplaceCrLf("\r\nb") == "\nb";
    }
    assert ReplaceCrLf("a\rb") == "a\rb" by {
      assert "a\rb"[1..] == "\rb" && "\rb"[1..] == "b" && "b"[1..] == "";
      assert ReplaceCrLf("\rb") == "\rb";
    }
    assert ReplaceCr("a\rb") == "a\nb" by {
      assert "a\rb"[1..] == "\rb" && "\rb"[1..] == "b" && "b"[1..] == "";
      assert ReplaceCr("\rb") == "\nb";
    }
    NothingToReplace("a\nb");
  }

  // ---------------------------------------------------------------- requests as single accesses

  // The cache after a request for these keys that nothing else interferes with, see
  // `EmbedTextsCached`; `vectors` are the vectors of the missing keys.
  function AfterRequest<K(==), V>(c: Lru<K, V>, capacity: nat, keys: seq<K>, vectorOf: K -> V): Lru<K, V> {
    var misses := Misses(keys, c.entries);
    AfterInserts(AfterGets(c, keys), capacity, misses, Mapped(misses, vectorOf))
  }

  // The cache that `EmbedTextsCached` leaves behind, for a provider that depends on the keys only.
  lemma ServiceMakesRequests<K(!new), V>(c: Lru<K, V>, capacity: nat, texts: seq<string>, sent: seq<string>,
                                         keyOf: string -> K, embed: string -> V, vectorOf: K -> V)
    requires forall t :: embed(t) == vectorOf(keyOf(t))
    requires Mapped(sent, keyOf) == Misses(Mapped(texts, keyOf), c.entries)
    ensures AfterInserts(AfterGets(c, Mapped(texts, keyOf)), capacity, Mapped(sent, keyOf), Mapped(sent, embed))
            == AfterRequest(c, capacity, Mapped(texts, keyOf), vectorOf)
  {
    assert Mapped(sent, embed) == Mapped(Mapped(sent, keyOf), vectorOf);
  }

  // The lookups that find something.
  function Hits<K(==), V>(keys: seq<K>, entries: map<K, V>): seq<(K, V)> {
    if keys == [] then []
    else
      var before, last := Hits(keys[..|keys| - 1], entries), keys[|keys| - 1];
      if last in entries then before + [(last, entries[last])] else before
  }

  function Zip<K, V>(keys: seq<K>, vectors: seq<V>): (pairs: seq<(K, V)>)
    requires |keys| == |vectors|
    ensures |pairs| == |keys| && forall i :: 0 <= i < |pairs| ==> pairs[i] == (keys[i], vectors[i])
  {
    seq(|keys|, i requires 0 <= i < |keys| => (keys[i], vectors[i]))
  }

  lemma {:induction false} GetsAreAccesses<K(!new), V>(c: Lru<K, V>, capacity: nat, keys: seq<K>)
    ensures AfterGets(c, keys) == Accesses(c, capacity, Hits(keys, c.entries))
  {
    if keys != [] {
      var init, last := keys[..|keys| - 1], keys[|keys| - 1];
      GetsAreAccesses(c, capacity, init);
      if last in c.entries {
        var hits := Hits(keys, c.entries);
        assert hits[..|hits| - 1] == Hits(init, c.entries);
      }
    }
  }

  lemma {:induction false} InsertsAreAccesses<K(!new), V>(c: Lru<K, V>, capacity: nat, keys: seq<K>, vectors: seq<V>)
    requires |keys| == |vectors| && NoRepeats(keys) && forall k :: k in keys ==> k !in c.entries
    ensures AfterInserts(c, capacity, keys, vectors) == Accesses(c, capacity, Zip(keys, vectors))
    ensures forall k :: k in AfterInserts(c, capacity, keys, vectors).entries ==> k in c.entries || k in keys
  {
    if keys != [] {
      var n := |keys| - 1;
      assert keys == keys[..n] + [keys[n]];
      assert keys[n] !in keys[..n];
      InsertsAreAccesses(c, capacity, keys[..n], vectors[..n]);
      assert Zip(keys, vectors)[..n] == Zip(keys[..n], vectors[..n]);
    }
  }

  lemma {:induction false} AccessesOfConcatenation<K(!new), V>(c: Lru<K, V>, capacity: nat, a: seq<(K, V)>,
                                                               b: seq<(K, V)>)
    ensures Accesses(c, capacity, a + b) == Accesses(Accesses(c, capacity, a), capacity, b)
  {
    if b == [] {
      assert a + b == a;
    } else {
      assert (a + b)[..|a + b| - 1] == a + b[..|b| - 1];
      AccessesOfConcatenation(c, capacity, a, b[..|b| - 1]);
    }
  }

  lemma KeysOfParts<K, V>(a: seq<(K, V)>, keys: seq<K>, vectors: seq<V>)
    requires |keys| == |vectors|
    ensures KeysOf(a + Zip(keys, vectors)) == KeysOf(a) + keys
  {
  }

  // A request is the sequence of its hits followed by its misses, as if looked up one by one.
  lemma RequestIsAccesses<K(!new), V>(c: Lru<K, V>, capacity: nat, keys: seq<K>, vectorOf: K -> V)
    returns (uses: seq<(K, V)>)
    ensures AfterRequest(c, capacity, keys, vectorOf) == Accesses(c, capacity, uses)
    ensures KeysOf(uses) == UsedBy(c, keys)
  {
    var misses := Misses(keys, c.entries);
    var vectors := Mapped(misses, vectorOf);
    MissesAre(keys, c.entries);
    GetsAreAccesses(c, capacity, keys);
    InsertsAreAccesses(AfterGets(c, keys), capacity, misses, vectors);
    uses := Hits(keys, c.entries) + Zip(misses, vectors);
    AccessesOfConcatenation(c, capacity, Hits(keys, c.entries), Zip(misses, vectors));
    KeysOfParts(Hits(keys, c.entries), misses, vectors);
  }

  function AfterRequests<K(==), V>(requests: seq<seq<K>>, capacity: nat, vectorOf: K -> V): Lru<K, V> {
    if requests == [] then Lru(map[], [])
    else
      AfterRequest(AfterRequests(requests[..|requests| - 1], capacity, vectorOf), capacity, requests[|requests| - 1],
                   vectorOf)
  }

  // The keys in the order in which requests use them: first what a request finds, then what it does not.
  function UsedBy<K(==), V>(c: Lru<K, V>, keys: seq<K>): seq<K> {
    KeysOf(Hits(keys, c.entries)) + Misses(keys, c.entries)
  }

  function Used<K(==), V>(requests: seq<seq<K>>, capacity: nat, vectorOf: K -> V): seq<K> {
    if requests == [] then []
    else
      var init, last := requests[..|requests| - 1], requests[|requests| - 1];
      Used(init, capacity, vectorOf) + UsedBy(AfterRequests(init, capacity, vectorOf), last)
  }

  lemma KeysOfConcatenation<K, V>(a: seq<(K, V)>, b: seq<(K, V)>)
    ensures KeysOf(a + b) == KeysOf(a) + KeysOf(b)
  {
  }

  lemma {:induction false} RequestsAreAccesses<K(!new), V>(requests: seq<seq<K>>, capacity: nat, vectorOf: K -> V)
    returns (uses: seq<(K, V)>)
    ensures AfterRequests(requests, capacity, vectorOf) == Accesses(Lru(map[], []), capacity, uses)
    ensures KeysOf(uses) == Used(requests, capacity, vectorOf)
  {
    if requests == [] {
      uses := [];
    } else {
      var init, last := requests[..|requests| - 1], requests[|requests| - 1];
      var before := RequestsAreAccesses(init, capacity, vectorOf);
      var added := RequestIsAccesses(AfterRequests(init, capacity, vectorOf), capacity, last, vectorOf);
      uses := before + added;
      AccessesOfConcatenation(Lru(map[], []), capacity, before, added);
      KeysOfConcatenation(before, added);
    }
  }

  // After any requests the deque is the end of the recency list of the keys they used.
  lemma RequestsFollowRecency<K(!new), V>(requests: seq<seq<K>>, capacity: nat, vectorOf: K -> V)
    ensures var c := AfterRequests(requests, capacity, vectorOf);
            Consistent(c, capacity) && c.order == Suffix(Recency(Used(requests, capacity, vectorOf)), capacity)
  {
    var uses := RequestsAreAccesses(requests, capacity, vectorOf);
    DequeIsRecencySuffix(uses, capacity);
  }

  // ---------------------------------------------------------------- sizes of the cache

  function KeySet<K(==)>(keys: seq<K>): set<K> {
    set k | k in keys
  }

  // No request asks for more than `m` different keys.
  ghost predicate Narrow<K(!new)>(requests: seq<seq<K>>, m: nat) {
    forall i :: 0 <= i < |requests| ==> |KeySet(requests[i])| <= m
  }

  ghost predicate Held<K(!new), V>(requests: seq<seq<K>>, capacity: nat, vectorOf: K -> V, k: K) {
    k in AfterRequests(requests, capacity, vectorOf).entries
  }

  ghost predicate LargerServes<K(!new), V>(requests: seq<seq<K>>, small: nat, large: nat, vectorOf: K -> V) {
    forall k :: Held(requests, small, vectorOf, k) ==> Held(requests, large, vectorOf, k)
  }

  lemma RequestHeldIff<K(!new), V>(requests: seq<seq<K>>, capacity: nat, vectorOf: K -> V, k: K)
    ensures Held(requests, capacity, vectorOf, k) <==>
            var uses := Used(requests, capacity, vectorOf); k in uses && |UsedSince(uses, k)| < capacity
  {
    var uses := RequestsAreAccesses(requests, capacity, vectorOf);
    HeldIff(uses, capacity, k);
  }

  lemma {:induction false} HitsAre<K(!new), V>(keys: seq<K>, entries: map<K, V>)
    ensures forall k :: k in KeysOf(Hits(keys, entries)) <==> k in keys && k in entries
  {
    if keys != [] {
      var init, last := keys[..|keys| - 1], keys[|keys| - 1];
      HitsAre(init, entries);
      assert keys == init + [last];
      if last in entries {
        assert KeysOf(Hits(keys, entries)) == KeysOf(Hits(init, entries)) + [last];
      }
    }
  }

  lemma UsedByAre<K(!new), V>(c: Lru<K, V>, keys: seq<K>)
    ensures KeySet(UsedBy(c, keys)) == KeySet(keys)
  {
    HitsAre(keys, c.entries);
    MissesAre(keys, c.entries);
  }

  lemma {:induction false} UsedSinceMore<K(!new)>(uses: seq<K>, more: seq<K>, k: K)
    ensures k !in more ==> UsedSince(uses + more, k) == UsedSince(uses, k) + KeySet(more)
    ensures k in more ==> UsedSince(uses + more, k) == UsedSince(more, k) <= KeySet(more) - {k}
  {
    if more == [] {
      assert uses + more == uses;
    } else {
      var init, last := more[..|more| - 1], more[|more| - 1];
      assert (uses + more)[..|uses + more| - 1] == uses + init && more == init + [last];
      UsedSinceMore(uses, init, k);
    }
  }

  // The keys of the requests after the last one that asks for `k`, and of that one.
  function AskedSince<K(==)>(requests: seq<seq<K>>, k: K): set<K> {
    if requests == [] || k in requests[|requests| - 1] then {}
    else AskedSince(requests[..|requests| - 1], k) + KeySet(requests[|requests| - 1])
  }

  function AskedWith<K(==)>(requests: seq<seq<K>>, k: K): set<K> {
    if requests == [] then {}
    else if k in requests[|requests| - 1] then KeySet(requests[|requests| - 1])
    else AskedWith(requests[..|requests| - 1], k)
  }

  // Whatever the capacity: what is used after a key are the keys of later requests, and at most
  // some keys of its own request.
  lemma {:induction false} UsedSinceBounds<K(!new), V>(requests: seq<seq<K>>, capacity: nat, vectorOf: K -> V, k: K)
    ensures k in Used(requests, capacity, vectorOf) <==> k in AskedWith(requests, k)
    ensures k in Used(requests, capacity, vectorOf) ==>
              AskedSince(requests, k) <= UsedSince(Used(requests, capacity, vectorOf), k)
                                      <= AskedSince(requests, k) + (AskedWith(requests, k) - {k})
  {
    if requests != [] {
      var init, last := requests[..|requests| - 1], requests[|requests| - 1];
      var c := AfterRequests(init, capacity, vectorOf);
      UsedSinceBounds(init, capacity, vectorOf, k);
      UsedByAre(c, last);
      assert k in KeySet(last) <==> k in KeySet(UsedBy(c, last));
      UsedSinceMore(Used(init, capacity, vectorOf), UsedBy(c, last), k);
    }
  }

  lemma {:induction false} AskedWithIsNarrow<K(!new)>(requests: seq<seq<K>>, m: nat, k: K)
    requires Narrow(requests, m) && k in AskedWith(requests, k)
    ensures |AskedWith(requests, k) - {k}| + 1 <= m
  {
    if k !in requests[|requests| - 1] {
      AskedWithIsNarrow(requests[..|requests| - 1], m, k);
    }
  }

  // A larger cache finds whatever a smaller one finds, if requests are narrow enough.
  lemma LargerCacheServes<K(!new), V>(requests: seq<seq<K>>, small: nat, large: nat, m: nat, vectorOf: K -> V)
    requires Narrow(requests, m) && m + small <= large + 1
    ensures LargerServes(requests, small, large, vectorOf)
  {
    forall k | Held(requests, small, vectorOf, k)
      ensures Held(requests, large, vectorOf, k)
    {
      RequestHeldIff(requests, small, vectorOf, k);
      RequestHeldIff(requests, large, vectorOf, k);
      UsedSinceBounds(requests, small, vectorOf, k);
      UsedSinceBounds(requests, large, vectorOf, k);
      AskedWithIsNarrow(requests, m, k);
      SubsetSize(AskedSince(requests, k), UsedSince(Used(requests, small, vectorOf), k));
      SubsetSize(UsedSince(Used(requests, large, vectorOf), k),
                 AskedSince(requests, k) + (AskedWith(requests, k) - {k}));
    }
  }

  // ---------------------------------------------------------------- requests that are too wide

  function Singles<K>(keys: seq<K>): (requests: seq<seq<K>>)
    ensures |requests| == |keys| && forall i :: 0 <= i < |keys| ==> requests[i] == [keys[i]]
  {
    if keys == [] then [] else Singles(keys[..|keys| - 1]) + [[keys[|keys| - 1]]]
  }

  lemma SingleIsUsed<K, V>(c: Lru<K, V>, k: K)
    ensures UsedBy(c, [k]) == [k]
  {
    assert [k][..0] == [];
    assert Hits<K, V>([], c.entries) == [] && Misses<K, V>([], c.entries) == [];
  }

  lemma RequestOneMore<K(!new), V>(requests: seq<seq<K>>, keys: seq<K>, capacity: nat, vectorOf: K -> V)
    ensures var c := AfterRequests(requests, capacity, vectorOf);
            Used(requests + [keys], capacity, vectorOf) == Used(requests, capacity, vectorOf) + UsedBy(c, keys)
  {
  }

  lemma {:induction false} SinglesUseTheirKeys<K(!new), V>(requests: seq<seq<K>>, keys: seq<K>, capacity: nat,
                                                           vectorOf: K -> V)
    ensures Used(requests + Singles(keys), capacity, vectorOf) == Used(requests, capacity, vectorOf) + keys
  {
    if keys == [] {
      assert requests + Singles(keys) == requests;
    } else {
      var init, last := keys[..|keys| - 1], keys[|keys| - 1];
      assert keys == init + [last];
      SinglesUseTheirKeys(requests, init, capacity, vectorOf);
      SinglesOneMore(requests, init, last);
      SingleStep(requests + Singles(init), last, capacity, vectorOf);
      Regroup(Used(requests, capacity, vectorOf), init, [last]);
    }
  }

  lemma SingleStep<K(!new), V>(before: seq<seq<K>>, k: K, capacity: nat, vectorOf: K -> V)
    ensures Used(before + [[k]], capacity, vectorOf) == Used(before, capacity, vectorOf) + [k]
  {
    RequestOneMore(before, [k], capacity, vectorOf);
    SingleIsUsed(AfterRequests(before, capacity, vectorOf), k);
  }

  lemma Regroup<T>(a: seq<T>, b: seq<T>, c: seq<T>)
    ensures a + b + c == a + (b + c)
  {
  }

  lemma SinglesOneMore<K>(requests: seq<seq<K>>, keys: seq<K>, k: K)
    ensures requests + Singles(keys + [k]) == requests + Singles(keys) + [[k]]
  {
    assert (keys + [k])[..|keys|] == keys;
  }

  function Range(from: int, to: int): (keys: seq<int>)
    requires from <= to
    ensures |keys| == to - from && forall i :: 0 <= i < |keys| ==> keys[i] == from + i
  {
    seq(to - from, i => from + i)
  }

  lemma RangeSize(from: int, to: int)
    requires from <= to
    ensures |KeySet(Range(from, to))| == to - from
    ensures forall k :: k in KeySet(Range(from, to)) <==> from <= k < to
  {
    NoRepeatsCount(Range(from, to));
    forall k | from <= k < to
      ensures k in Range(from, to)
    {
      assert Range(from, to)[k - from] == k;
    }
  }

  // Key 0, which the larger cache alone still has, is asked for together with enough new keys: it is
  // used first by the larger cache and last by the smaller.
  function WideRequest(small: nat, large: nat): seq<int>
    requires small < large
  {
    Range(small + 1, large + 2) + [0]
  }

  function Before(small: nat): seq<seq<int>> {
    [[0]] + Singles(Range(1, small + 1))
  }

  function WideRun(small: nat, large: nat): seq<seq<int>>
    requires 1 <= small < large
  {
    Before(small) + [WideRequest(small, large)] + Singles(Range(large + 2, large + small + 1))
  }

  lemma UsesBeforeWide<V>(small: nat, capacity: nat, vectorOf: int -> V)
    ensures Used(Before(small), capacity, vectorOf) == [0] + Range(1, small + 1)
  {
    assert [0][..0] == [];
    assert Singles([0]) == [[0]] && [] + [[0]] == [[0]] && [] + [0] == [0];
    SinglesUseTheirKeys([], [0], capacity, vectorOf);
    assert Used<int, V>([], capacity, vectorOf) == [];
    SinglesUseTheirKeys([[0]], Range(1, small + 1), capacity, vectorOf);
  }

  // Before the wide request as many keys were used since key 0 as the smaller cache has room for.
  lemma BeforeWide<V>(small: nat, capacity: nat, vectorOf: int -> V)
    ensures Held(Before(small), capacity, vectorOf, 0) <==> small < capacity
  {
    var more := Range(1, small + 1);
    UsesBeforeWide(small, capacity, vectorOf);
    RangeSize(1, small + 1);
    UsedSinceMore([0], more, 0);
    assert UsedSince([0], 0) == {} && ([0] + more)[0] == 0;
    RequestHeldIff(Before(small), capacity, vectorOf, 0);
  }

  lemma NewBeforeWide<V>(small: nat, capacity: nat, vectorOf: int -> V, k: int)
    requires k > small
    ensures !Held(Before(small), capacity, vectorOf, k)
  {
    UsesBeforeWide(small, capacity, vectorOf);
    RequestHeldIff(Before(small), capacity, vectorOf, k);
  }

  lemma {:induction false} NewKeysMiss<K(!new), V>(keys: seq<K>, entries: map<K, V>)
    requires NoRepeats(keys) && forall k :: k in keys ==> k !in entries
    ensures Misses(keys, entries) == keys && Hits(keys, entries) == []
  {
    if keys != [] {
      var init, last := keys[..|keys| - 1], keys[|keys| - 1];
      assert keys == init + [last] && last !in init;
      NewKeysMiss(init, entries);
    }
  }

  // New keys and one more: if that one is found, it is used first, else last.
  lemma UsesOfWide<K(!new), V>(c: Lru<K, V>, keys: seq<K>, k: K)
    requires NoRepeats(keys) && k !in keys && forall x :: x in keys ==> x !in c.entries
    ensures UsedBy(c, keys + [k]) == if k in c.entries then [k] + keys else keys + [k]
  {
    NewKeysMiss(keys, c.entries);
    assert (keys + [k])[..|keys|] == keys;
    if k in c.entries {
      assert Hits(keys + [k], c.entries) == [(k, c.entries[k])] && Misses(keys + [k], c.entries) == keys;
    } else {
      assert Hits(keys + [k], c.entries) == [] && Misses(keys + [k], c.entries) == keys + [k];
    }
  }

  lemma UsesOfWideRequest<V>(small: nat, wide: seq<int>, capacity: nat, vectorOf: int -> V)
    requires NoRepeats(wide) && forall k :: k in wide ==> k > small
    ensures Used(Before(small) + [wide + [0]], capacity, vectorOf)
            == ([0] + Range(1, small + 1)) + (if small < capacity then [0] + wide else wide + [0])
  {
    BeforeWide(small, capacity, vectorOf);
    UsesBeforeWide(small, capacity, vectorOf);
    var c := AfterRequests(Before(small), capacity, vectorOf);
    forall k | k in wide
      ensures k !in c.entries
    {
      NewBeforeWide(small, capacity, vectorOf, k);
    }
    UsesOfWide(c, wide, 0);
    RequestOneMore(Before(small), wide + [0], capacity, vectorOf);
  }

  lemma UsesOfWideRun<V>(small: nat, large: nat, capacity: nat, vectorOf: int -> V)
    requires 1 <= small < large
    ensures var wide := Range(small + 1, large + 2);
            Used(WideRun(small, large), capacity, vectorOf)
            == ([0] + Range(1, small + 1)) + (if small < capacity then [0] + wide else wide + [0])
               + Range(large + 2, large + small + 1)
  {
    UsesOfWideRequest(small, Range(small + 1, large + 2), capacity, vectorOf);
    SinglesUseTheirKeys(Before(small) + [WideRequest(small, large)], Range(large + 2, large + small + 1), capacity,
                        vectorOf);
  }

  // What was used since key 0, if that was used before the other keys of the wide request, and if it
  // was used after them.
  lemma SinceZero(first: seq<int>, wide: seq<int>, last: seq<int>)
    requires 0 !in wide && 0 !in last
    ensures UsedSince(first + ([0] + wide) + last, 0) == KeySet(wide) + KeySet(last)
    ensures UsedSince(first + (wide + [0]) + last, 0) == KeySet(last)
  {
    UsedSinceMore([0], wide, 0);
    UsedSinceMore(first, [0] + wide, 0);
    UsedSinceMore(first + ([0] + wide), last, 0);
    UsedSinceMore(first, wide + [0], 0);
    UsedSinceMore(first + (wide + [0]), last, 0);
    assert (wide + [0])[|wide + [0]| - 1] == 0;
  }

  lemma SizesSinceZero(small: nat, large: nat)
    requires 1 <= small < large
    ensures 0 !in Range(small + 1, large + 2) && 0 !in Range(large + 2, large + small + 1)
    ensures |KeySet(Range(large + 2, large + small + 1))| == small - 1
    ensures |KeySet(Range(small + 1, large + 2)) + KeySet(Range(large + 2, large + small + 1))| == large
  {
    RangeSize(small + 1, large + 2);
    RangeSize(large + 2, large + small + 1);
    RangeSize(small + 1, large + small + 1);
    assert KeySet(Range(small + 1, large + 2)) + KeySet(Range(large + 2, large + small + 1))
        == KeySet(Range(small + 1, large + small + 1));
  }

  lemma WideRunIsNarrow(small: nat, large: nat)
    requires 1 <= small < large
    ensures Narrow(WideRun(small, large), large - small + 2)
  {
    RangeSize(small + 1, large + 2);
    assert KeySet(WideRequest(small, large)) == KeySet(Range(small + 1, large + 2)) + {0};
    var run := WideRun(small, large);
    forall i | 0 <= i < |run|
      ensures |KeySet(run[i])| <= large - small + 2
    {
      if i != |Before(small)| {
        assert |run[i]| == 1 && KeySet(run[i]) == {run[i][0]};
      }
    }
  }

  // With one key more than that in a request, a larger cache may miss what a smaller one finds.
  lemma LargerCacheMayMiss<V>(small: nat, large: nat, vectorOf: int -> V)
    requires 1 <= small < large
    ensures Narrow(WideRun(small, large), large - small + 2)
    ensures Held(WideRun(small, large), small, vectorOf, 0) && !Held(WideRun(small, large), large, vectorOf, 0)
  {
    WideRunIsNarrow(small, large);
    var first, wide := [0] + Range(1, small + 1), Range(small + 1, large + 2);
    var last := Range(large + 2, large + small + 1);
    SizesSinceZero(small, large);
    SinceZero(first, wide, last);
    UsesOfWideRun(small, large, small, vectorOf);
    RequestHeldIff(WideRun(small, large), small, vectorOf, 0);
    assert (first + (wide + [0]) + last)[0] == 0;
    UsesOfWideRun(small, large, large, vectorOf);
    RequestHeldIff(WideRun(small, large), large, vectorOf, 0);
  }

  lemma NarrowerStill<K(!new)>(requests: seq<seq<K>>, m: nat, n: nat)
    requires Narrow(requests, m) && m <= n
    ensures Narrow(requests, n)
  {
  }

  // A larger cache finds whatever a smaller one finds, however the cache is used, exactly if no
  // request asks for more than `large - small + 1` different keys.
  lemma LargerCacheServesIff<V>(small: nat, large: nat, m: nat, vectorOf: int -> V)
    requires 1 <= small < large
    ensures (forall requests: seq<seq<int>> :: Narrow(requests, m) ==> LargerServes(requests, small, large, vectorOf))
            <==> m <= large - small + 1
  {
    if m <= large - small + 1 {
      forall requests: seq<seq<int>> | Narrow(requests, m)
        ensures LargerServes(requests, small, large, vectorOf)
      {
        LargerCacheServes(requests, small, large, m, vectorOf);
      }
    } else {
      LargerCacheMayMiss(small, large, vectorOf);
      NarrowerStill(WideRun(small, large), large - small + 2, m);
    }
  }

  // With one text in each request it always does.
  lemma LargerCacheServesSingles<K(!new), V>(keys: seq<K>, small: nat, large: nat, vectorOf: K -> V)
    requires small <= large
    ensures LargerServes(Singles(keys), small, large, vectorOf)
  {
    var requests := Singles(keys);
    forall i | 0 <= i < |requests|
      ensures |KeySet(requests[i])| <= 1
    {
      assert KeySet(requests[i]) == {keys[i]};
    }
    LargerCacheServes(requests, small, large, 1, vectorOf);
  }
}
