/** The least-recently-used cache of embedding vectors (crates/ketebe-server/src/embedding_cache.rs). */
module EmbeddingCache {
  import opened Wrappers
  import opened Collections

  // ---------------------------------------------------------------- keys

  datatype Key = Key(profile: string, provider: string, model: string, modelVersion: string, dimension: nat,
                     normalization: string, content: string)

  datatype Context = Context(profile: string, provider: string, model: string, modelVersion: string, dimension: nat)

  function ReplaceCrLf(s: string): string {
    if s == "" then ""
    else if |s| >= 2 && s[0] == '\r' && s[1] == '\n' then "\n" + ReplaceCrLf(s[2..])
    else [s[0]] + ReplaceCrLf(s[1..])
  }

  function ReplaceCr(s: string): string {
    if s == "" then "" else [if s[0] == '\r' then '\n' else s[0]] + ReplaceCr(s[1..])
  }

  function NormalizeContent(text: string): string {
    ReplaceCr(ReplaceCrLf(text))
  }

  function CacheKey(c: Context, digest: string -> string, text: string): Key {
    Key(c.profile, c.provider, c.model, c.modelVersion, c.dimension, "line_endings_v1",
        digest(NormalizeContent(text)))
  }

  lemma {:induction false} NoCrLeft(s: string)
    ensures '\r' !in ReplaceCr(s)
  {
    if s != "" { NoCrLeft(s[1..]); }
  }

  lemma {:induction false} NothingToReplace(s: string)
    requires '\r' !in s
    ensures ReplaceCr(s) == s && ReplaceCrLf(s) == s
  {
    if s != "" { NothingToReplace(s[1..]); }
  }

  // What becomes of the line endings: this says of every text what it is normalised to.
  lemma NormalizeMeans(c: char, rest: string)
    ensures NormalizeContent("") == ""
    ensures c != '\r' ==> NormalizeContent([c] + rest) == [c] + NormalizeContent(rest)
    ensures NormalizeContent("\r\n" + rest) == "\n" + NormalizeContent(rest)
    ensures !("\n" <= rest) ==> NormalizeContent("\r" + rest) == "\n" + NormalizeContent(rest)
  {
    if c != '\r' {
      ReplaceStep([c] + rest, c, rest);
    }
    if !("\n" <= rest) {
      ReplaceStep("\r" + rest, '\r', rest);
    }
    assert ("\r\n" + rest)[2..] == rest;
    var s := "\n" + ReplaceCrLf(rest);
    assert s[1..] == ReplaceCrLf(rest);
  }

  lemma ReplaceStep(s: string, c: char, rest: string)
    requires s == [c] + rest && (c == '\r' ==> !("\n" <= rest))
    ensures NormalizeContent(s) == [if c == '\r' then '\n' else c] + NormalizeContent(rest)
  {
    assert s[1..] == rest;
    assert |rest| > 0 && rest[0] == '\n' ==> "\n" <= rest;
    var t := [c] + ReplaceCrLf(rest);
    assert ReplaceCrLf(s) == t && t[1..] == ReplaceCrLf(rest);
  }

  // Texts share a key exactly when provider, model and profile are the same and the texts differ in
  // nothing but line endings; this supposes a digest without collisions.
  lemma KeysAgreeIff(c: Context, e: Context, digest: string -> string, s: string, t: string)
    requires forall x, y :: digest(x) == digest(y) ==> x == y
    ensures CacheKey(c, digest, s) == CacheKey(e, digest, t) <==>
              c == e && NormalizeContent(s) == NormalizeContent(t)
    ensures CacheKey(c, digest, NormalizeContent(s)) == CacheKey(c, digest, s)
    ensures CacheKey(c, digest, s).normalization == "line_endings_v1"
  {
    NoCrLeft(ReplaceCrLf(s));
    NothingToReplace(NormalizeContent(s));
  }

  // ---------------------------------------------------------------- the cache as a value

  datatype Lru<K, V> = Lru(entries: map<K, V>, order: seq<K>)

  // The deque without the first occurrence of `k`.
  function Without<K(==)>(order: seq<K>, k: K): seq<K> {
    if order == [] then []
    else if order[0] == k then order[1..]
    else [order[0]] + Without(order[1..], k)
  }

  function Touched<K(==)>(order: seq<K>, k: K): seq<K> {
    Without(order, k) + [k]
  }

  ghost predicate Consistent<K(!new), V>(c: Lru<K, V>, capacity: nat) {
    && NoRepeats(c.order)
    && (forall k :: k in c.entries <==> k in c.order)
    && |c.order| <= capacity
  }

  function GetResult<K, V>(c: Lru<K, V>, k: K): Option<V> {
    if k in c.entries then Some(c.entries[k]) else None
  }

  function AfterGet<K(==), V>(c: Lru<K, V>, k: K): Lru<K, V> {
    if k in c.entries then c.(order := Touched(c.order, k)) else c
  }

  function AfterInsert<K(==), V>(c: Lru<K, V>, capacity: nat, k: K, v: V): Lru<K, V> {
    if capacity == 0 then c
    else if k in c.entries then Lru(c.entries[k := v], Touched(c.order, k))
    else if |c.order| < capacity then Lru(c.entries[k := v], c.order + [k])
    else Lru((c.entries - {c.order[0]})[k := v], c.order[1..] + [k])
  }

  lemma {:induction false} WithoutIs<K(!new)>(order: seq<K>, k: K)
    requires NoRepeats(order)
    ensures NoRepeats(Without(order, k)) && k !in Without(order, k)
    ensures forall x :: x in Without(order, k) <==> x in order && x != k
    ensures |Without(order, k)| == |order| - if k in order then 1 else 0
  {
    if order != [] {
      var first, rest := order[0], order[1..];
      assert order == [first] + rest;
      assert first !in rest;
      WithoutIs(rest, k);
      if first != k {
        var w := Without(rest, k);
        assert first !in w;
        forall i, j | 0 <= i < j < |[first] + w|
          ensures ([first] + w)[i] != ([first] + w)[j]
        {
          if i == 0 { assert w[j - 1] in w; }
        }
      }
    }
  }

  lemma NoRepeatsAppend<K>(s: seq<K>, k: K)
    requires NoRepeats(s) && k !in s
    ensures NoRepeats(s + [k])
  {
  }

  lemma {:induction false} WithoutAt<K(!new)>(order: seq<K>, p: nat)
    requires NoRepeats(order) && p < |order|
    ensures Without(order, order[p]) == order[..p] + order[p + 1..]
  {
    if p > 0 {
      assert order[0] != order[p];
      WithoutAt(order[1..], p - 1);
      assert order[1..][..p - 1] == order[1..p] && order[..p] == [order[0]] + order[1..p];
    }
  }

  // A hit moves its key to the back and changes nothing else.
  lemma GetMeans<K(!new), V>(c: Lru<K, V>, capacity: nat, p: nat)
    requires Consistent(c, capacity) && p < |c.order|
    ensures GetResult(c, c.order[p]) == Some(c.entries[c.order[p]])
    ensures AfterGet(c, c.order[p]) == Lru(c.entries, c.order[..p] + c.order[p + 1..] + [c.order[p]])
  {
    assert c.order[p] in c.order;
    WithoutAt(c.order, p);
  }

  // An insertion puts its key at the back. The first key is dropped to make room for a new one.
  lemma InsertMeans<K(!new), V>(c: Lru<K, V>, capacity: nat, k: K, v: V)
    requires Consistent(c, capacity) && capacity > 0
    ensures forall p: nat :: p < |c.order| && c.order[p] == k ==>
              AfterInsert(c, capacity, k, v) == Lru(c.entries[k := v], c.order[..p] + c.order[p + 1..] + [k])
    ensures k !in c.entries && |c.order| < capacity ==>
              AfterInsert(c, capacity, k, v) == Lru(c.entries[k := v], c.order + [k])
    ensures k !in c.entries && |c.order| == capacity ==>
              AfterInsert(c, capacity, k, v) == Lru((c.entries - {c.order[0]})[k := v], c.order[1..] + [k])
  {
    if p: nat :| p < |c.order| && c.order[p] == k {
      assert c.order[p] in c.order;
      WithoutAt(c.order, p);
      assert forall q: nat :: q < |c.order| && c.order[q] == k ==> q == p;
    }
  }

  lemma GetKeepsConsistent<K(!new), V>(c: Lru<K, V>, capacity: nat, k: K)
    requires Consistent(c, capacity)
    ensures Consistent(AfterGet(c, k), capacity)
  {
    WithoutIs(c.order, k);
    NoRepeatsAppend(Without(c.order, k), k);
  }

  lemma InsertKeepsConsistent<K(!new), V>(c: Lru<K, V>, capacity: nat, k: K, v: V)
    requires Consistent(c, capacity)
    ensures Consistent(AfterInsert(c, capacity, k, v), capacity)
  {
    WithoutIs(c.order, k);
    NoRepeatsAppend(Without(c.order, k), k);
    if k !in c.entries && capacity > 0 {
      if |c.order| < capacity {
        NoRepeatsAppend(c.order, k);
      } else {
        assert c.order == [c.order[0]] + c.order[1..];
        assert c.order[0] !in c.order[1..];
        NoRepeatsAppend(c.order[1..], k);
      }
    }
  }

  lemma SizeIsLength<K(!new), V>(c: Lru<K, V>, capacity: nat)
    requires Consistent(c, capacity)
    ensures |c.entries| == |c.order|
  {
    NoRepeatsCount(c.order);
    assert c.entries.Keys == set k | k in c.order;
  }

  // ---------------------------------------------------------------- any run of the cache

  datatype Op<K, V> = Get(key: K) | Insert(key: K, value: V) | Clear

  function Run<K(==), V>(ops: seq<Op<K, V>>, capacity: nat): Lru<K, V> {
    if ops == [] then Lru(map[], [])
    else
      var c, op := Run(ops[..|ops| - 1], capacity), ops[|ops| - 1];
      match op
      case Get(k) => AfterGet(c, k)
      case Insert(k, v) => AfterInsert(c, capacity, k, v)
      case Clear => Lru(map[], [])
  }

  function LastInserted<K(==), V>(ops: seq<Op<K, V>>, k: K): Option<V> {
    if ops == [] then None
    else
      var last := ops[|ops| - 1];
      if last.Insert? && last.key == k then Some(last.value) else LastInserted(ops[..|ops| - 1], k)
  }

  // After any run the deque and the map agree, and a hit returns what was inserted last.
  lemma {:induction false} RunIsConsistent<K(!new), V>(ops: seq<Op<K, V>>, capacity: nat)
    ensures Consistent(Run(ops, capacity), capacity) && |Run(ops, capacity).entries| <= capacity
    ensures forall k :: k in Run(ops, capacity).entries ==> Some(Run(ops, capacity).entries[k]) == LastInserted(ops, k)
  {
    if ops != [] {
      var init, op := ops[..|ops| - 1], ops[|ops| - 1];
      RunIsConsistent(init, capacity);
      match op
      case Get(k) => GetKeepsConsistent(Run(init, capacity), capacity, k);
      case Insert(k, v) => InsertKeepsConsistent(Run(init, capacity), capacity, k, v);
      case Clear =>
    }
    SizeIsLength(Run(ops, capacity), capacity);
  }

  // ---------------------------------------------------------------- recency

  // The distinct keys by their last use, the latest one at the end.
  function Recency<K(==)>(uses: seq<K>): seq<K> {
    if uses == [] then [] else Touched(Recency(uses[..|uses| - 1]), uses[|uses| - 1])
  }

  function Suffix<T>(s: seq<T>, n: nat): seq<T> {
    if |s| <= n then s else s[|s| - n..]
  }

  // A lookup that inserts on a miss, and any number of them one after the other.
  function Access<K(==), V>(c: Lru<K, V>, capacity: nat, k: K, v: V): Lru<K, V> {
    if k in c.entries then AfterGet(c, k) else AfterInsert(c, capacity, k, v)
  }

  function Accesses<K(==), V>(c: Lru<K, V>, capacity: nat, uses: seq<(K, V)>): Lru<K, V> {
    if uses == [] then c
    else
      var last := uses[|uses| - 1];
      Access(Accesses(c, capacity, uses[..|uses| - 1]), capacity, last.0, last.1)
  }

  function KeysOf<K, V>(uses: seq<(K, V)>): (keys: seq<K>)
    ensures |keys| == |uses| && forall i :: 0 <= i < |uses| ==> keys[i] == uses[i].0
  {
    seq(|uses|, i requires 0 <= i < |uses| => uses[i].0)
  }

  lemma WithoutCons<K>(x: K, s: seq<K>, k: K)
    ensures Without([x] + s, k) == if x == k then s else [x] + Without(s, k)
  {
    assert ([x] + s)[1..] == s;
  }

  lemma {:induction false} WithoutOfConcatenation<K>(a: seq<K>, b: seq<K>, k: K)
    ensures Without(a + b, k) == if k in a then Without(a, k) + b else a + Without(b, k)
  {
    if a == [] {
      assert a + b == b;
    } else {
      var first, rest := a[0], a[1..];
      WithoutOfConcatenation(rest, b, k);
      assert a == [first] + rest && a + b == [first] + (rest + b);
      WithoutCons(first, rest + b, k);
      WithoutCons(first, rest, k);
    }
  }

  lemma SuffixIs<T>(p: seq<T>, s: seq<T>, n: nat)
    requires |s| == n || (p == [] && |s| < n)
    ensures Suffix(p + s, n) == s
  {
  }

  lemma Split<T>(r: seq<T>, n: nat) returns (p: seq<T>)
    ensures r == p + Suffix(r, n)
    ensures |Suffix(r, n)| == n || (p == [] && |Suffix(r, n)| < n)
  {
    p := r[..|r| - |Suffix(r, n)|];
  }

  lemma TouchedAtEnd<K(!new)>(p: seq<K>, s: seq<K>, k: K)
    requires NoRepeats(p + s) && k in s
    ensures Touched(p + s, k) == p + Touched(s, k) && |Touched(s, k)| == |s|
  {
    var i :| 0 <= i < |s| && s[i] == k;
    assert (p + s)[|p| + i] == k;
    forall j | 0 <= j < |p|
      ensures p[j] != k
    {
      assert (p + s)[j] == p[j];
    }
    NoRepeatsAtEnd(p, s);
    WithoutOfConcatenation(p, s, k);
    WithoutIs(s, k);
    assert p + Without(s, k) + [k] == p + (Without(s, k) + [k]);
  }

  lemma NoRepeatsAtEnd<K>(p: seq<K>, s: seq<K>)
    requires NoRepeats(p + s)
    ensures NoRepeats(s)
  {
    forall i, j | 0 <= i < j < |s|
      ensures s[i] != s[j]
    {
      assert (p + s)[|p| + i] == s[i] && (p + s)[|p| + j] == s[j];
    }
  }

  lemma TouchedNotAtEnd<K(!new)>(p: seq<K>, s: seq<K>, k: K) returns (q: seq<K>)
    requires k !in s
    ensures Touched(p + s, k) == q + (s + [k]) && (p == [] ==> q == [])
  {
    WithoutOfConcatenation(p, s, k);
    NotThere(s, k);
    q := if k in p then Without(p, k) else p;
    assert q + s + [k] == q + (s + [k]);
  }

  // How the last `n` keys change with a use, by whether the used one is among them.
  lemma SuffixAfterHit<K(!new)>(recency: seq<K>, n: nat, k: K)
    requires NoRepeats(recency) && k in Suffix(recency, n)
    ensures Suffix(Touched(recency, k), n) == Touched(Suffix(recency, n), k)
  {
    var p := Split(recency, n);
    var s := Suffix(recency, n);
    TouchedAtEnd(p, s, k);
    SuffixIs(p, Touched(s, k), n);
  }

  lemma SuffixAfterMiss<K(!new)>(recency: seq<K>, n: nat, k: K)
    requires n > 0 && k !in Suffix(recency, n)
    ensures var s := Suffix(recency, n);
            Suffix(Touched(recency, k), n) == (if |s| < n then s else s[1..]) + [k]
  {
    var p := Split(recency, n);
    var s := Suffix(recency, n);
    var q := TouchedNotAtEnd(p, s, k);
    if |s| < n {
      SuffixIs(q, s + [k], n);
    } else {
      assert q + (s + [k]) == (q + [s[0]]) + (s[1..] + [k]);
      SuffixIs(q + [s[0]], s[1..] + [k], n);
    }
  }

  lemma {:induction false} NotThere<K>(order: seq<K>, k: K)
    ensures k !in order ==> Without(order, k) == order
  {
    if order != [] && k !in order { NotThere(order[1..], k); }
  }

  lemma {:induction false} RecencyHasNoRepeats<K(!new)>(uses: seq<K>)
    ensures NoRepeats(Recency(uses))
    ensures forall k :: k in Recency(uses) <==> k in uses
  {
    if uses != [] {
      var init, last := uses[..|uses| - 1], uses[|uses| - 1];
      RecencyHasNoRepeats(init);
      WithoutIs(Recency(init), last);
      NoRepeatsAppend(Without(Recency(init), last), last);
      assert uses == init + [last];
    }
  }

  // The deque is the end of the recency list that fits into the capacity.
  lemma {:induction false} DequeIsRecencySuffix<K(!new), V>(uses: seq<(K, V)>, capacity: nat)
    ensures var c := Accesses(Lru(map[], []), capacity, uses);
            Consistent(c, capacity) && c.order == Suffix(Recency(KeysOf(uses)), capacity)
  {
    if uses != [] {
      var init, last := uses[..|uses| - 1], uses[|uses| - 1];
      var before := Accesses(Lru(map[], []), capacity, init);
      DequeIsRecencySuffix(init, capacity);
      assert KeysOf(uses)[..|uses| - 1] == KeysOf(init);
      GetKeepsConsistent(before, capacity, last.0);
      InsertKeepsConsistent(before, capacity, last.0, last.1);
      if capacity > 0 {
        RecencyHasNoRepeats(KeysOf(init));
        if last.0 in before.entries {
          SuffixAfterHit(Recency(KeysOf(init)), capacity, last.0);
        } else {
          SuffixAfterMiss(Recency(KeysOf(init)), capacity, last.0);
        }
      }
    }
  }

  // The keys used after the last use of `k`.
  function UsedSince<K(==)>(uses: seq<K>, k: K): set<K> {
    if uses == [] || uses[|uses| - 1] == k then {}
    else UsedSince(uses[..|uses| - 1], k) + {uses[|uses| - 1]}
  }

  // The key is followed by just these.
  ghost predicate StandsBefore<K(!new)>(order: seq<K>, k: K, later: set<K>) {
    exists i :: 0 <= i < |order| && order[i] == k && IsSetOf(order[i + 1..], later)
  }

  ghost predicate IsSetOf<K(!new)>(s: seq<K>, elements: set<K>) {
    forall x :: x in elements <==> x in s
  }

  lemma StandsAt<K(!new)>(head: seq<K>, k: K, rest: seq<K>, later: set<K>)
    requires IsSetOf(rest, later)
    ensures StandsBefore(head + [k] + rest, k, later)
  {
    var order := head + [k] + rest;
    assert order[|head|] == k && order[|head| + 1..] == rest;
  }

  // Another key is used: it leaves the part before or the part behind, and ends up at the end.
  lemma TouchedAround<K(!new)>(head: seq<K>, k: K, rest: seq<K>, last: K) returns (head': seq<K>, rest': seq<K>)
    requires last != k && NoRepeats(rest) && (last in head ==> last !in rest)
    ensures Touched(head + [k] + rest, last) == head' + [k] + (rest' + [last])
    ensures forall x :: x in rest' + [last] <==> x in rest || x == last
  {
    WithoutOfConcatenation(head + [k], rest, last);
    WithoutOfConcatenation(head, [k], last);
    WithoutIs(rest, last);
    if last in head {
      head', rest' := Without(head, last), rest;
    } else {
      head', rest' := head, Without(rest, last);
    }
    assert head' + [k] + rest' + [last] == head' + [k] + (rest' + [last]);
  }

  lemma TouchedStandsBefore<K(!new)>(order: seq<K>, last: K, k: K, later: set<K>)
    requires StandsBefore(order, k, later) && NoRepeats(order) && last != k
    ensures StandsBefore(Touched(order, last), k, later + {last})
  {
    var i :| 0 <= i < |order| && order[i] == k && IsSetOf(order[i + 1..], later);
    var head, rest := order[..i], order[i + 1..];
    assert order == head + [k] + rest;
    NoRepeatsAtEnd(head + [k], rest);
    assert last in head ==> last !in rest;
    var head', rest' := TouchedAround(head, k, rest, last);
    StandsAt(head', k, rest' + [last], later + {last});
  }

  lemma {:induction false} RecencyStands<K(!new)>(uses: seq<K>, k: K)
    requires k in uses
    ensures StandsBefore(Recency(uses), k, UsedSince(uses, k))
  {
    var init, last := uses[..|uses| - 1], uses[|uses| - 1];
    assert uses == init + [last];
    if last == k {
      var r := Recency(uses);
      assert r[|r| - 1] == k && r[|r| - 1 + 1..] == [];
    } else {
      RecencyStands(init, k);
      RecencyHasNoRepeats(init);
      TouchedStandsBefore(Recency(init), last, k, UsedSince(init, k));
    }
  }

  lemma SuffixHas<K(!new)>(order: seq<K>, n: nat, i: nat)
    requires NoRepeats(order) && i < |order|
    ensures order[i] in Suffix(order, n) <==> |order| - i <= n
  {
    var suffix := Suffix(order, n);
    var cut := |order| - |suffix|;
    assert forall j :: 0 <= j < |suffix| ==> suffix[j] == order[cut + j];
    if i >= cut {
      assert suffix[i - cut] == order[i];
    }
  }

  lemma InSuffixIff<K(!new)>(order: seq<K>, n: nat, k: K, later: set<K>)
    requires NoRepeats(order) && StandsBefore(order, k, later)
    ensures k in Suffix(order, n) <==> |later| < n
  {
    var i :| 0 <= i < |order| && order[i] == k && IsSetOf(order[i + 1..], later);
    var rest := order[i + 1..];
    NoRepeatsCount(rest);
    assert later == set x | x in rest;
    SuffixHas(order, n, i);
  }

  // A cache holds a key exactly if fewer others than its capacity were used since.
  lemma HeldIff<K(!new), V>(uses: seq<(K, V)>, capacity: nat, k: K)
    ensures k in Accesses(Lru(map[], []), capacity, uses).entries <==>
            k in KeysOf(uses) && |UsedSince(KeysOf(uses), k)| < capacity
  {
    DequeIsRecencySuffix(uses, capacity);
    RecencyHasNoRepeats(KeysOf(uses));
    if k in KeysOf(uses) {
      RecencyStands(KeysOf(uses), k);
      InSuffixIff(Recency(KeysOf(uses)), capacity, k, UsedSince(KeysOf(uses), k));
    }
  }

  // Whatever a smaller cache finds, a larger one finds as well if the same keys are used in the same
  // order.
  lemma LargerCacheHitsToo<K(!new), V>(uses: seq<(K, V)>, others: seq<(K, V)>, small: nat, large: nat, k: K)
    requires KeysOf(uses) == KeysOf(others) && small <= large
    requires k in Accesses(Lru(map[], []), small, uses).entries
    ensures k in Accesses(Lru(map[], []), large, others).entries
  {
    HeldIff(uses, small, k);
    HeldIff(others, large, k);
  }
}
