/** Replacing and deleting all chunks of a document in the record store of one collection
    (crates/ketebe-server/src/chunking.rs). */
module ChunkStore {
  import opened Wrappers
  import opened Collections
  import opened Text
  import opened Store
  import opened Chunking
  import opened EmbeddingCache
  import opened CachedEmbedding
  import opened CacheRequests

  // How the metadata of a chunk names its parent document.
  datatype ParentKey = ParentKey(kind: string, text: string)

  // What a caller says of a document. Two keys are reserved for what the server adds to each chunk.
  type Metadata = map<string, string>

  const EMBEDDING_METADATA_KEY := "_ketebe_embedding"
  const CHUNK_METADATA_KEY := "_ketebe_chunk"

  // `parent` is absent in records that are not chunks.
  datatype Stored<V> = Stored(vector: V, metadata: Metadata, parent: Option<ParentKey>, generation: nat)

  datatype Pending<V> = Pending(id: RecordId, vector: V, metadata: Metadata)

  datatype Replaced = Replaced(chunkIds: seq<RecordId>, sequences: seq<nat>, generation: nat, reconciled: nat)

  function KeyOf(parent: RecordId): ParentKey {
    match parent
    case StringId(value) => ParentKey("string", value)
    case Unsigned(value) => ParentKey("u64", Decimal(value))
  }

  lemma KeysDiffer(p: RecordId, q: RecordId)
    requires p != q
    ensures KeyOf(p) != KeyOf(q)
  {
    if p.Unsigned? && q.Unsigned? {
      DecimalRoundTrip(p.number);
      DecimalRoundTrip(q.number);
    } else if p.StringId? != q.StringId? {
      assert |"string"| != |"u64"|;
    }
  }

  predicate BelongsTo<V(==)>(e: Entry<Stored<V>>, parent: RecordId) {
    e.value.Some? && e.value.value.parent == Some(KeyOf(parent))
  }

  // `visible_parent_chunk_ids`, on the latest versions.
  function Visible<V(==)>(m: Versions<Stored<V>>, parent: RecordId): set<RecordId> {
    set id | id in m && BelongsTo(m[id], parent)
  }

  method SelectChunks<V(==)>(latest: Versions<Stored<V>>, parent: RecordId) returns (ids: set<RecordId>)
    ensures ids == Visible(latest, parent)
  {
    ids := {};
    var todo := latest.Keys;
    while todo != {}
      invariant todo <= latest.Keys
      invariant forall id :: id in ids <==> id in latest && id !in todo && BelongsTo(latest[id], parent)
      decreases todo
    {
      var id :| id in todo;
      todo := todo - {id};
      if BelongsTo(latest[id], parent) { ids := ids + {id}; }
    }
  }

  // ---------------------------------------------------------------- one batch of mutations

  function Ids(ids: seq<RecordId>): set<RecordId> {
    set id | id in ids
  }

  // The chunks of `parent` are the given ids; the other records are as before, except that those
  // whose id was taken over have become chunks of `parent`.
  ghost predicate ReplacedBy<V>(before: Versions<Stored<V>>, after: Versions<Stored<V>>, parent: RecordId,
                                ids: set<RecordId>)
  {
    && Visible(after, parent) == ids
    && (forall q :: q != parent ==> Visible(after, q) == Visible(before, q) - ids)
    && (forall id :: id !in ids && id !in Visible(before, parent) ==>
          (id in after <==> id in before) && (id in after ==> after[id] == before[id]))
  }

  // The mutations of a batch: new chunks of `parent`, and deletions of its other chunks.
  ghost predicate IsBatch<V>(batch: seq<Entry<Stored<V>>>, before: Versions<Stored<V>>, parent: RecordId,
                             ids: set<RecordId>)
  {
    && (forall e :: e in batch && e.value.Some? ==> e.id in ids && e.value.value.parent == Some(KeyOf(parent)))
    && (forall e :: e in batch && e.value.None? ==> e.id in Visible(before, parent) - ids)
    && (forall id :: id in ids + Visible(before, parent) ==> Mentions(batch, id))
  }

  ghost predicate Mentions<V>(batch: seq<Entry<Stored<V>>>, id: RecordId) {
    exists e :: e in batch && e.id == id
  }

  // A deletion for each of these ids, and nothing else.
  ghost predicate Removing<V>(batch: seq<Entry<Stored<V>>>, ids: set<RecordId>) {
    && (forall e :: e in batch ==> e.id in ids && e.value.None?)
    && (forall id :: id in ids ==> Mentions(batch, id))
  }

  ghost predicate Newer<V>(batch: seq<Entry<Stored<V>>>, entries: seq<Entry<Stored<V>>>) {
    forall e, f :: e in entries && f in batch ==> e.sequence < f.sequence
  }

  lemma BatchReplaces<V>(entries: seq<Entry<Stored<V>>>, batch: seq<Entry<Stored<V>>>, parent: RecordId,
                         ids: set<RecordId>)
    requires Newer(batch, entries)
    requires IsBatch(batch, Latest(entries), parent, ids)
    ensures ReplacedBy(Latest(entries), Latest(entries + batch), parent, ids)
  {
    var before, after := Latest(entries), Latest(entries + batch);
    NewerEntriesWin(entries, batch);
    FoldGivesLatest(batch);
    var m := Latest(batch);
    forall id | id in ids + Visible(before, parent)
      ensures id in m && m[id] in batch && after[id] == m[id]
    {
      var e :| e in batch && e.id == id;
    }
    forall q | q != parent
      ensures Visible(after, q) == Visible(before, q) - ids
    {
      KeysDiffer(parent, q);
      forall id
        ensures id in Visible(after, q) <==> id in Visible(before, q) - ids
      {
        if id in m {
          assert m[id] in batch;
        }
      }
    }
    forall id
      ensures id in Visible(after, parent) <==> id in ids
    {
      if id in m {
        assert m[id] in batch;
      }
    }
  }

  // Consecutive sequence numbers.
  ghost predicate Numbered<V>(batch: seq<Entry<Stored<V>>>, first: nat) {
    forall i :: 0 <= i < |batch| ==> batch[i].sequence == first + i
  }

  function NewChunk<V>(pending: Pending<V>, parent: RecordId, generation: nat, i: nat): Entry<Stored<V>> {
    Entry(pending.id, generation + i,
          Some(Stored(pending.vector, pending.metadata, Some(KeyOf(parent)), generation)))
  }

  ghost predicate AreUpserts<V>(batch: seq<Entry<Stored<V>>>, records: seq<Pending<V>>, parent: RecordId,
                                generation: nat)
  {
    && |batch| == |records|
    && forall i :: 0 <= i < |batch| ==> batch[i] == NewChunk(records[i], parent, generation, i)
  }

  ghost predicate Consecutive(sequences: seq<nat>, first: nat) {
    forall k :: 0 <= k < |sequences| ==> sequences[k] == first + k
  }

  method Upserts<V>(records: seq<Pending<V>>, parent: RecordId, generation: nat)
    returns (batch: seq<Entry<Stored<V>>>, sequences: seq<nat>)
    ensures |sequences| == |records|
    ensures AreUpserts(batch, records, parent, generation) && Consecutive(sequences, generation)
  {
    batch, sequences := [], [];
    var next := generation;
    for i := 0 to |records|
      invariant |batch| == |sequences| == i && next == generation + i
      invariant forall k :: 0 <= k < i ==> batch[k] == NewChunk(records[k], parent, generation, k)
      invariant forall k :: 0 <= k < i ==> sequences[k] == generation + k
    {
      var chunk := Stored(records[i].vector, records[i].metadata, Some(KeyOf(parent)), generation);
      batch := batch + [Entry(records[i].id, next, Some(chunk))];
      sequences := sequences + [next];
      next := next + 1;
    }
  }

  method Deletes<V>(ids: set<RecordId>, first: nat) returns (batch: seq<Entry<Stored<V>>>, sequences: seq<nat>)
    ensures |batch| == |sequences| == |ids| && Numbered(batch, first)
    ensures Removing(batch, ids)
    ensures Consecutive(sequences, first)
  {
    batch, sequences := [], [];
    var todo, next := ids, first;
    while todo != {}
      invariant todo <= ids && |batch| == |sequences| == |ids| - |todo| && next == first + |batch|
      invariant Numbered(batch, first)
      invariant Removing(batch, ids - todo)
      invariant forall i :: 0 <= i < |batch| ==> sequences[i] == first + i
      decreases todo
    {
      var id :| id in todo;
      OneMoreRemoved(batch, ids - todo, Entry(id, next, None));
      assert ids - (todo - {id}) == ids - todo + {id};
      batch := batch + [Entry(id, next, None)];
      sequences := sequences + [next];
      todo, next := todo - {id}, next + 1;
    }
  }

  lemma OneMoreRemoved<V>(batch: seq<Entry<Stored<V>>>, ids: set<RecordId>, e: Entry<Stored<V>>)
    requires Removing(batch, ids) && e.value.None?
    ensures Removing(batch + [e], ids + {e.id})
  {
    var more := batch + [e];
    assert more[|batch|] == e;
    forall id | id in ids + {e.id}
      ensures Mentions(more, id)
    {
      if id in ids {
        assert Mentions(batch, id);
        var f :| f in batch && f.id == id;
        assert f in more;
      }
    }
  }

  lemma IsReplacement<V>(upserts: seq<Entry<Stored<V>>>, deletes: seq<Entry<Stored<V>>>,
                         before: Versions<Stored<V>>, records: seq<Pending<V>>, parent: RecordId, generation: nat)
    requires AreUpserts(upserts, records, parent, generation)
    requires Removing(deletes, Visible(before, parent) - Ids(Names(records)))
    requires Numbered(deletes, generation + |records|)
    ensures IsBatch(upserts + deletes, before, parent, Ids(Names(records)))
    ensures Numbered(upserts + deletes, generation)
  {
    var batch, names := upserts + deletes, Names(records);
    forall id | id in Ids(names) + Visible(before, parent)
      ensures Mentions(batch, id)
    {
      if id in Ids(names) {
        var i :| 0 <= i < |names| && names[i] == id;
        assert upserts[i] in batch;
      } else {
        assert Mentions(deletes, id);
        var e :| e in deletes && e.id == id;
        assert e in batch;
      }
    }
    forall e | e in batch && e.value.Some?
      ensures e.id in Ids(names) && e.value.value.parent == Some(KeyOf(parent))
    {
      assert e in upserts;
      var i :| 0 <= i < |upserts| && upserts[i] == e;
      assert names[i] == e.id;
    }
  }

  // In a batch without repeated upserts the latest version of an upserted id is its upsert.
  lemma OnlyVersion<V>(upserts: seq<Entry<Stored<V>>>, deletes: seq<Entry<Stored<V>>>, i: nat)
    requires i < |upserts|
    requires forall k :: 0 <= k < |upserts| && k != i ==> upserts[k].id != upserts[i].id
    requires forall e :: e in deletes ==> e.id != upserts[i].id
    ensures var m := Latest(upserts + deletes); upserts[i].id in m && m[upserts[i].id] == upserts[i]
  {
    var batch := upserts + deletes;
    FoldGivesLatest(batch);
    assert batch[i] in batch;
    var e := Latest(batch)[upserts[i].id];
    assert e in upserts || e in deletes;
  }

  lemma ChunkIsStored<V>(entries: seq<Entry<Stored<V>>>, upserts: seq<Entry<Stored<V>>>,
                         deletes: seq<Entry<Stored<V>>>, id: RecordId)
    requires Newer(upserts + deletes, entries) && id in Latest(upserts + deletes)
    ensures id in Latest(entries + (upserts + deletes))
    ensures Latest(entries + (upserts + deletes))[id] == Latest(upserts + deletes)[id]
  {
    NewerEntriesWin(entries, upserts + deletes);
  }

  // The new chunks are stored as they were given.
  lemma NewChunksAreStored<V>(entries: seq<Entry<Stored<V>>>, upserts: seq<Entry<Stored<V>>>,
                              deletes: seq<Entry<Stored<V>>>, records: seq<Pending<V>>, parent: RecordId,
                              generation: nat)
    requires Newer(upserts + deletes, entries)
    requires AreUpserts(upserts, records, parent, generation) && NoRepeats(Names(records))
    requires exists gone: set<RecordId> :: Removing(deletes, gone) && gone !! Ids(Names(records))
    ensures StoredAs(Latest(entries + (upserts + deletes)), records, parent, generation)
  {
    forall i | 0 <= i < |records|
      ensures IsStored(Latest(entries + (upserts + deletes)), records, parent, generation, i)
    {
      var names := Names(records);
      assert upserts[i].id == names[i];
      forall k | 0 <= k < |upserts| && k != i
        ensures upserts[k].id != upserts[i].id
      {
        assert names[k] == upserts[k].id;
      }
      OnlyVersion(upserts, deletes, i);
      ChunkIsStored(entries, upserts, deletes, upserts[i].id);
    }
  }

  function Names<V>(records: seq<Pending<V>>): (ids: seq<RecordId>)
    ensures |ids| == |records| && forall i :: 0 <= i < |ids| ==> ids[i] == records[i].id
  {
    seq(|records|, i requires 0 <= i < |records| => records[i].id)
  }

  ghost predicate IsStored<V>(m: Versions<Stored<V>>, records: seq<Pending<V>>, parent: RecordId, generation: nat,
                              i: nat)
    requires i < |records|
  {
    records[i].id in m && m[records[i].id] == NewChunk(records[i], parent, generation, i)
  }

  ghost predicate StoredAs<V>(m: Versions<Stored<V>>, records: seq<Pending<V>>, parent: RecordId, generation: nat) {
    forall i :: 0 <= i < |records| ==> IsStored(m, records, parent, generation, i)
  }

  // ---------------------------------------------------------------- names keep parents apart

  ghost predicate IsNameFor(id: RecordId, parent: RecordId) {
    ValidParent(parent) && exists n: nat :: id == ChunkRecordId(parent, n)
  }

  lemma NamesDiffer(id: RecordId, p: RecordId, q: RecordId)
    requires IsNameFor(id, p) && IsNameFor(id, q)
    ensures p == q
  {
    var m: nat :| id == ChunkRecordId(p, m);
    var n: nat :| id == ChunkRecordId(q, n);
    ChunkIdsInjective(p, m, q, n);
  }

  // Every chunk carries one of the names that are derived from its parent.
  ghost predicate WellNamed<V>(m: Versions<Stored<V>>) {
    forall id, q :: id in m && BelongsTo(m[id], q) ==> IsNameFor(id, q)
  }

  ghost predicate NamedAfter(ids: set<RecordId>, parent: RecordId) {
    forall id :: id in ids ==> IsNameFor(id, parent)
  }

  // With derived names no other document loses a chunk, and the names stay derived ones.
  lemma OtherParentsUnchanged<V>(before: Versions<Stored<V>>, after: Versions<Stored<V>>, parent: RecordId,
                                 ids: set<RecordId>)
    requires ReplacedBy(before, after, parent, ids)
    requires WellNamed(before) && NamedAfter(ids, parent)
    ensures forall q :: q != parent ==> Visible(after, q) == Visible(before, q)
    ensures WellNamed(after)
  {
    forall q | q != parent
      ensures Visible(after, q) == Visible(before, q)
    {
      forall id | id in Visible(before, q)
        ensures id !in ids
      {
        assert BelongsTo(before[id], q);
        if id in ids {
          NamesDiffer(id, q, parent);
        }
      }
    }
    StaysWellNamed(before, after, parent, ids);
  }

  lemma StaysWellNamed<V>(before: Versions<Stored<V>>, after: Versions<Stored<V>>, parent: RecordId,
                          ids: set<RecordId>)
    requires ReplacedBy(before, after, parent, ids)
    requires WellNamed(before) && NamedAfter(ids, parent)
    ensures WellNamed(after)
  {
    forall id, q | id in after && BelongsTo(after[id], q)
      ensures IsNameFor(id, q)
    {
      assert id in Visible(after, q);
      if q == parent {
        assert id in ids;
      } else {
        assert id in Visible(before, q) && BelongsTo(before[id], q);
      }
    }
  }

  lemma AppendKeepsOrder<V>(sealed: seq<Entry<Stored<V>>>, mutable: seq<Entry<Stored<V>>>,
                            batch: seq<Entry<Stored<V>>>, next: nat)
    requires Increasing(mutable) && Numbered(batch, next)
    requires forall e :: e in sealed + mutable ==> e.sequence < next
    ensures Increasing(mutable + batch) && sealed + (mutable + batch) == sealed + mutable + batch
    ensures forall e :: e in sealed + mutable + batch ==> e.sequence < next + |batch|
  {
    forall i | 0 <= i < |mutable|
      ensures mutable[i].sequence < next
    {
      assert mutable[i] in sealed + mutable;
    }
    forall e | e in sealed + mutable + batch
      ensures e.sequence < next + |batch|
    {
      if e !in batch {
        assert e in sealed + mutable;
      }
    }
  }

  lemma SealedSegment<V>(segments: seq<Segment<Stored<V>>>, mutable: seq<Entry<Stored<V>>>,
                         recent: Segment<Stored<V>>, collection: string, next: nat)
    requires Latest(Entries([recent], collection)) == Latest(mutable)
    requires forall e :: e in Entries(segments, collection) + mutable ==> e.sequence < next
    ensures var all := Entries(segments + [recent], collection) + [];
            && Latest(all) == Latest(Entries(segments, collection) + mutable)
            && forall e :: e in all ==> e.sequence < next
  {
    assert Entries(segments + [recent], collection) + [] == Entries(segments + [recent], collection);
    EntriesOfConcatenation(segments, [recent], collection);
    LatestOfConcatenation(Entries(segments, collection), Entries([recent], collection));
    LatestOfConcatenation(Entries(segments, collection), mutable);
    FoldGivesLatest(mutable);
    FoldGivesLatest(Entries([recent], collection));
  }

  method WithSealed<V(==)>(segments: seq<Segment<Stored<V>>>, mutable: seq<Entry<Stored<V>>>, collection: string,
                           ghost next: nat)
    returns (all: seq<Segment<Stored<V>>>)
    requires mutable != [] && Increasing(mutable)
    requires forall e :: e in Entries(segments, collection) + mutable ==> e.sequence < next
    ensures Latest(Entries(all, collection) + []) == Latest(Entries(segments, collection) + mutable)
    ensures forall e :: e in Entries(all, collection) + [] ==> e.sequence < next
  {
    var sealed := FromMutations(MutationsOf(collection, mutable));
    SealedSegment(segments, mutable, sealed.value, collection, next);
    all := segments + [sealed.value];
  }

  // ---------------------------------------------------------------- the collection

  // The smallest sequence number, from 1 on, that is larger than those of all entries.
  function AfterAll<T>(entries: seq<Entry<T>>): (next: nat)
    ensures next > 0 && forall e :: e in entries ==> e.sequence < next
    ensures next > 1 ==> exists e :: e in entries && e.sequence + 1 == next
  {
    if entries == [] then 1
    else
      var init, last := entries[..|entries| - 1], entries[|entries| - 1];
      assert entries == init + [last];
      var next := AfterAll(init);
      if last.sequence < next then next else last.sequence + 1
  }

  function ChunkNames(parent: RecordId, n: nat): (ids: seq<RecordId>)
    requires ValidParent(parent)
    ensures |ids| == n && forall i :: 0 <= i < n ==> ids[i] == ChunkRecordId(parent, i)
  {
    seq(n, i requires 0 <= i < n => ChunkRecordId(parent, i))
  }

  lemma ChunkNamesAreGood(parent: RecordId, n: nat)
    requires ValidParent(parent)
    ensures NoRepeats(ChunkNames(parent, n)) && NamedAfter(Ids(ChunkNames(parent, n)), parent)
  {
    var ids := ChunkNames(parent, n);
    forall i, j | 0 <= i < j < n
      ensures ids[i] != ids[j]
    {
      if ids[i] == ids[j] {
        ChunkIdsInjective(parent, i, parent, j);
      }
    }
    forall id | id in Ids(ids)
      ensures IsNameFor(id, parent)
    {
      var i :| 0 <= i < n && ids[i] == id;
      assert id == ChunkRecordId(parent, i);
    }
  }

  function ChunkTexts(chunks: seq<TextChunk>): (texts: seq<string>)
    ensures |texts| == |chunks| && forall i :: 0 <= i < |texts| ==> texts[i] == chunks[i].text
  {
    seq(|chunks|, i requires 0 <= i < |chunks| => chunks[i].text)
  }

  // The stored chunks of a document: one for each vector, under their derived names.
  ghost predicate DocumentStored<V>(m: Versions<Stored<V>>, parent: RecordId, vectors: seq<V>, metadata: Metadata,
                                    generation: nat)
    requires ValidParent(parent)
  {
    && Visible(m, parent) == Ids(ChunkNames(parent, |vectors|))
    && forall i :: 0 <= i < |vectors| ==> ChunkStored(m, parent, vectors[i], metadata, i, generation)
  }

  ghost predicate ChunkStored<V>(m: Versions<Stored<V>>, parent: RecordId, vector: V, metadata: Metadata, i: nat,
                                 generation: nat)
    requires ValidParent(parent)
  {
    var id := ChunkRecordId(parent, i);
    var key := match parent
               case StringId(value) => ParentKey("string", value)
               case Unsigned(value) => ParentKey("u64", Decimal(value));
    id in m && m[id] == Entry(id, generation + i, Some(Stored(vector, metadata, Some(key), generation)))
  }

  // What the cache may answer for these chunks: vectors of texts with the same keys.
  ghost predicate VectorsFor<V>(chunks: seq<TextChunk>, vectors: seq<V>, keyOf: string -> Key, embed: string -> V) {
    && |vectors| == |chunks|
    && forall i :: 0 <= i < |chunks| ==> IsVectorFor(keyOf(chunks[i].text), vectors[i], keyOf, embed)
  }

  lemma VectorsAreExact<V>(chunks: seq<TextChunk>, vectors: seq<V>, keyOf: string -> Key, embed: string -> V)
    requires VectorsFor(chunks, vectors, keyOf, embed) && DependsOnKey(ChunkTexts(chunks), keyOf, embed)
    ensures vectors == Mapped(ChunkTexts(chunks), embed)
  {
    forall i | 0 <= i < |chunks|
      ensures vectors[i] == embed(chunks[i].text)
    {
      assert IsVectorFor(keyOf(chunks[i].text), vectors[i], keyOf, embed);
      assert ChunkTexts(chunks)[i] in ChunkTexts(chunks);
    }
  }

  lemma DocumentIsStored<V>(m: Versions<Stored<V>>, records: seq<Pending<V>>, parent: RecordId, vectors: seq<V>,
                            metadata: Metadata, generation: nat)
    requires ValidParent(parent) && |records| == |vectors|
    requires forall i :: 0 <= i < |vectors| ==> records[i] == Pending(ChunkRecordId(parent, i), vectors[i], metadata)
    requires StoredAs(m, records, parent, generation)
    requires Visible(m, parent) == Ids(ChunkNames(parent, |vectors|))
    ensures DocumentStored(m, parent, vectors, metadata, generation)
  {
    forall i | 0 <= i < |vectors|
      ensures ChunkStored(m, parent, vectors[i], metadata, i, generation)
    {
      assert IsStored(m, records, parent, generation, i);
    }
  }

  // A batch has been applied to these entries, with this outcome.
  ghost predicate TookEffect<V>(batch: seq<Entry<Stored<V>>>, before: seq<Entry<Stored<V>>>, after: Versions<Stored<V>>,
                                parent: RecordId, ids: set<RecordId>)
  {
    after == Latest(before + batch) && Newer(batch, before) && ReplacedBy(Latest(before), after, parent, ids)
  }

  class Runtime<V(==)> {
    const collection: string
    const configured: bool
    const sealThreshold: nat
    // Whether every file operation and every embedding succeeds.
    const healthy: bool
    const validVector: V -> bool
    const embed: string -> V
    const maxBatchInputs: nat
    const isSpace: char -> bool
    // The cache of vectors and its keys, and whether other requests leave it alone.
    const cache: Cache<Key, V>
    const keyOf: string -> Key
    const alone: bool

    var segments: seq<Segment<Stored<V>>>
    var mutable: seq<Entry<Stored<V>>>
    var hasWal: bool
    var nextSequence: nat

    // All versions there are, sealed ones first.
    ghost function All(): seq<Entry<Stored<V>>>
      reads this
    {
      Entries(segments, collection) + mutable
    }

    ghost function State(): Versions<Stored<V>>
      reads this
    {
      Latest(All())
    }

    ghost predicate Valid()
      reads this
    {
      Increasing(mutable) && forall e :: e in All() ==> e.sequence < nextSequence
    }

    ghost predicate CacheGood()
      reads this, cache
    {
      cache.Valid() && Correct(cache.entries, keyOf, embed)
    }

    constructor (collection: string, configured: bool, sealThreshold: nat, healthy: bool, validVector: V -> bool,
                 embed: string -> V, maxBatchInputs: nat, isSpace: char -> bool, cache: Cache<Key, V>,
                 keyOf: string -> Key, alone: bool,
                 segments: seq<Segment<Stored<V>>>, mutable: seq<Entry<Stored<V>>>)
      requires Increasing(mutable)
      ensures Valid() && State() == Latest(Entries(segments, collection) + mutable)
    {
      this.collection, this.configured := collection, configured;
      this.sealThreshold, this.healthy := sealThreshold, healthy;
      this.validVector, this.embed, this.maxBatchInputs, this.isSpace := validVector, embed, maxBatchInputs, isSpace;
      this.cache, this.keyOf, this.alone := cache, keyOf, alone;
      this.segments, this.mutable, this.hasWal := segments, mutable, configured;
      this.nextSequence := AfterAll(Entries(segments, collection) + mutable);
    }

    method Succeeds() returns (ok: bool)
      ensures healthy ==> ok
    {
      ok := *;
      if healthy { ok := true; }
    }

    method QuerySegments() returns (r: Result<seq<Segment<Stored<V>>>, SegmentError>)
      requires Valid()
      ensures r.Ok? && Latest(Entries(r.value, collection)) == State()
    {
      if mutable == [] {
        assert All() == Entries(segments, collection);
        return Ok(segments);
      }
      var sealed := FromMutations(MutationsOf(collection, mutable));
      var recent := sealed.value;
      EntriesOfConcatenation(segments, [recent], collection);
      LatestOfConcatenation(Entries(segments, collection), Entries([recent], collection));
      LatestOfConcatenation(Entries(segments, collection), mutable);
      r := Ok(segments + [recent]);
    }

    method VisibleParentChunkIds(parent: RecordId) returns (r: Result<set<RecordId>, SegmentError>)
      requires Valid()
      ensures r == Ok(Visible(State(), parent))
      ensures r.value == set id | id in State() && State()[id].value.Some?
                                  && State()[id].value.value.parent == Some(KeyOf(parent))
    {
      var visible := QuerySegments();
      var latest := FoldSegments(visible.value, collection);
      var ids := SelectChunks(latest, parent);
      r := Ok(ids);
    }

    // Sealing moves the recent mutations into a segment. It may fail before or after that.
    method SealCollection() returns (ok: bool)
      requires Valid()
      modifies this`segments, this`mutable, this`hasWal
      ensures Valid() && State() == old(State())
      ensures ok ==> mutable == [] && configured && (old(mutable) != [] ==> hasWal)
      ensures !configured || old(mutable) == [] ==>
                ok == configured && segments == old(segments) && mutable == old(mutable) && hasWal == old(hasWal)
      ensures (hasWal ==> old(hasWal)) && mutable in {old(mutable), []}
      ensures healthy && configured && old(hasWal) ==> ok && hasWal
    {
      if !configured { return false; }
      if mutable == [] { return true; }
      var published := Succeeds();
      if !published { return false; }
      segments := WithSealed(segments, mutable, collection, nextSequence);
      mutable := [];
      var reopened := Succeeds();
      var reclaimed := Succeeds();
      hasWal := hasWal && reopened;
      ok := hasWal && reclaimed;
    }

    // The append either reaches the log as a whole or is reported; only then are readers affected.
    method Append(batch: seq<Entry<Stored<V>>>) returns (ok: bool)
      requires Valid() && Numbered(batch, nextSequence)
      modifies this`mutable, this`nextSequence
      ensures Valid()
      ensures ok ==> mutable == old(mutable) + batch
      ensures ok ==> hasWal && State() == Latest(old(All()) + batch) && nextSequence == old(nextSequence) + |batch|
      ensures !ok ==> mutable == old(mutable) && nextSequence == old(nextSequence)
      ensures healthy && hasWal ==> ok
    {
      var written := Succeeds();
      if !hasWal || !written { return false; }
      AppendKeepsOrder(Entries(segments, collection), mutable, batch, nextSequence);
      mutable, nextSequence := mutable + batch, nextSequence + |batch|;
      assert All() == old(All()) + batch;
      ok := true;
    }

    lemma BatchWillReplace(batch: seq<Entry<Stored<V>>>, parent: RecordId, ids: set<RecordId>)
      requires Valid() && Numbered(batch, nextSequence) && IsBatch(batch, State(), parent, ids)
      ensures TookEffect(batch, All(), Latest(All() + batch), parent, ids)
    {
      BatchReplaces(All(), batch, parent, ids);
    }

    // Appends a batch and seals the collection when it has become large enough. A failure to seal
    // is reported although the batch has taken effect; below the threshold there is none.
    method Submit(batch: seq<Entry<Stored<V>>>, ghost parent: RecordId, ghost ids: set<RecordId>)
      returns (failure: Option<ChunkingError>)
      requires Valid() && Numbered(batch, nextSequence) && IsBatch(batch, State(), parent, ids)
      modifies this`segments, this`mutable, this`hasWal, this`nextSequence
      ensures Valid()
      ensures failure in {None, Some(CollectionNotWritable), Some(WalFailed), Some(SealFailed)}
      ensures failure in {None, Some(SealFailed)} ==>
                TookEffect(batch, old(All()), State(), parent, ids) && nextSequence == old(nextSequence) + |batch|
      ensures failure !in {None, Some(SealFailed)} ==> State() == old(State()) && nextSequence == old(nextSequence)
      ensures old(|mutable|) + |batch| < sealThreshold ==> failure != Some(SealFailed)
      ensures failure == None ==>
                if old(|mutable|) + |batch| < sealThreshold
                then segments == old(segments) && mutable == old(mutable) + batch else mutable == []
      ensures failure == Some(CollectionNotWritable) <==> !old(hasWal)
      ensures healthy && configured && old(hasWal) ==> failure == None && hasWal
    {
      failure := AppendOrFail(batch, parent, ids);
      if failure.Some? { return; }
      failure := SealIfLarge();
    }

    method AppendOrFail(batch: seq<Entry<Stored<V>>>, ghost parent: RecordId, ghost ids: set<RecordId>)
      returns (failure: Option<ChunkingError>)
      requires Valid() && Numbered(batch, nextSequence) && IsBatch(batch, State(), parent, ids)
      modifies this`mutable, this`nextSequence
      ensures Valid()
      ensures failure in {None, Some(CollectionNotWritable), Some(WalFailed)}
      ensures failure == None ==> mutable == old(mutable) + batch && nextSequence == old(nextSequence) + |batch|
      ensures failure == None ==> TookEffect(batch, old(All()), State(), parent, ids)
      ensures failure == Some(CollectionNotWritable) <==> !hasWal
      ensures failure != None ==>
                State() == old(State()) && mutable == old(mutable) && nextSequence == old(nextSequence)
      ensures healthy && hasWal ==> failure == None
    {
      BatchWillReplace(batch, parent, ids);
      var appended := Append(batch);
      failure := if appended then None else Some(if hasWal then WalFailed else CollectionNotWritable);
    }

    method SealIfLarge() returns (failure: Option<ChunkingError>)
      requires Valid()
      modifies this`segments, this`mutable, this`hasWal
      ensures Valid() && State() == old(State())
      ensures failure in {None, Some(SealFailed)}
      ensures old(|mutable|) < sealThreshold ==>
                failure == None && hasWal == old(hasWal) && segments == old(segments) && mutable == old(mutable)
      ensures old(|mutable|) >= sealThreshold && failure == None ==> mutable == []
      ensures healthy && configured && old(hasWal) ==> failure == None && hasWal
    {
      if |mutable| < sealThreshold { return None; }
      var sealed := SealCollection();
      failure := if sealed then None else Some(SealFailed);
    }

    method AllValid(records: seq<Pending<V>>) returns (valid: bool)
      ensures valid <==> VectorsValid(records)
    {
      for i := 0 to |records|
        invariant forall k :: 0 <= k < i ==> validVector(records[k].vector)
      {
        if !validVector(records[i].vector) { return false; }
      }
      valid := true;
    }

    // Whether so many recent mutations, new chunks and deletions together make the collection seal.
    predicate Reached(recent: nat, chunks: nat, deleted: set<RecordId>) {
      recent + chunks + |deleted| >= sealThreshold
    }

    ghost predicate VectorsValid(records: seq<Pending<V>>) {
      forall k :: 0 <= k < |records| ==> validVector(records[k].vector)
    }

    method ReplaceParentChunks(parent: RecordId, records: seq<Pending<V>>, chunkIds: seq<RecordId>)
      returns (r: Result<Replaced, ChunkingError>)
      requires Valid() && chunkIds == Names(records)
      modifies this`segments, this`mutable, this`hasWal, this`nextSequence
      ensures Valid()
      ensures r.Ok? || r.error in {CollectionNotWritable, InvalidVector, WalFailed, SealFailed}
      ensures r.Ok? || r.error == SealFailed ==>
                && ReplacedBy(old(State()), State(), parent, Ids(chunkIds))
                && (NoRepeats(chunkIds) ==> StoredAs(State(), records, parent, old(nextSequence)))
                && VectorsValid(records)
      ensures r.Err? && r.error != SealFailed ==> State() == old(State()) && nextSequence == old(nextSequence)
      ensures r == Err(InvalidVector) <==> configured && !VectorsValid(records)
      ensures r == Err(CollectionNotWritable) <==> !configured || (VectorsValid(records) && !old(hasWal))
      ensures r.Ok? ==>
                && r.value.chunkIds == chunkIds && r.value.generation == old(nextSequence)
                && |r.value.sequences| == |chunkIds|
                && (forall i :: 0 <= i < |chunkIds| ==> r.value.sequences[i] == r.value.generation + i)
                && r.value.reconciled == |Visible(old(State()), parent) - Ids(chunkIds)|
                && nextSequence == old(nextSequence) + |chunkIds| + r.value.reconciled
      // While the recent mutations stay below the threshold, an error means that nothing has changed.
      ensures Reached(old(|mutable|), |records|, Visible(old(State()), parent) - Ids(chunkIds)) || r != Err(SealFailed)
      ensures r.Ok? ==>
                if Reached(old(|mutable|), |records|, Visible(old(State()), parent) - Ids(chunkIds)) then mutable == []
                else segments == old(segments) && |mutable| == old(|mutable|) + |chunkIds| + r.value.reconciled
      ensures healthy && configured && old(hasWal) ==>
                (r.Ok? <==> VectorsValid(records))
    {
      if !configured { return Err(CollectionNotWritable); }
      var previous := VisibleParentChunkIds(parent);
      var obsolete := previous.value - Ids(chunkIds);
      var generation := nextSequence;
      var valid := AllValid(records);
      if !valid { return Err(InvalidVector); }
      var failure, sequences := SubmitReplacement(parent, records, obsolete);
      r := if failure.Some? then Err(failure.value)
           else Ok(Replaced(chunkIds, sequences, generation, |obsolete|));
    }

    // Submits the new chunks together with the deletions of the obsolete ones.
    method SubmitReplacement(parent: RecordId, records: seq<Pending<V>>, obsolete: set<RecordId>)
      returns (failure: Option<ChunkingError>, sequences: seq<nat>)
      requires Valid() && obsolete == Visible(State(), parent) - Ids(Names(records))
      modifies this`segments, this`mutable, this`hasWal, this`nextSequence
      ensures Valid()
      ensures failure in {None, Some(CollectionNotWritable), Some(WalFailed), Some(SealFailed)}
      ensures failure in {None, Some(SealFailed)} ==>
                && ReplacedBy(old(State()), State(), parent, Ids(Names(records)))
                && (NoRepeats(Names(records)) ==> StoredAs(State(), records, parent, old(nextSequence)))
                && nextSequence == old(nextSequence) + |records| + |obsolete|
      ensures failure !in {None, Some(SealFailed)} ==> State() == old(State()) && nextSequence == old(nextSequence)
      ensures |sequences| == |records| && Consecutive(sequences, old(nextSequence))
      ensures Reached(old(|mutable|), |records|, obsolete) || failure != Some(SealFailed)
      ensures failure == None ==>
                if Reached(old(|mutable|), |records|, obsolete) then mutable == []
                else segments == old(segments) && |mutable| == old(|mutable|) + |records| + |obsolete|
      ensures failure == Some(CollectionNotWritable) <==> !old(hasWal)
      ensures healthy && configured && old(hasWal) ==> failure == None
    {
      var generation := nextSequence;
      var upserts, numbers := Upserts(records, parent, generation);
      sequences := numbers;
      var deletes, _ := Deletes(obsolete, generation + |records|);
      IsReplacement(upserts, deletes, State(), records, parent, generation);
      ghost var entries := All();
      failure := Submit(upserts + deletes, parent, Ids(Names(records)));
      if failure in {None, Some(SealFailed)} && NoRepeats(Names(records)) {
        NewChunksAreStored(entries, upserts, deletes, records, parent, generation);
      }
    }

    method DeleteParentDocument(parent: RecordId) returns (r: Result<seq<nat>, ChunkingError>)
      requires Valid()
      modifies this`segments, this`mutable, this`hasWal, this`nextSequence
      ensures Valid()
      ensures r.Ok? || r.error in {CollectionNotWritable, WalFailed, SealFailed}
      ensures r.Ok? || r.error == SealFailed ==> ReplacedBy(old(State()), State(), parent, {})
      ensures r.Err? && r.error != SealFailed ==> State() == old(State()) && nextSequence == old(nextSequence)
      ensures r == Err(CollectionNotWritable) <==>
                !configured || (Visible(old(State()), parent) != {} && !old(hasWal))
      ensures r.Ok? ==> |r.value| == |Visible(old(State()), parent)|
      ensures r.Ok? ==> forall i :: 0 <= i < |r.value| ==> r.value[i] == old(nextSequence) + i
      ensures r.Ok? ==> nextSequence == old(nextSequence) + |r.value|
      ensures Reached(old(|mutable|), 0, Visible(old(State()), parent)) || r != Err(SealFailed)
      ensures r.Ok? && r.value != [] ==>
                if Reached(old(|mutable|), 0, Visible(old(State()), parent)) then mutable == []
                else segments == old(segments) && |mutable| == old(|mutable|) + |r.value|
      ensures healthy && configured && old(hasWal) ==> r.Ok?
    {
      if !configured { return Err(CollectionNotWritable); }
      var visible := VisibleParentChunkIds(parent);
      if visible.value == {} { return Ok([]); }
      var deletes, sequences := Deletes(visible.value, nextSequence);
      var failure := Submit(deletes, parent, {});
      r := if failure.Some? then Err(failure.value) else Ok(sequences);
    }

    // A whole document: its text is cut into chunks, these are embedded through the cache and take the
    // place of all chunks the document had.
    method ChunkEmbedAndUpsert(parent: RecordId, text: string, metadata: Metadata, config: ChunkingConfig,
                               schema: Option<Option<ChunkingConfig>>)
      returns (r: Result<Replaced, ChunkingError>, ghost chunks: seq<TextChunk>, ghost vectors: seq<V>)
      requires Valid() && CacheGood() && ValidParent(parent)
      modifies this`segments, this`mutable, this`hasWal, this`nextSequence, cache`entries, cache`order
      ensures Valid() && CacheGood()
      ensures !Accepts(text, metadata, config, schema) <==>
                r.Err? && Rejects(r.error, text, metadata, config, schema)
      ensures Accepts(text, metadata, config, schema) ==> IsChunking(chunks, text, config)
      ensures r.Ok? || r.error == SealFailed ==>
                && Accepts(text, metadata, config, schema) && VectorsFor(chunks, vectors, keyOf, embed)
                && (alone ==> vectors == Answers(ChunkTexts(chunks), old(cache.entries), keyOf, embed))
                && (DependsOnKey(ChunkTexts(chunks), keyOf, embed) ==>
                      vectors == Mapped(ChunkTexts(chunks), embed))
                && DocumentStored(State(), parent, vectors, metadata, old(nextSequence))
                && ReplacedBy(old(State()), State(), parent, Visible(State(), parent))
      ensures r.Ok? || r.error == SealFailed ==> old(WellNamed(State())) ==>
                && WellNamed(State())
                && (forall q :: q != parent ==> Visible(State(), q) == Visible(old(State()), q))
      ensures r.Err? && r.error != SealFailed ==> State() == old(State()) && nextSequence == old(nextSequence)
      ensures Reached(old(|mutable|), |chunks|, Visible(old(State()), parent) - Ids(ChunkNames(parent, |chunks|)))
              || r != Err(SealFailed)
      ensures healthy && configured && old(hasWal) ==>
                (r.Ok? <==> && Accepts(text, metadata, config, schema) && VectorsFor(chunks, vectors, keyOf, embed)
                            && forall i :: 0 <= i < |vectors| ==> validVector(vectors[i]))
      ensures healthy && Accepts(text, metadata, config, schema) ==> VectorsFor(chunks, vectors, keyOf, embed)
    {
      chunks, vectors := [], [];
      var checked := CheckDocument(text, metadata, config, schema);
      if checked.Err? { return Err(checked.error), chunks, vectors; }
      var pieces := ChunkText(text, config);
      chunks := pieces;
      var embedded, _ := EmbedTextsCached(cache, ChunkTexts(pieces), maxBatchInputs, keyOf, embed, healthy, alone);
      if embedded.Err? { return Err(EmbeddingFailed), chunks, vectors; }
      vectors := embedded.value;
      VectorsOfChunks(pieces, vectors);
      r := StoreDocument(parent, embedded.value, metadata);
    }

    ghost predicate Accepts(text: string, metadata: Metadata, config: ChunkingConfig,
                            schema: Option<Option<ChunkingConfig>>)
    {
      && Validate(config).Ok? && !IsBlank(text, isSpace) && schema in {None, Some(Some(config))}
      && EMBEDDING_METADATA_KEY !in metadata && CHUNK_METADATA_KEY !in metadata
    }

    // With which error a document is refused before anything is embedded.
    ghost predicate Rejects(e: ChunkingError, text: string, metadata: Metadata, config: ChunkingConfig,
                            schema: Option<Option<ChunkingConfig>>)
    {
      var fits := config.overlapChars < config.maxChars;
      var blank := forall i :: 0 <= i < |text| ==> isSpace(text[i]);
      var reserved := "_ketebe_embedding" in metadata || "_ketebe_chunk" in metadata;
      match e
      case InvalidConfig => !fits
      case EmptyText => fits && blank
      case ReservedMetadata => fits && !blank && reserved
      case SchemaMismatch => fits && !blank && !reserved && schema.Some? && schema.value != Some(config)
      case _ => false
    }

    method CheckDocument(text: string, metadata: Metadata, config: ChunkingConfig,
                         schema: Option<Option<ChunkingConfig>>)
      returns (r: Result<(), ChunkingError>)
      ensures r.Ok? <==> Accepts(text, metadata, config, schema)
      ensures r.Err? ==> Rejects(r.error, text, metadata, config, schema)
    {
      var valid := Validate(config);
      if valid.Err? { return Err(valid.error); }
      if IsBlank(text, isSpace) { return Err(EmptyText); }
      if EMBEDDING_METADATA_KEY in metadata || CHUNK_METADATA_KEY in metadata { return Err(ReservedMetadata); }
      if schema.Some? && schema.value != Some(config) { return Err(SchemaMismatch); }
      r := Ok(());
    }

    lemma VectorsOfChunks(chunks: seq<TextChunk>, vectors: seq<V>)
      requires |vectors| == |chunks|
      requires forall i :: 0 <= i < |chunks| ==> IsVectorFor(keyOf(ChunkTexts(chunks)[i]), vectors[i], keyOf, embed)
      ensures VectorsFor(chunks, vectors, keyOf, embed)
      ensures DependsOnKey(ChunkTexts(chunks), keyOf, embed) ==>
                vectors == Mapped(ChunkTexts(chunks), embed)
    {
      if DependsOnKey(ChunkTexts(chunks), keyOf, embed) {
        VectorsAreExact(chunks, vectors, keyOf, embed);
      }
    }

    // Stores one chunk for each vector in place of all chunks the document had.
    method StoreDocument(parent: RecordId, vectors: seq<V>, metadata: Metadata)
      returns (r: Result<Replaced, ChunkingError>)
      requires Valid() && ValidParent(parent)
      modifies this`segments, this`mutable, this`hasWal, this`nextSequence
      ensures Valid()
      ensures r.Ok? || r.error in {CollectionNotWritable, InvalidVector, WalFailed, SealFailed}
      ensures r.Ok? || r.error == SealFailed ==>
                && DocumentStored(State(), parent, vectors, metadata, old(nextSequence))
                && ReplacedBy(old(State()), State(), parent, Visible(State(), parent))
      ensures r.Ok? || r.error == SealFailed ==> old(WellNamed(State())) ==>
                && WellNamed(State())
                && (forall q :: q != parent ==> Visible(State(), q) == Visible(old(State()), q))
      ensures r.Err? && r.error != SealFailed ==> State() == old(State()) && nextSequence == old(nextSequence)
      ensures Reached(old(|mutable|), |vectors|, Visible(old(State()), parent) - Ids(ChunkNames(parent, |vectors|)))
              || r != Err(SealFailed)
      ensures healthy && configured && old(hasWal) ==>
                (r.Ok? <==> forall i :: 0 <= i < |vectors| ==> validVector(vectors[i]))
    {
      var names := ChunkNames(parent, |vectors|);
      var records := seq(|vectors|, i requires 0 <= i < |vectors| => Pending(names[i], vectors[i], metadata));
      assert Names(records) == names;
      ChunkNamesAreGood(parent, |vectors|);
      ghost var before := State();
      r := ReplaceParentChunks(parent, records, names);
      if r.Ok? || r.error == SealFailed {
        if WellNamed(before) {
          OtherParentsUnchanged(before, State(), parent, Ids(names));
        }
        DocumentIsStored(State(), records, parent, vectors, metadata, old(nextSequence));
      }
    }
  }
}
