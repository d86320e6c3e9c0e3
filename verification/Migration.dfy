/** The staged snapshot of an embedding migration and the incremental catch-up that refreshes it
    (crates/ketebe-server/src/embedding_migration.rs). */
module Migration {
  import opened Wrappers
  import opened Collections
  import opened Store
  import opened EmbeddingCache
  import opened CachedEmbedding
  import opened CacheRequests

  // A vector of finite coordinates, of which only equality matters here.
  type Vector = seq<real>

  // What a state file, a snapshot and a journal must agree on.
  datatype Identity = Identity(source: string, target: string, provider: string, model: string, modelVersion: string)

  // A live record under managed embedding: its version, the profile that produced its vector, and
  // the text it was embedded from if the metadata retains it.
  datatype Record = Record(sequence: nat, profile: Option<string>, vector: Vector, text: Option<string>)

  type Records = map<RecordId, Record>

  datatype Staged = Staged(id: RecordId, sequence: nat, vector: Vector)

  // The target provider: the vector that a text is embedded as, if the provider can be reached, and
  // the key under which the cache of vectors keeps it.
  datatype Provider = Provider(embed: string -> Vector, keyOf: string -> Key)

  datatype StagingError = MissingSourceText(id: RecordId) | ProviderFailed

  // `ids` lists the live records, each once.
  ghost predicate Lists(ids: seq<RecordId>, records: Records) {
    && (forall i, j :: 0 <= i < j < |ids| ==> ids[i] != ids[j])
    && (forall id :: id in ids <==> id in records)
  }

  predicate DistinctIds(staged: seq<Staged>) {
    forall i, j :: 0 <= i < j < |staged| ==> staged[i].id != staged[j].id
  }

  function StagedIds(staged: seq<Staged>): set<RecordId> {
    set s | s in staged :: s.id
  }

  // ---------------------------------------------------------------- staging

  // The entry for a record whose text the provider is asked to embed.
  function StageFresh(id: RecordId, r: Record, provider: Provider): Result<Staged, StagingError> {
    match r.text
    case None => Err(MissingSourceText(id))
    case Some(text) => Ok(Staged(id, r.sequence, provider.embed(text)))
  }

  // The entry is for the current version of the record and holds what the cache may answer for its
  // text: the vector of a text with the same key.
  ghost predicate IsStagedFor(s: Staged, r: Record, provider: Provider) {
    && s.sequence == r.sequence && r.text.Some?
    && IsVectorFor(provider.keyOf(r.text.value), s.vector, provider.keyOf, provider.embed)
  }

  lemma FreshIsStaged(id: RecordId, r: Record, provider: Provider)
    requires r.text.Some?
    ensures IsStagedFor(StageFresh(id, r, provider).value, r, provider)
  {
    var text := r.text.value;
    assert provider.keyOf(text) == provider.keyOf(text) && provider.embed(text) == provider.embed(text);
  }

  // What a build from nothing stages: every listed record at its current version.
  function Rebuild(ids: seq<RecordId>, records: Records, provider: Provider): Result<seq<Staged>, StagingError>
    requires forall id :: id in ids ==> id in records
  {
    if ids == [] then Ok([])
    else
      match Rebuild(ids[..|ids| - 1], records, provider)
      case Err(e) => Err(e)
      case Ok(init) =>
        var id := ids[|ids| - 1];
        match StageFresh(id, records[id], provider)
        case Err(e) => Err(e)
        case Ok(s) => Ok(init + [s])
  }

  // A build stages one entry per record: its version, and the embedding of its text.
  lemma {:induction false} RebuildStagesEachRecord(ids: seq<RecordId>, records: Records, provider: Provider)
    requires forall id :: id in ids ==> id in records
    requires Rebuild(ids, records, provider).Ok?
    ensures var staged := Rebuild(ids, records, provider).value;
            && |staged| == |ids|
            && forall i :: 0 <= i < |ids| ==>
                 && records[ids[i]].text.Some?
                 && staged[i] == Staged(ids[i], records[ids[i]].sequence, provider.embed(records[ids[i]].text.value))
  {
    if ids != [] {
      RebuildStagesEachRecord(ids[..|ids| - 1], records, provider);
    }
  }

  // When a build succeeds or fails does not depend on the provider's vectors.
  lemma {:induction false} RebuildSucceedsIff(ids: seq<RecordId>, records: Records, provider: Provider)
    requires forall id :: id in ids ==> id in records
    ensures Rebuild(ids, records, provider).Ok? <==> forall id :: id in ids ==> records[id].text.Some?
    ensures Rebuild(ids, records, provider).Err? ==>
              var e := Rebuild(ids, records, provider).error;
              e.MissingSourceText? && e.id in ids && records[e.id].text == None
  {
    if ids != [] {
      assert ids == ids[..|ids| - 1] + [ids[|ids| - 1]];
      RebuildSucceedsIff(ids[..|ids| - 1], records, provider);
    }
  }

  // A refresh has made `after` of the snapshot `before`.
  ghost predicate Refreshed(records: Records, before: seq<Staged>, after: seq<Staged>, provider: Provider) {
    exists ids :: Lists(ids, records) && Stages(ids, records, after, provider) && Keeps(ids, records, before, after)
  }

  // Entries for just these records, in this order, each as the provider or the cache may have made it.
  ghost predicate Stages(ids: seq<RecordId>, records: Records, staged: seq<Staged>, provider: Provider)
    requires forall id :: id in ids ==> id in records
  {
    && |staged| == |ids|
    && forall i :: 0 <= i < |ids| ==> staged[i].id == ids[i] && IsStagedFor(staged[i], records[ids[i]], provider)
  }

  lemma RebuildStages(ids: seq<RecordId>, records: Records, provider: Provider)
    requires (forall id :: id in ids ==> id in records) && Rebuild(ids, records, provider).Ok?
    ensures Stages(ids, records, Rebuild(ids, records, provider).value, provider)
  {
    RebuildStagesEachRecord(ids, records, provider);
    forall i | 0 <= i < |ids|
      ensures IsStagedFor(Rebuild(ids, records, provider).value[i], records[ids[i]], provider)
    {
      FreshIsStaged(ids[i], records[ids[i]], provider);
    }
  }

  // An entry whose version is still current holds an embedding of the current text.
  ghost predicate Sound(staged: seq<Staged>, records: Records, provider: Provider) {
    forall s :: s in staged && s.id in records && records[s.id].sequence == s.sequence
      ==> IsStagedFor(s, records[s.id], provider)
  }

  // The snapshot holds the current version of a record.
  predicate UpToDate(id: RecordId, records: Records, snapshot: seq<Staged>)
    requires id in records
  {
    exists s :: s in snapshot && s.id == id && s.sequence == records[id].sequence
  }

  // The ids whose entries a catch-up adds, refreshes or drops.
  function Reconciled(records: Records, snapshot: seq<Staged>): set<RecordId> {
    (set id | id in records && !UpToDate(id, records, snapshot)) + (StagedIds(snapshot) - records.Keys)
  }

  lemma ReconciledMeans(records: Records, snapshot: seq<Staged>, id: RecordId)
    ensures id in Reconciled(records, snapshot) <==>
            if id in records then forall s :: s in snapshot && s.id == id ==> s.sequence != records[id].sequence
            else exists s :: s in snapshot && s.id == id
  {
  }

  method IndexById(staged: seq<Staged>) returns (byId: map<RecordId, Staged>)
    requires DistinctIds(staged)
    ensures byId.Keys == StagedIds(staged) && Indexes(byId, staged)
  {
    byId := map[];
    for i := 0 to |staged|
      invariant forall id :: id in byId ==> byId[id].id == id && byId[id] in staged[..i]
      invariant forall j :: 0 <= j < i ==> staged[j].id in byId && byId[staged[j].id] == staged[j]
    {
      byId := byId[staged[i].id := staged[i]];
    }
    assert staged[..|staged|] == staged;
  }

  function Changed(ids: seq<RecordId>, records: Records, snapshot: seq<Staged>): set<RecordId>
    requires forall id :: id in ids ==> id in records
  {
    set id | id in ids && !UpToDate(id, records, snapshot)
  }

  lemma ChangedNext(ids: seq<RecordId>, i: nat, records: Records, snapshot: seq<Staged>)
    requires Lists(ids, records) && i < |ids|
    ensures |Changed(ids[..i + 1], records, snapshot)| ==
            |Changed(ids[..i], records, snapshot)| + if UpToDate(ids[i], records, snapshot) then 0 else 1
  {
    var now, next := Changed(ids[..i], records, snapshot), Changed(ids[..i + 1], records, snapshot);
    assert ids[..i + 1] == ids[..i] + [ids[i]];
    assert ids[i] !in ids[..i];
    if UpToDate(ids[i], records, snapshot) {
      assert next == now;
    } else {
      assert next == now + {ids[i]};
    }
  }

  // Asks the cache, and the provider if that has nothing.
  function Ask(c: Lru<Key, Vector>, capacity: nat, text: string, provider: Provider): (Vector, Lru<Key, Vector>) {
    var k := provider.keyOf(text);
    if k in c.entries then (c.entries[k], AfterGet(c, k))
    else (provider.embed(text), AfterInsert(c, capacity, k, provider.embed(text)))
  }

  lemma AskHits(c: Lru<Key, Vector>, capacity: nat, text: string, sent: seq<string>, provider: Provider)
    requires provider.keyOf(text) in c.entries
    requires Mapped(sent, provider.keyOf) == Misses([provider.keyOf(text)], c.entries)
    ensures sent == [] && AfterGets(c, [provider.keyOf(text)]) == Ask(c, capacity, text, provider).1
  {
    var k := provider.keyOf(text);
    assert [k][..0] == [] && Misses<Key, Vector>([], c.entries) == [] && AfterGets(c, []) == c;
    assert |Mapped(sent, provider.keyOf)| == 0;
  }

  lemma AskMisses(c: Lru<Key, Vector>, capacity: nat, text: string, sent: seq<string>, provider: Provider)
    requires provider.keyOf(text) !in c.entries && forall t :: t in sent ==> t == text
    requires Mapped(sent, provider.keyOf) == Misses([provider.keyOf(text)], c.entries)
    ensures sent == [text] && AfterGets(c, [provider.keyOf(text)]) == c
    ensures AfterInserts(c, capacity, [provider.keyOf(text)], [provider.embed(text)])
            == Ask(c, capacity, text, provider).1
  {
    var k, v := provider.keyOf(text), provider.embed(text);
    assert [k][..0] == [] && [v][..0] == [] && AfterGets(c, []) == c && AfterInserts(c, capacity, [], []) == c;
    assert Misses<Key, Vector>([], c.entries) == [];
    assert |Mapped(sent, provider.keyOf)| == 1 && sent[0] in sent;
  }

  lemma AskIsRequest(c: Lru<Key, Vector>, capacity: nat, text: string, sent: seq<string>, provider: Provider)
    requires Mapped(sent, provider.keyOf) == Misses(Mapped([text], provider.keyOf), c.entries)
    requires forall t :: t in sent ==> t == text
    ensures var k := Mapped([text], provider.keyOf);
            AfterInserts(AfterGets(c, k), capacity, Mapped(sent, provider.keyOf),
                         Mapped(sent, provider.embed))
            == Ask(c, capacity, text, provider).1
    ensures Answers([text], c.entries, provider.keyOf, provider.embed) == [Ask(c, capacity, text, provider).0]
  {
    var k := provider.keyOf(text);
    assert Mapped([text], provider.keyOf) == [k] && KeyIn([text], provider.keyOf, 0) == k;
    if k in c.entries {
      AskHits(c, capacity, text, sent, provider);
    } else {
      AskMisses(c, capacity, text, sent, provider);
      assert Mapped([text], provider.embed) == [provider.embed(text)];
    }
  }

  // A request for one text through the cache.
  method EmbedOne(cache: Cache<Key, Vector>, text: string, provider: Provider, healthy: bool, alone: bool)
    returns (r: Result<Vector, StagingError>)
    requires cache.Valid() && Correct(cache.entries, provider.keyOf, provider.embed)
    modifies cache`entries, cache`order
    ensures cache.Valid() && Correct(cache.entries, provider.keyOf, provider.embed)
    ensures healthy ==> r.Ok?
    ensures r.Err? ==> r.error == ProviderFailed
    ensures r.Ok? ==> IsVectorFor(provider.keyOf(text), r.value, provider.keyOf, provider.embed)
    ensures alone && r.Ok? ==> (r.value, cache.Contents()) == Ask(old(cache.Contents()), cache.capacity, text, provider)
  {
    var vectors, sent := EmbedTextsCached(cache, [text], 1, provider.keyOf, provider.embed, healthy, alone);
    if vectors.Err? { return Err(ProviderFailed); }
    if alone {
      AskIsRequest(old(cache.Contents()), cache.capacity, text, sent, provider);
    }
    r := Ok(vectors.value[0]);
  }

  // What a refresh stages for one record, and for several, and what it leaves in the cache, if nobody
  // else uses the cache meanwhile.
  function RefreshOne(id: RecordId, records: Records, previous: map<RecordId, Staged>, c: Lru<Key, Vector>,
                      capacity: nat, provider: Provider): (Result<Staged, StagingError>, Lru<Key, Vector>)
    requires id in records
  {
    if IsCurrent(id, records, previous) then (Ok(previous[id]), c)
    else if records[id].text.None? then (Err(MissingSourceText(id)), c)
    else
      var (vector, after) := Ask(c, capacity, records[id].text.value, provider);
      (Ok(Staged(id, records[id].sequence, vector)), after)
  }

  function Refresh(ids: seq<RecordId>, records: Records, previous: map<RecordId, Staged>, c: Lru<Key, Vector>,
                   capacity: nat, provider: Provider): (Result<seq<Staged>, StagingError>, Lru<Key, Vector>)
    requires forall id :: id in ids ==> id in records
  {
    if ids == [] then (Ok([]), c)
    else
      var (staged, now) := Refresh(ids[..|ids| - 1], records, previous, c, capacity, provider);
      if staged.Err? then (staged, now)
      else
        var (entry, after) := RefreshOne(ids[|ids| - 1], records, previous, now, capacity, provider);
        (if entry.Err? then Err(entry.error) else Ok(staged.value + [entry.value]), after)
  }

  // The entry of the record before is that of its current version.
  predicate IsCurrent(id: RecordId, records: Records, previous: map<RecordId, Staged>)
    requires id in records
  {
    id in previous && previous[id].sequence == records[id].sequence
  }

  ghost predicate Indexes(previous: map<RecordId, Staged>, snapshot: seq<Staged>) {
    && (forall id :: id in previous ==> previous[id].id == id && previous[id] in snapshot)
    && (forall s :: s in snapshot ==> s.id in previous && previous[s.id] == s)
  }

  // What is current is kept as it was.
  ghost predicate Keeps(ids: seq<RecordId>, records: Records, snapshot: seq<Staged>, staged: seq<Staged>)
    requires |staged| == |ids| && forall id :: id in ids ==> id in records
  {
    forall i :: 0 <= i < |ids| && UpToDate(ids[i], records, snapshot) ==> staged[i] in snapshot
  }

  lemma StagesMore(ids: seq<RecordId>, i: nat, records: Records, snapshot: seq<Staged>, staged: seq<Staged>, s: Staged,
                   provider: Provider)
    requires Lists(ids, records) && i < |ids|
    requires Stages(ids[..i], records, staged, provider) && Keeps(ids[..i], records, snapshot, staged)
    requires s.id == ids[i] && IsStagedFor(s, records[ids[i]], provider)
    requires UpToDate(ids[i], records, snapshot) ==> s in snapshot
    ensures Stages(ids[..i + 1], records, staged + [s], provider)
    ensures Keeps(ids[..i + 1], records, snapshot, staged + [s])
  {
    assert ids[..i + 1] == ids[..i] + [ids[i]];
  }

  // The entry for one record: the one before if it is current, else a new one.
  method StageOne(id: RecordId, records: Records, snapshot: seq<Staged>, previous: map<RecordId, Staged>,
                  provider: Provider, cache: Cache<Key, Vector>, healthy: bool, alone: bool)
    returns (r: Result<Staged, StagingError>)
    requires id in records && Sound(snapshot, records, provider) && Indexes(previous, snapshot)
    requires cache.Valid() && Correct(cache.entries, provider.keyOf, provider.embed)
    modifies cache`entries, cache`order
    ensures cache.Valid() && Correct(cache.entries, provider.keyOf, provider.embed)
    ensures r.Ok? ==> r.value.id == id && IsStagedFor(r.value, records[id], provider)
    ensures r.Ok? && UpToDate(id, records, snapshot) ==> r.value in snapshot
    ensures r.Err? ==> (r.error == ProviderFailed && !healthy)
                       || (r.error == MissingSourceText(id) && records[id].text.None?)
    ensures alone && r != Err(ProviderFailed) ==>
              (r, cache.Contents())
              == RefreshOne(id, records, previous, old(cache.Contents()), cache.capacity, provider)
  {
    UpToDateIff(id, records, snapshot, previous);
    if id in previous && previous[id].sequence == records[id].sequence { return Ok(previous[id]); }
    if records[id].text.None? { return Err(MissingSourceText(id)); }
    var vector := EmbedOne(cache, records[id].text.value, provider, healthy, alone);
    r := if vector.Err? then Err(vector.error) else Ok(Staged(id, records[id].sequence, vector.value));
  }

  method StageCurrent(ids: seq<RecordId>, records: Records, snapshot: seq<Staged>, previous: map<RecordId, Staged>,
                      provider: Provider, cache: Cache<Key, Vector>, healthy: bool, alone: bool)
    returns (r: Result<seq<Staged>, StagingError>, restaged: nat)
    requires Lists(ids, records) && Sound(snapshot, records, provider) && Indexes(previous, snapshot)
    requires cache.Valid() && Correct(cache.entries, provider.keyOf, provider.embed)
    modifies cache`entries, cache`order
    ensures cache.Valid() && Correct(cache.entries, provider.keyOf, provider.embed)
    ensures r.Ok? ==> Stages(ids, records, r.value, provider) && Keeps(ids, records, snapshot, r.value)
    ensures r.Ok? ==> restaged == |Changed(ids, records, snapshot)|
    ensures r.Err? ==> (r.error == ProviderFailed && !healthy) || r == Rebuild(ids, records, provider)
    ensures alone && r != Err(ProviderFailed) ==>
              (r, cache.Contents()) == Refresh(ids, records, previous, old(cache.Contents()), cache.capacity, provider)
  {
    var staged: seq<Staged> := [];
    restaged := 0;
    ghost var start := cache.Contents();
    for i := 0 to |ids|
      invariant cache.Valid() && Correct(cache.entries, provider.keyOf, provider.embed)
      invariant Stages(ids[..i], records, staged, provider) && Keeps(ids[..i], records, snapshot, staged)
      invariant restaged == |Changed(ids[..i], records, snapshot)|
      invariant alone ==> (Ok(staged), cache.Contents())
                          == Refresh(ids[..i], records, previous, start, cache.capacity, provider)
    {
      ghost var now := cache.Contents();
      ChangedNext(ids, i, records, snapshot);
      UpToDateIff(ids[i], records, snapshot, previous);
      var entry := StageOne(ids[i], records, snapshot, previous, provider, cache, healthy, alone);
      if entry.Err? {
        if entry.error != ProviderFailed {
          MissingStops(ids, i, records, staged, provider);
          if alone {
            RefreshStops(ids, i, records, previous, start, cache.capacity, provider);
          }
        }
        return Err(entry.error), restaged;
      }
      StagesMore(ids, i, records, snapshot, staged, entry.value, provider);
      if alone {
        RefreshMore(ids, i, records, previous, start, cache.capacity, provider);
      }
      staged := staged + [entry.value];
      if !(ids[i] in previous && previous[ids[i]].sequence == records[ids[i]].sequence) {
        restaged := restaged + 1;
      }
    }
    assert ids[..|ids|] == ids;
    r := Ok(staged);
  }

  lemma RefreshMore(ids: seq<RecordId>, i: nat, records: Records, previous: map<RecordId, Staged>,
                    c: Lru<Key, Vector>, capacity: nat, provider: Provider)
    requires (forall id :: id in ids ==> id in records) && i < |ids|
    requires Refresh(ids[..i], records, previous, c, capacity, provider).0.Ok?
    ensures var (staged, now) := Refresh(ids[..i], records, previous, c, capacity, provider);
            var (entry, after) := RefreshOne(ids[i], records, previous, now, capacity, provider);
            Refresh(ids[..i + 1], records, previous, c, capacity, provider)
            == (if entry.Err? then Err(entry.error) else Ok(staged.value + [entry.value]), after)
  {
    assert ids[..i + 1][..i] == ids[..i];
  }

  lemma UpToDateIff(id: RecordId, records: Records, snapshot: seq<Staged>, previous: map<RecordId, Staged>)
    requires id in records && Indexes(previous, snapshot)
    ensures UpToDate(id, records, snapshot) <==> IsCurrent(id, records, previous)
  {
  }

  lemma MissingStops(ids: seq<RecordId>, i: nat, records: Records, staged: seq<Staged>, provider: Provider)
    requires Lists(ids, records) && i < |ids| && Stages(ids[..i], records, staged, provider)
    requires records[ids[i]].text.None?
    ensures Rebuild(ids, records, provider) == Err(MissingSourceText(ids[i]))
  {
    forall id | id in ids[..i]
      ensures records[id].text.Some?
    {
      var j :| 0 <= j < i && ids[j] == id;
      assert IsStagedFor(staged[j], records[ids[..i][j]], provider);
    }
    RebuildSucceedsIff(ids[..i], records, provider);
    RebuildStops(ids, i, records, provider);
  }

  lemma {:induction false} RefreshStops(ids: seq<RecordId>, i: nat, records: Records, previous: map<RecordId, Staged>,
                                        c: Lru<Key, Vector>, capacity: nat, provider: Provider)
    requires (forall id :: id in ids ==> id in records) && i < |ids|
    requires Refresh(ids[..i], records, previous, c, capacity, provider).0.Ok?
    requires !IsCurrent(ids[i], records, previous) && records[ids[i]].text.None?
    ensures Refresh(ids, records, previous, c, capacity, provider)
            == (Err(MissingSourceText(ids[i])), Refresh(ids[..i], records, previous, c, capacity, provider).1)
  {
    assert ids[..i + 1][..i] == ids[..i];
    if i + 1 == |ids| {
      assert ids[..i + 1] == ids;
    } else {
      var init := ids[..|ids| - 1];
      assert init[..i] == ids[..i];
      RefreshStops(init, i, records, previous, c, capacity, provider);
    }
  }

  // `catch_up`: entries at their current version are kept, the others are embedded again, through the
  // cache. The count is that of the ids that changed.
  method CatchUp(ids: seq<RecordId>, records: Records, snapshot: seq<Staged>, provider: Provider,
                 cache: Cache<Key, Vector>, healthy: bool, alone: bool)
    returns (r: Result<seq<Staged>, StagingError>, reconciled: nat, ghost previous: map<RecordId, Staged>)
    requires Lists(ids, records) && DistinctIds(snapshot) && Sound(snapshot, records, provider)
    requires cache.Valid() && Correct(cache.entries, provider.keyOf, provider.embed)
    modifies cache`entries, cache`order
    ensures cache.Valid() && Correct(cache.entries, provider.keyOf, provider.embed)
    ensures r.Ok? ==> Stages(ids, records, r.value, provider) && Keeps(ids, records, snapshot, r.value)
    ensures r.Ok? ==> reconciled == |Reconciled(records, snapshot)|
    ensures r.Err? ==> (r.error == ProviderFailed && !healthy) || r == Rebuild(ids, records, provider)
    ensures Indexes(previous, snapshot)
    ensures alone && r != Err(ProviderFailed) ==>
              (r, cache.Contents()) == Refresh(ids, records, previous, old(cache.Contents()), cache.capacity, provider)
  {
    var byId := IndexById(snapshot);
    previous := byId;
    r, reconciled := StageCurrent(ids, records, snapshot, byId, provider, cache, healthy, alone);
    if r.Err? { return; }
    StagesCover(ids, records, r.value, provider);
    var dropped := byId.Keys - StagedIds(r.value);
    ReconciledSplits(ids, records, snapshot);
    reconciled := reconciled + |dropped|;
  }

  // A build or a refresh has an entry for every live record and for nothing else, each once.
  lemma StagesCover(ids: seq<RecordId>, records: Records, staged: seq<Staged>, provider: Provider)
    requires Lists(ids, records) && Stages(ids, records, staged, provider)
    ensures StagedIds(staged) == records.Keys && DistinctIds(staged)
  {
    forall id | id in records
      ensures id in StagedIds(staged)
    {
      var i :| 0 <= i < |ids| && ids[i] == id;
      assert staged[i] in staged;
    }
  }

  lemma StagesAreSound(ids: seq<RecordId>, records: Records, staged: seq<Staged>, provider: Provider)
    requires Lists(ids, records) && Stages(ids, records, staged, provider)
    ensures Sound(staged, records, provider)
    ensures forall s :: s in staged ==> s.id in records && IsStagedFor(s, records[s.id], provider)
  {
    forall s | s in staged
      ensures s.id in records && IsStagedFor(s, records[s.id], provider)
    {
      var i :| 0 <= i < |staged| && staged[i] == s;
      assert IsStagedFor(staged[i], records[ids[i]], provider);
    }
  }

  lemma ReconciledSplits(ids: seq<RecordId>, records: Records, snapshot: seq<Staged>)
    requires Lists(ids, records)
    ensures |Reconciled(records, snapshot)| == |Changed(ids, records, snapshot)| + |StagedIds(snapshot) - records.Keys|
  {
    var changed, dropped := Changed(ids, records, snapshot), StagedIds(snapshot) - records.Keys;
    assert changed !! dropped;
    assert Reconciled(records, snapshot) == changed + dropped;
  }

  lemma {:induction false} RebuildStops(ids: seq<RecordId>, i: nat, records: Records, provider: Provider)
    requires forall id :: id in ids ==> id in records
    requires i < |ids| && Rebuild(ids[..i], records, provider).Ok?
    requires StageFresh(ids[i], records[ids[i]], provider).Err?
    ensures Rebuild(ids, records, provider) == Err(StageFresh(ids[i], records[ids[i]], provider).error)
  {
    assert ids[..i + 1][..i] == ids[..i];
    if i + 1 == |ids| {
      assert ids[..i + 1] == ids;
    } else {
      var init := ids[..|ids| - 1];
      assert init[..i] == ids[..i];
      RebuildStops(init, i, records, provider);
    }
  }

  // ---------------------------------------------------------------- a refresh against a build from nothing

  // The entries that a refresh keeps are those that a build from nothing would stage.
  ghost predicate Exact(snapshot: seq<Staged>, records: Records, provider: Provider) {
    forall s :: s in snapshot && s.id in records && records[s.id].sequence == s.sequence ==>
      Ok(s) == StageFresh(s.id, records[s.id], provider)
  }

  // The texts that a refresh embeds.
  function ChangedTexts(ids: seq<RecordId>, records: Records, snapshot: seq<Staged>): seq<string>
    requires forall id :: id in ids ==> id in records
  {
    if ids == [] then []
    else
      var id := ids[|ids| - 1];
      ChangedTexts(ids[..|ids| - 1], records, snapshot)
      + if UpToDate(id, records, snapshot) || records[id].text.None? then [] else [records[id].text.value]
  }

  lemma {:induction false} ChangedTextsAre(ids: seq<RecordId>, records: Records, snapshot: seq<Staged>)
    requires forall id :: id in ids ==> id in records
    ensures forall t :: t in ChangedTexts(ids, records, snapshot) <==>
              exists id :: id in Changed(ids, records, snapshot) && records[id].text == Some(t)
  {
    if ids != [] {
      var init, last := ids[..|ids| - 1], ids[|ids| - 1];
      ChangedTextsAre(init, records, snapshot);
      assert ids == init + [last];
      assert Changed(ids, records, snapshot) == Changed(init, records, snapshot) + Changed([last], records, snapshot);
    }
  }

  // Whatever others do to the cache: if the provider depends on nothing of the texts to embed but
  // their keys, a refresh yields what a build from nothing yields, entry by entry.
  lemma RefreshIsRebuild(ids: seq<RecordId>, records: Records, snapshot: seq<Staged>, staged: seq<Staged>,
                         provider: Provider)
    requires Lists(ids, records) && Stages(ids, records, staged, provider)
    requires Keeps(ids, records, snapshot, staged) && Exact(snapshot, records, provider)
    requires DependsOnKey(ChangedTexts(ids, records, snapshot), provider.keyOf, provider.embed)
    ensures Rebuild(ids, records, provider) == Ok(staged)
  {
    forall i | 0 <= i < |ids|
      ensures records[ids[i]].text.Some? && Ok(staged[i]) == StageFresh(ids[i], records[ids[i]], provider)
    {
      assert IsStagedFor(staged[i], records[ids[i]], provider);
      if !UpToDate(ids[i], records, snapshot) {
        ChangedTextsAre(ids, records, snapshot);
        assert ids[i] in Changed(ids, records, snapshot);
        assert records[ids[i]].text.value in ChangedTexts(ids, records, snapshot);
      }
    }
    RebuildSucceedsIff(ids, records, provider);
    RebuildStagesEachRecord(ids, records, provider);
    var rebuilt := Rebuild(ids, records, provider).value;
    forall i | 0 <= i < |ids|
      ensures rebuilt[i] == staged[i]
    {
      assert Ok(rebuilt[i]) == StageFresh(ids[i], records[ids[i]], provider);
    }
    assert rebuilt == staged;
  }

  // A refresh that nobody interferes with is one as in the lemma before.
  lemma {:induction false} RefreshStages(ids: seq<RecordId>, records: Records, snapshot: seq<Staged>,
                                         previous: map<RecordId, Staged>, c: Lru<Key, Vector>, capacity: nat,
                                         provider: Provider)
    requires (forall id :: id in ids ==> id in records) && Indexes(previous, snapshot)
    requires Sound(snapshot, records, provider) && Correct(c.entries, provider.keyOf, provider.embed)
    ensures var (staged, after) := Refresh(ids, records, previous, c, capacity, provider);
            && Correct(after.entries, provider.keyOf, provider.embed)
            && (staged.Ok? ==>
                  Stages(ids, records, staged.value, provider) && Keeps(ids, records, snapshot, staged.value))
            && (staged.Err? ==> staged == Rebuild(ids, records, provider))
  {
    if ids != [] {
      var init, id := ids[..|ids| - 1], ids[|ids| - 1];
      RefreshStages(init, records, snapshot, previous, c, capacity, provider);
      UpToDateIff(id, records, snapshot, previous);
      var (staged, now) := Refresh(init, records, previous, c, capacity, provider);
      if staged.Ok? && !IsCurrent(id, records, previous) {
        if records[id].text.Some? {
          AskIsCorrect(now, capacity, records[id].text.value, provider);
        } else {
          StagesHaveTexts(init, records, staged.value, provider);
          RebuildSucceedsIff(init, records, provider);
        }
      }
    }
  }

  lemma StagesHaveTexts(ids: seq<RecordId>, records: Records, staged: seq<Staged>, provider: Provider)
    requires (forall id :: id in ids ==> id in records) && Stages(ids, records, staged, provider)
    ensures forall id :: id in ids ==> records[id].text.Some?
  {
    forall id | id in ids
      ensures records[id].text.Some?
    {
      var i :| 0 <= i < |ids| && ids[i] == id;
      assert IsStagedFor(staged[i], records[ids[i]], provider);
    }
  }

  lemma AskIsCorrect(c: Lru<Key, Vector>, capacity: nat, text: string, provider: Provider)
    requires Correct(c.entries, provider.keyOf, provider.embed)
    ensures var (vector, after) := Ask(c, capacity, text, provider);
            && IsVectorFor(provider.keyOf(text), vector, provider.keyOf, provider.embed)
            && Correct(after.entries, provider.keyOf, provider.embed)
  {
    assert IsVectorFor(provider.keyOf(text), provider.embed(text), provider.keyOf, provider.embed);
  }

  // A cache that is large enough keeps the vector of another text until it is asked for.
  lemma {:induction false} RefreshKeepsEntry(ids: seq<RecordId>, records: Records, previous: map<RecordId, Staged>,
                                             k: Key, v: Vector, capacity: nat, provider: Provider)
    requires (forall id :: id in ids ==> id in records && records[id].text.Some?) && |ids| < capacity
    ensures var (staged, after) := Refresh(ids, records, previous, Lru(map[k := v], [k]), capacity, provider);
            && staged.Ok? && |staged.value| == |ids| && |after.order| <= 1 + |ids|
            && k in after.entries && after.entries[k] == v
  {
    if ids != [] {
      RefreshKeepsEntry(ids[..|ids| - 1], records, previous, k, v, capacity, provider);
      var (_, now) := Refresh(ids[..|ids| - 1], records, previous, Lru(map[k := v], [k]), capacity, provider);
      WithoutIsShorter(now.order, provider.keyOf(records[ids[|ids| - 1]].text.value));
    }
  }

  lemma {:induction false} WithoutIsShorter<K>(order: seq<K>, k: K)
    ensures |Without(order, k)| <= |order|
  {
    if order != [] { WithoutIsShorter(order[1..], k); }
  }

  lemma {:induction false} RefreshedFromAnother(ids: seq<RecordId>, i: nat, records: Records,
                                                previous: map<RecordId, Staged>, v: Vector, capacity: nat,
                                                provider: Provider)
    requires (forall id :: id in ids ==> id in records && records[id].text.Some?) && |ids| < capacity
    requires i < |ids| && !IsCurrent(ids[i], records, previous)
    ensures var k := provider.keyOf(records[ids[i]].text.value);
            var staged := Refresh(ids, records, previous, Lru(map[k := v], [k]), capacity, provider).0;
            staged.Ok? && |staged.value| == |ids| && staged.value[i].vector == v
  {
    var k := provider.keyOf(records[ids[i]].text.value);
    var init := ids[..|ids| - 1];
    RefreshKeepsEntry(ids, records, previous, k, v, capacity, provider);
    RefreshKeepsEntry(init, records, previous, k, v, capacity, provider);
    if i < |init| {
      RefreshedFromAnother(init, i, records, previous, v, capacity, provider);
    }
  }

  ghost predicate RefreshesExactly(ids: seq<RecordId>, records: Records, previous: map<RecordId, Staged>,
                                   provider: Provider)
    requires forall id :: id in ids ==> id in records
  {
    forall c: Lru<Key, Vector>, capacity: nat ::
      Consistent(c, capacity) && Correct(c.entries, provider.keyOf, provider.embed) ==>
      Refresh(ids, records, previous, c, capacity, provider).0 == Rebuild(ids, records, provider)
  }

  // Whatever requests have left in the cache, a refresh of an exact snapshot yields what a build from
  // nothing yields, in error too, exactly if some record lacks its text or the provider depends on
  // nothing of the texts to embed but their keys.
  lemma RefreshIsRebuildIff(ids: seq<RecordId>, records: Records, snapshot: seq<Staged>,
                            previous: map<RecordId, Staged>, provider: Provider)
    requires Lists(ids, records) && Indexes(previous, snapshot) && Exact(snapshot, records, provider)
    ensures RefreshesExactly(ids, records, previous, provider) <==>
            || (exists id :: id in records && records[id].text.None?)
            || DependsOnKey(ChangedTexts(ids, records, snapshot), provider.keyOf, provider.embed)
  {
    ExactIsSound(snapshot, records, provider);
    RebuildSucceedsIff(ids, records, provider);
    if (exists id :: id in records && records[id].text.None?)
       || DependsOnKey(ChangedTexts(ids, records, snapshot), provider.keyOf, provider.embed)
    {
      forall c: Lru<Key, Vector>, capacity: nat |
        Consistent(c, capacity) && Correct(c.entries, provider.keyOf, provider.embed)
        ensures Refresh(ids, records, previous, c, capacity, provider).0 == Rebuild(ids, records, provider)
      {
        RefreshStages(ids, records, snapshot, previous, c, capacity, provider);
        var staged := Refresh(ids, records, previous, c, capacity, provider).0;
        if staged.Ok? {
          StagesHaveTexts(ids, records, staged.value, provider);
          RefreshIsRebuild(ids, records, snapshot, staged.value, provider);
        }
      }
    } else {
      var s, t :| s in ChangedTexts(ids, records, snapshot) && provider.keyOf(t) == provider.keyOf(s)
                  && provider.embed(t) != provider.embed(s);
      NotRefreshedExactly(ids, records, snapshot, previous, provider, s, t);
    }
  }

  lemma ExactIsSound(snapshot: seq<Staged>, records: Records, provider: Provider)
    requires Exact(snapshot, records, provider)
    ensures Sound(snapshot, records, provider)
  {
    forall s | s in snapshot && s.id in records && records[s.id].sequence == s.sequence
      ensures IsStagedFor(s, records[s.id], provider)
    {
      FreshIsStaged(s.id, records[s.id], provider);
    }
  }

  // With the vector of `t` in the cache a refresh stages it for `s`.
  lemma NotRefreshedExactly(ids: seq<RecordId>, records: Records, snapshot: seq<Staged>,
                            previous: map<RecordId, Staged>, provider: Provider, s: string, t: string)
    requires Lists(ids, records) && Indexes(previous, snapshot)
    requires forall id :: id in records ==> records[id].text.Some?
    requires s in ChangedTexts(ids, records, snapshot) && provider.keyOf(t) == provider.keyOf(s)
    requires provider.embed(t) != provider.embed(s)
    ensures !RefreshesExactly(ids, records, previous, provider)
  {
    ChangedTextsAre(ids, records, snapshot);
    var id :| id in Changed(ids, records, snapshot) && records[id].text == Some(s);
    var i :| 0 <= i < |ids| && ids[i] == id;
    UpToDateIff(id, records, snapshot, previous);
    StagedFromAnother(ids, i, records, previous, provider, t);
  }

  lemma StagedFromAnother(ids: seq<RecordId>, i: nat, records: Records, previous: map<RecordId, Staged>,
                          provider: Provider, t: string)
    requires (forall id :: id in ids ==> id in records && records[id].text.Some?) && i < |ids|
    requires !IsCurrent(ids[i], records, previous)
    requires provider.keyOf(t) == provider.keyOf(records[ids[i]].text.value)
    requires provider.embed(t) != provider.embed(records[ids[i]].text.value)
    ensures !RefreshesExactly(ids, records, previous, provider)
  {
    var c := Lru(map[provider.keyOf(t) := provider.embed(t)], [provider.keyOf(t)]);
    OneEntryIsCorrect(t, |ids| + 1, provider);
    RefreshedFromAnother(ids, i, records, previous, provider.embed(t), |ids| + 1, provider);
    RebuildAt(ids, i, records, provider);
    assert Refresh(ids, records, previous, c, |ids| + 1, provider).0 != Rebuild(ids, records, provider);
  }

  lemma OneEntryIsCorrect(t: string, capacity: nat, provider: Provider)
    requires capacity > 0
    ensures var c := Lru(map[provider.keyOf(t) := provider.embed(t)], [provider.keyOf(t)]);
            Consistent(c, capacity) && Correct(c.entries, provider.keyOf, provider.embed)
  {
    assert IsVectorFor(provider.keyOf(t), provider.embed(t), provider.keyOf, provider.embed);
  }

  lemma RebuildAt(ids: seq<RecordId>, i: nat, records: Records, provider: Provider)
    requires (forall id :: id in ids ==> id in records && records[id].text.Some?) && i < |ids|
    ensures Rebuild(ids, records, provider).Ok? && |Rebuild(ids, records, provider).value| == |ids|
    ensures Rebuild(ids, records, provider).value[i].vector == provider.embed(records[ids[i]].text.value)
  {
    RebuildSucceedsIff(ids, records, provider);
    RebuildStagesEachRecord(ids, records, provider);
    assert Ok(Rebuild(ids, records, provider).value[i]) == StageFresh(ids[i], records[ids[i]], provider);
  }

  // ---------------------------------------------------------------- the check before activation

  // `activate` compares the number of entries, then each entry's version.
  ghost predicate CheckPasses(staged: seq<Staged>, records: Records) {
    && |staged| == |records|
    && forall s :: s in staged ==> s.id in records && records[s.id].sequence == s.sequence && records[s.id].text.Some?
  }

  lemma {:induction false} DistinctIdsCount(staged: seq<Staged>)
    requires DistinctIds(staged)
    ensures |StagedIds(staged)| == |staged|
  {
    if staged != [] {
      var init, last := staged[..|staged| - 1], staged[|staged| - 1];
      DistinctIdsCount(init);
      assert staged == init + [last];
      assert StagedIds(staged) == StagedIds(init) + {last.id};
      assert last.id !in StagedIds(init);
    }
  }

  // Right after a build or a refresh the check passes.
  lemma StagesPassCheck(ids: seq<RecordId>, records: Records, staged: seq<Staged>, provider: Provider)
    requires Lists(ids, records) && Stages(ids, records, staged, provider)
    ensures CheckPasses(staged, records)
  {
    StagesAreSound(ids, records, staged, provider);
    StagesCover(ids, records, staged, provider);
    DistinctIdsCount(staged);
  }

  // Passing the check means that the snapshot covers every managed live record.
  lemma CheckCoversEveryRecord(staged: seq<Staged>, records: Records)
    requires DistinctIds(staged) && CheckPasses(staged, records)
    ensures StagedIds(staged) == records.Keys
  {
    DistinctIdsCount(staged);
    SubsetOfSameSize(StagedIds(staged), records.Keys);
  }
}
