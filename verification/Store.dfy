/** The record store as its readers see it: sequence-stamped versions of records spread over
    segments, of which the version with the largest sequence number counts
    (crates/ketebe-server/src/management.rs, crates/ketebe-storage/src/segment.rs). */
module Store {
  import opened Wrappers

  datatype RecordId = StringId(text: string) | Unsigned(number: nat)

  // A version of a record; a deletion has no value.
  datatype Entry<T> = Entry(id: RecordId, sequence: nat, value: Option<T>)

  datatype Live<T> = Live(id: RecordId, sequence: nat, value: T)

  datatype Tombstone = Tombstone(id: RecordId, sequence: nat)

  datatype Segment<T> = Segment(collection: string, records: seq<Live<T>>, tombstones: seq<Tombstone>)

  function LiveEntries<T>(records: seq<Live<T>>): (es: seq<Entry<T>>)
    ensures |es| == |records|
    ensures forall i :: 0 <= i < |es| ==> es[i] == Entry(records[i].id, records[i].sequence, Some(records[i].value))
  {
    seq(|records|, i requires 0 <= i < |records| => Entry(records[i].id, records[i].sequence, Some(records[i].value)))
  }

  function DeadEntries<T>(tombstones: seq<Tombstone>): (es: seq<Entry<T>>)
    ensures |es| == |tombstones|
    ensures forall i :: 0 <= i < |es| ==> es[i] == Entry(tombstones[i].id, tombstones[i].sequence, None)
  {
    seq(|tombstones|, i requires 0 <= i < |tombstones| => Entry(tombstones[i].id, tombstones[i].sequence, None))
  }

  // All versions of one collection, in the order in which the readers visit them.
  function Entries<T>(segments: seq<Segment<T>>, collection: string): seq<Entry<T>> {
    if segments == [] then []
    else
      var last := segments[|segments| - 1];
      Entries(segments[..|segments| - 1], collection) +
      if last.collection == collection then LiveEntries(last.records) + DeadEntries(last.tombstones) else []
  }

  // An entry stands for a record or a tombstone in a segment of the collection.
  ghost predicate IsIn<T(!new)>(e: Entry<T>, segment: Segment<T>) {
    if e.value.Some? then Live(e.id, e.sequence, e.value.value) in segment.records
    else Tombstone(e.id, e.sequence) in segment.tombstones
  }

  lemma {:induction false} EntriesAre<T(!new)>(segments: seq<Segment<T>>, collection: string, e: Entry<T>)
    ensures e in Entries(segments, collection) <==>
            exists s :: s in segments && s.collection == collection && IsIn(e, s)
  {
    if segments != [] {
      var init, last := segments[..|segments| - 1], segments[|segments| - 1];
      assert segments == init + [last];
      EntriesAre(init, collection, e);
      InOneSegment(last, e);
    }
  }

  lemma InOneSegment<T(!new)>(s: Segment<T>, e: Entry<T>)
    ensures e in LiveEntries(s.records) + DeadEntries(s.tombstones) <==> IsIn(e, s)
  {
    var live, dead := LiveEntries(s.records), DeadEntries(s.tombstones);
    if IsIn(e, s) {
      if e.value.Some? {
        var i :| 0 <= i < |s.records| && s.records[i] == Live(e.id, e.sequence, e.value.value);
        assert live[i] == e;
      } else {
        var i :| 0 <= i < |s.tombstones| && s.tombstones[i] == Tombstone(e.id, e.sequence);
        assert dead[i] == e;
      }
    }
    if i :| 0 <= i < |live| && live[i] == e {
      assert s.records[i] == Live(e.id, e.sequence, e.value.value);
    }
    if i :| 0 <= i < |dead| && dead[i] == e {
      assert s.tombstones[i] == Tombstone(e.id, e.sequence);
    }
  }

  // ---------------------------------------------------------------- the fold

  type Versions<T> = map<RecordId, Entry<T>>

  // `apply_version` and `apply_latest`: an entry replaces one with a smaller sequence number.
  function Apply<T>(latest: Versions<T>, e: Entry<T>): Versions<T> {
    if e.id in latest && latest[e.id].sequence >= e.sequence then latest else latest[e.id := e]
  }

  function Latest<T>(entries: seq<Entry<T>>): Versions<T> {
    if entries == [] then map[]
    else Apply(Latest(entries[..|entries| - 1]), entries[|entries| - 1])
  }

  // `m` holds, for exactly the ids that occur, a version that no other version of the id exceeds.
  ghost predicate IsLatest<T>(m: Versions<T>, entries: seq<Entry<T>>) {
    && (forall e :: e in entries ==> e.id in m && e.sequence <= m[e.id].sequence)
    && (forall id :: id in m ==> m[id].id == id && m[id] in entries)
  }

  // Of versions with the same sequence number the first one counts.
  ghost predicate IsFirstLatest<T>(latest: Entry<T>, entries: seq<Entry<T>>, i: nat) {
    && i < |entries| && entries[i] == latest
    && forall j :: 0 <= j < i && entries[j].id == latest.id ==> entries[j].sequence < latest.sequence
  }

  // No two different versions of one record carry the same sequence number.
  ghost predicate DistinctVersions<T>(entries: seq<Entry<T>>) {
    forall e, f :: e in entries && f in entries && e.id == f.id && e.sequence == f.sequence ==> e == f
  }

  ghost predicate SameEntries<T>(a: seq<Entry<T>>, b: seq<Entry<T>>) {
    (forall e :: e in a ==> e in b) && (forall e :: e in b ==> e in a)
  }

  lemma {:induction false} FirstCounts<T>(entries: seq<Entry<T>>, id: RecordId)
    requires id in Latest(entries)
    ensures exists i: nat :: IsFirstLatest(Latest(entries)[id], entries, i)
  {
    var init, last := entries[..|entries| - 1], entries[|entries| - 1];
    assert entries == init + [last];
    FoldGivesLatest(init);
    if id in Latest(init) && Latest(entries)[id] == Latest(init)[id] {
      FirstCounts(init, id);
      var i: nat :| IsFirstLatest(Latest(init)[id], init, i);
      assert IsFirstLatest(Latest(entries)[id], entries, i);
    } else {
      assert IsFirstLatest(last, entries, |init|);
    }
  }

  lemma {:induction false} FoldGivesLatest<T>(entries: seq<Entry<T>>)
    ensures IsLatest(Latest(entries), entries)
  {
    if entries != [] {
      var init, last := entries[..|entries| - 1], entries[|entries| - 1];
      FoldGivesLatest(init);
      assert entries == init + [last];
    }
  }

  lemma LatestIsUnique<T>(m: Versions<T>, n: Versions<T>, a: seq<Entry<T>>, b: seq<Entry<T>>)
    requires IsLatest(m, a) && IsLatest(n, b) && SameEntries(a, b) && DistinctVersions(a)
    ensures m == n
  {
    forall id | id in m
      ensures id in n && m[id] == n[id]
    {
      assert m[id] in b;
      assert n[id] in a;
    }
    forall id | id in n
      ensures id in m
    {
      assert n[id] in a;
    }
  }

  // The outcome depends on which versions there are, not on the order in which segments hold them
  // nor on how they are split into segments.
  lemma OrderDoesNotMatter<T>(a: seq<Entry<T>>, b: seq<Entry<T>>)
    requires SameEntries(a, b) && DistinctVersions(a)
    ensures Latest(a) == Latest(b)
  {
    FoldGivesLatest(a);
    FoldGivesLatest(b);
    LatestIsUnique(Latest(a), Latest(b), a, b);
  }

  lemma {:induction false} EntriesOfConcatenation<T>(a: seq<Segment<T>>, b: seq<Segment<T>>, collection: string)
    ensures Entries(a + b, collection) == Entries(a, collection) + Entries(b, collection)
  {
    if b == [] {
      assert a + b == a;
    } else {
      assert (a + b)[..|a + b| - 1] == a + b[..|b| - 1];
      EntriesOfConcatenation(a, b[..|b| - 1], collection);
    }
  }

  // The latest versions of a concatenation depend on the parts only through their latest versions.
  function Merge<T>(a: Versions<T>, b: Versions<T>): Versions<T> {
    map id | id in a.Keys + b.Keys ::
      if id !in b || (id in a && a[id].sequence >= b[id].sequence) then a[id] else b[id]
  }

  lemma {:induction false} LatestOfConcatenation<T>(a: seq<Entry<T>>, b: seq<Entry<T>>)
    ensures Latest(a + b) == Merge(Latest(a), Latest(b))
  {
    if b == [] {
      assert a + b == a;
    } else {
      var init, last := b[..|b| - 1], b[|b| - 1];
      assert (a + b)[..|a + b| - 1] == a + init;
      LatestOfConcatenation(a, init);
    }
  }

  // Entries that are newer than everything before them win for their ids and leave the others alone.
  lemma NewerEntriesWin<T>(older: seq<Entry<T>>, newer: seq<Entry<T>>)
    requires forall e, f :: e in older && f in newer ==> e.sequence < f.sequence
    ensures forall id :: id in Latest(older + newer) <==> id in Latest(older) || id in Latest(newer)
    ensures forall id :: id in Latest(newer) ==> Latest(older + newer)[id] == Latest(newer)[id]
    ensures forall id :: id in Latest(older) && id !in Latest(newer) ==> Latest(older + newer)[id] == Latest(older)[id]
  {
    LatestOfConcatenation(older, newer);
    FoldGivesLatest(older);
    FoldGivesLatest(newer);
    NewerMerge(Latest(older), Latest(newer), older, newer);
  }

  lemma NewerMerge<T>(a: Versions<T>, b: Versions<T>, older: seq<Entry<T>>, newer: seq<Entry<T>>)
    requires IsLatest(a, older) && IsLatest(b, newer)
    requires forall e, f :: e in older && f in newer ==> e.sequence < f.sequence
    ensures forall id :: id in b ==> Merge(a, b)[id] == b[id]
  {
    forall id | id in b && id in a
      ensures a[id].sequence < b[id].sequence
    {
      assert a[id] in older && b[id] in newer;
    }
  }

  // ---------------------------------------------------------------- the readers

  method FoldRecords<T>(latest: Versions<T>, records: seq<Live<T>>, ghost seen: seq<Entry<T>>)
    returns (folded: Versions<T>)
    requires latest == Latest(seen)
    ensures folded == Latest(seen + LiveEntries(records))
  {
    folded := latest;
    ghost var live := LiveEntries(records);
    assert seen + live[..0] == seen;
    for j := 0 to |records|
      invariant folded == Latest(seen + live[..j])
    {
      assert (seen + live[..j + 1])[..|seen| + j] == seen + live[..j];
      folded := Apply(folded, Entry(records[j].id, records[j].sequence, Some(records[j].value)));
    }
    assert live[..|live|] == live;
  }

  method FoldTombstones<T>(latest: Versions<T>, tombstones: seq<Tombstone>, ghost seen: seq<Entry<T>>)
    returns (folded: Versions<T>)
    requires latest == Latest(seen)
    ensures folded == Latest(seen + DeadEntries<T>(tombstones))
  {
    folded := latest;
    ghost var dead := DeadEntries<T>(tombstones);
    assert seen + dead[..0] == seen;
    for j := 0 to |tombstones|
      invariant folded == Latest(seen + dead[..j])
    {
      assert (seen + dead[..j + 1])[..|seen| + j] == seen + dead[..j];
      folded := Apply(folded, Entry(tombstones[j].id, tombstones[j].sequence, None));
    }
    assert dead[..|dead|] == dead;
  }

  method FoldSegments<T>(segments: seq<Segment<T>>, collection: string) returns (latest: Versions<T>)
    ensures latest == Latest(Entries(segments, collection))
  {
    latest := map[];
    for i := 0 to |segments|
      invariant latest == Latest(Entries(segments[..i], collection))
    {
      var segment := segments[i];
      assert segments[..i + 1][..i] == segments[..i];
      ghost var seen := Entries(segments[..i], collection);
      if segment.collection != collection {
        assert Entries(segments[..i + 1], collection) == seen;
        continue;
      }
      ghost var live := LiveEntries(segment.records);
      latest := FoldRecords(latest, segment.records, seen);
      latest := FoldTombstones(latest, segment.tombstones, seen + live);
      assert seen + live + DeadEntries<T>(segment.tombstones) == seen + (live + DeadEntries<T>(segment.tombstones));
    }
    assert segments[..|segments|] == segments;
  }

  function LiveIds<T>(m: Versions<T>): set<RecordId> {
    LiveAmong(m, m.Keys)
  }

  function LiveAmong<T>(m: Versions<T>, ids: set<RecordId>): set<RecordId> {
    set id | id in ids && id in m && m[id].value.Some?
  }

  lemma OneMoreCounted<T>(m: Versions<T>, ids: set<RecordId>, id: RecordId)
    requires id in m && id !in ids
    ensures |LiveAmong(m, ids + {id})| == |LiveAmong(m, ids)| + if m[id].value.Some? then 1 else 0
  {
    assert LiveAmong(m, ids + {id}) == LiveAmong(m, ids) + if m[id].value.Some? then {id} else {};
  }

  method CountVersions<T>(latest: Versions<T>) returns (live: nat, tombstones: nat)
    ensures live == |LiveIds(latest)|
    ensures live + tombstones == |latest|
  {
    live, tombstones := 0, 0;
    var todo := latest.Keys;
    ghost var done: set<RecordId> := {};
    while todo != {}
      invariant done + todo == latest.Keys && done !! todo
      invariant live == |LiveAmong(latest, done)|
      invariant live + tombstones == |done|
      decreases todo
    {
      var id :| id in todo;
      OneMoreCounted(latest, done, id);
      todo, done := todo - {id}, done + {id};
      if latest[id].value.Some? {
        live := live + 1;
      } else {
        tombstones := tombstones + 1;
      }
    }
    assert done == latest.Keys;
  }

  // `latest_state_counts`: every id that ever occurred is counted once, as live or as deleted.
  method LatestStateCounts<T>(segments: seq<Segment<T>>, collection: string) returns (live: nat, tombstones: nat)
    ensures var m := Latest(Entries(segments, collection));
            live == |LiveIds(m)| && LiveIds(m) == set id | id in m && m[id].value.Some?
    ensures live + tombstones == |set e | e in Entries(segments, collection) :: e.id|
  {
    var latest := FoldSegments(segments, collection);
    live, tombstones := CountVersions(latest);
    FoldGivesLatest(Entries(segments, collection));
    assert latest.Keys == set e | e in Entries(segments, collection) :: e.id;
  }

  // ---------------------------------------------------------------- sealing recent mutations

  datatype SegmentError = EmptyMutationSet | CollectionMismatch | SequenceRegression(previous: nat, current: nat)

  // A logged mutation names its collection.
  datatype Mutation<T> = Mutation(collection: string, entry: Entry<T>)

  function EntriesIn<T>(mutations: seq<Mutation<T>>): (es: seq<Entry<T>>)
    ensures |es| == |mutations| && forall i :: 0 <= i < |es| ==> es[i] == mutations[i].entry
  {
    seq(|mutations|, i requires 0 <= i < |mutations| => mutations[i].entry)
  }

  function MutationsOf<T>(collection: string, entries: seq<Entry<T>>): (mutations: seq<Mutation<T>>)
    ensures EntriesIn(mutations) == entries && OfOneCollection(mutations)
    ensures |mutations| == |entries|
    ensures forall i :: 0 <= i < |entries| ==> mutations[i] == Mutation(collection, entries[i])
  {
    seq(|entries|, i requires 0 <= i < |entries| => Mutation(collection, entries[i]))
  }

  predicate OfOneCollection<T>(mutations: seq<Mutation<T>>) {
    forall i :: 0 <= i < |mutations| ==> mutations[i].collection == mutations[0].collection
  }

  predicate Increasing<T>(entries: seq<Entry<T>>) {
    forall i, j :: 0 <= i < j < |entries| ==> entries[i].sequence < entries[j].sequence
  }

  // The map as a list, in some order of its keys.
  method ListRecords<T(==)>(m: map<RecordId, Live<T>>) returns (list: seq<Live<T>>)
    ensures forall r :: r in list <==> r in m.Values
  {
    list := [];
    var todo := m.Keys;
    while todo != {}
      invariant todo <= m.Keys
      invariant forall r :: r in list ==> r in m.Values
      invariant forall id :: id in m && id !in todo ==> m[id] in list
      decreases todo
    {
      var id :| id in todo;
      list := list + [m[id]];
      todo := todo - {id};
    }
  }

  method ListTombstones(m: map<RecordId, Tombstone>) returns (list: seq<Tombstone>)
    ensures forall t :: t in list <==> t in m.Values
  {
    list := [];
    var todo := m.Keys;
    while todo != {}
      invariant todo <= m.Keys
      invariant forall t :: t in list ==> t in m.Values
      invariant forall id :: id in m && id !in todo ==> m[id] in list
      decreases todo
    {
      var id :| id in todo;
      list := list + [m[id]];
      todo := todo - {id};
    }
  }

  // The two maps together say what `m` says.
  ghost predicate Splits<T>(m: Versions<T>, records: map<RecordId, Live<T>>, tombstones: map<RecordId, Tombstone>) {
    && records.Keys + tombstones.Keys == m.Keys && records.Keys !! tombstones.Keys
    && (forall id :: id in records ==> m[id] == Entry(id, records[id].sequence, Some(records[id].value)))
    && (forall id :: id in records ==> records[id].id == id)
    && (forall id :: id in tombstones ==> m[id] == Entry(id, tombstones[id].sequence, None))
    && (forall id :: id in tombstones ==> tombstones[id].id == id)
  }

  lemma SplitIsLatest<T>(m: Versions<T>, records: map<RecordId, Live<T>>, tombstones: map<RecordId, Tombstone>,
                         live: seq<Live<T>>, dead: seq<Tombstone>)
    requires Splits(m, records, tombstones)
    requires forall r :: r in live <==> r in records.Values
    requires forall t :: t in dead <==> t in tombstones.Values
    ensures Latest(LiveEntries(live) + DeadEntries<T>(dead)) == m
  {
    var es := LiveEntries(live) + DeadEntries<T>(dead);
    forall e | e in es
      ensures e.id in m && e == m[e.id]
    {
      var i :| 0 <= i < |es| && es[i] == e;
      if i < |live| {
        assert live[i] in records.Values;
      } else {
        assert dead[i - |live|] in tombstones.Values;
      }
    }
    forall id | id in m
      ensures m[id] in es
    {
      if id in records {
        assert records[id] in records.Values;
        var i :| 0 <= i < |live| && live[i] == records[id];
        assert es[i] == m[id];
      } else {
        assert tombstones[id] in tombstones.Values;
        var i :| 0 <= i < |dead| && dead[i] == tombstones[id];
        assert es[|live| + i] == m[id];
      }
    }
    FoldGivesLatest(es);
    LatestIsUnique(Latest(es), m, es, es);
  }

  lemma LatestOfNewest<T>(mutations: seq<Entry<T>>, i: nat)
    requires i < |mutations| && Increasing(mutations[..i + 1])
    ensures Latest(mutations[..i + 1]) == Latest(mutations[..i])[mutations[i].id := mutations[i]]
  {
    var init, e := mutations[..i], mutations[i];
    assert mutations[..i + 1][..i] == init;
    FoldGivesLatest(init);
    if e.id in Latest(init) {
      var j :| 0 <= j < i && init[j] == Latest(init)[e.id];
      assert mutations[..i + 1][j].sequence < mutations[..i + 1][i].sequence;
    }
  }

  lemma StillIncreasing<T>(mutations: seq<Entry<T>>, i: nat)
    requires i < |mutations| && Increasing(mutations[..i])
    requires i > 0 ==> mutations[i - 1].sequence < mutations[i].sequence
    ensures Increasing(mutations[..i + 1])
  {
    forall j, k | 0 <= j < k < i + 1
      ensures mutations[j].sequence < mutations[k].sequence
    {
      if k < i {
        assert mutations[..i][j].sequence < mutations[..i][k].sequence;
      } else if j < i - 1 {
        assert mutations[..i][j].sequence < mutations[..i][i - 1].sequence;
      }
    }
  }

  lemma SplitsMore<T>(m: Versions<T>, e: Entry<T>, records: map<RecordId, Live<T>>,
                      tombstones: map<RecordId, Tombstone>)
    requires Splits(m, records, tombstones)
    ensures e.value.Some? ==>
              Splits(m[e.id := e], records[e.id := Live(e.id, e.sequence, e.value.value)], tombstones - {e.id})
    ensures e.value.None? ==>
              Splits(m[e.id := e], records - {e.id}, tombstones[e.id := Tombstone(e.id, e.sequence)])
  {
  }

  // What `from_mutations` has found out about the first mutations.
  ghost predicate GoodStart<T>(mutations: seq<Mutation<T>>, i: nat)
    requires 0 < |mutations| && i <= |mutations|
  {
    (forall j :: 0 <= j < i ==> mutations[j].collection == mutations[0].collection)
    && Increasing(EntriesIn(mutations)[..i])
  }

  lemma GoodStartMore<T>(mutations: seq<Mutation<T>>, i: nat)
    requires i < |mutations| && GoodStart(mutations, i)
    requires mutations[i].collection == mutations[0].collection
    requires i > 0 ==> mutations[i - 1].entry.sequence < mutations[i].entry.sequence
    ensures GoodStart(mutations, i + 1)
    ensures Latest(EntriesIn(mutations)[..i + 1])
            == Latest(EntriesIn(mutations)[..i])[mutations[i].entry.id := mutations[i].entry]
  {
    StillIncreasing(EntriesIn(mutations), i);
    LatestOfNewest(EntriesIn(mutations), i);
  }

  method MakeSegment<T(==)>(collection: string, records: map<RecordId, Live<T>>, tombstones: map<RecordId, Tombstone>,
                            ghost m: Versions<T>)
    returns (segment: Segment<T>)
    requires Splits(m, records, tombstones)
    ensures segment.collection == collection && Latest(Entries([segment], collection)) == m
  {
    var live := ListRecords(records);
    var dead := ListTombstones(tombstones);
    SplitIsLatest(m, records, tombstones, live, dead);
    segment := Segment(collection, live, dead);
    assert Entries([segment], collection) == LiveEntries(live) + DeadEntries<T>(dead);
  }

  // `Segment::from_mutations`: a segment keeps one version per id and answers like the mutations.
  method FromMutations<T(==)>(mutations: seq<Mutation<T>>) returns (r: Result<Segment<T>, SegmentError>)
    ensures r == Err(EmptyMutationSet) <==> mutations == []
    ensures r.Ok? <==> mutations != [] && OfOneCollection(mutations) && Increasing(EntriesIn(mutations))
    ensures r == Err(CollectionMismatch) ==> !OfOneCollection(mutations)
    ensures r.Err? && r.error.SequenceRegression? ==> r.error.current <= r.error.previous
    ensures r.Ok? ==> Latest(Entries([r.value], mutations[0].collection)) == Latest(EntriesIn(mutations))
  {
    if mutations == [] { return Err(EmptyMutationSet); }
    var records: map<RecordId, Live<T>>, tombstones: map<RecordId, Tombstone> := map[], map[];
    for i := 0 to |mutations|
      invariant GoodStart(mutations, i)
      invariant Splits(Latest(EntriesIn(mutations)[..i]), records, tombstones)
    {
      if mutations[i].collection != mutations[0].collection { return Err(CollectionMismatch); }
      var e := mutations[i].entry;
      if i > 0 && e.sequence <= mutations[i - 1].entry.sequence {
        assert EntriesIn(mutations)[i - 1].sequence >= EntriesIn(mutations)[i].sequence;
        return Err(SequenceRegression(mutations[i - 1].entry.sequence, e.sequence));
      }
      GoodStartMore(mutations, i);
      SplitsMore(Latest(EntriesIn(mutations)[..i]), e, records, tombstones);
      match e.value {
        case Some(value) =>
          tombstones := tombstones - {e.id};
          records := records[e.id := Live(e.id, e.sequence, value)];
        case None =>
          records := records - {e.id};
          tombstones := tombstones[e.id := Tombstone(e.id, e.sequence)];
      }
    }
    assert EntriesIn(mutations)[..|mutations|] == EntriesIn(mutations);
    var segment := MakeSegment(mutations[0].collection, records, tombstones, Latest(EntriesIn(mutations)));
    r := Ok(segment);
  }
}
