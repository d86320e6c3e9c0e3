/** The service that carries out catch-up, activation and recovery
    (crates/ketebe-server/src/embedding_migration.rs). Each method returns, as a ghost, the run of
    the transition system in `Cutover` that it performed; any file operation may fail, which ends
    the method where it stands. */
module MigrationService {
  import opened Wrappers
  import opened Store
  import opened Migration
  import opened Cutover
  import opened EmbeddingCache
  import opened CachedEmbedding

  datatype MigrationError =
    | MigrationNotReady(status: Status)
    | MigrationAlreadyExists(existing: Status)
    | TargetAlreadyActive
    | ProviderProfileUnavailable
    | DimensionMismatch
    | ProviderChanged
    | Staging(cause: StagingError)
    | SourceChanged
    | Corrupt
    | Write
    | Io

  method ListIds(records: Records) returns (ids: seq<RecordId>)
    ensures Lists(ids, records)
  {
    ids := [];
    var todo := records.Keys;
    while todo != {}
      invariant todo <= records.Keys
      invariant forall i, j :: 0 <= i < j < |ids| ==> ids[i] != ids[j]
      invariant forall id :: id in ids <==> id in records && id !in todo
      decreases todo
    {
      var id :| id in todo;
      ids := ids + [id];
      todo := todo - {id};
    }
  }

  // The outcome of writing the staged vectors one after the other, with the texts that were checked.
  function Rewrite(staged: seq<Staged>, pending: Texts, records: Records, target: string, nextSequence: nat)
    : (Records, nat)
    requires forall e :: e in staged ==> e.id in pending
  {
    if staged == [] then (records, nextSequence)
    else
      var (before, next) := Rewrite(staged[..|staged| - 1], pending, records, target, nextSequence);
      var e := staged[|staged| - 1];
      (before[e.id := Record(next, Some(target), e.vector, pending[e.id])], next + 1)
  }

  lemma RewriteOne(init: seq<Staged>, e: Staged, pending: Texts, records: Records, target: string, first: nat,
                   before: Records, next: nat)
    requires Rewritten(init, pending, records, target, first, before, next)
    requires e.id in pending && e.id !in StagedIds(init)
    ensures Rewritten(init + [e], pending, records, target, first,
                      before[e.id := Record(next, Some(target), e.vector, pending[e.id])], next + 1)
  {
    assert StagedIds(init + [e]) == StagedIds(init) + {e.id};
    forall f | f in init
      ensures f.id != e.id
    {
      assert f.id in StagedIds(init);
    }
  }

  lemma {:induction false} RewriteWrites(staged: seq<Staged>, pending: Texts, records: Records, target: string,
                                         nextSequence: nat)
    requires DistinctIds(staged) && forall e :: e in staged ==> e.id in pending
    ensures var (after, next) := Rewrite(staged, pending, records, target, nextSequence);
            Rewritten(staged, pending, records, target, nextSequence, after, next)
  {
    if staged != [] {
      var init, e := staged[..|staged| - 1], staged[|staged| - 1];
      assert staged == init + [e];
      RewriteWrites(init, pending, records, target, nextSequence);
      var (before, next) := Rewrite(init, pending, records, target, nextSequence);
      RewriteOne(init, e, pending, records, target, nextSequence, before, next);
    }
  }

  // Every record still has the text that it was embedded from.
  ghost predicate HaveTexts(records: Records) {
    forall id :: id in records ==> records[id].text.Some?
  }

  lemma NoneStagedIff(staged: seq<Staged>, records: Records)
    ensures StagedIds(staged) == records.Keys ==> (staged == [] <==> records == map[])
  {
    if staged != [] {
      assert staged[0].id in StagedIds(staged);
    }
  }

  class Service {
    const provider: Provider
    // The dimension of the collection's vectors.
    const dimension: nat
    // The cache of vectors, which other requests use as well.
    const cache: Cache<Key, Vector>

    // Whether every operation on files, on the collection and of the provider succeeds, and whether
    // nobody else writes to the collection. Safety is proved without either; progress under both.
    const healthy: bool
    const alone: bool

    var identity: Identity
    var status: Status
    var snapshotIdentity: Identity
    var snapshot: seq<Staged>
    var journal: Option<Journal>
    // The texts that the check of the running activation has read.
    var pending: Texts
    var active: string
    var records: Records
    var nextSequence: nat
    // Whether a migration of this collection is registered as being built in this process.
    var building: bool

    // The service opened on what is on disk, as after a crash.
    constructor (durable: Sys, provider: Provider, dimension: nat, cache: Cache<Key, Vector>, healthy: bool,
                 alone: bool)
      ensures View(Idle) == durable.(pc := Idle) && !building
      ensures this.provider == provider && this.cache == cache && this.healthy == healthy && this.alone == alone
    {
      this.provider, this.dimension, this.cache := provider, dimension, cache;
      this.healthy, this.alone := healthy, alone;
      building := false;
      identity, status, snapshotIdentity, snapshot :=
        durable.identity, durable.status, durable.snapshotIdentity, durable.snapshot;
      journal, pending, active, records, nextSequence :=
        durable.journal, durable.pending, durable.active, durable.records, durable.nextSequence;
    }

    // `persist_json` renames the new file into place and then syncs the directory: if it fails, the
    // file may have been replaced or not.
    method Persisted() returns (written: bool, ok: bool)
      ensures ok ==> written
      ensures healthy ==> ok
    {
      ok := *;
      ok := ok || healthy;
      written := *;
      written := written || ok;
    }

    // Operations that change the collection, as far as they succeed as a whole.
    method Performs() returns (ok: bool)
      ensures healthy ==> ok
    {
      ok := *;
      ok := ok || healthy;
    }

    ghost function View(pc: Pc): Sys
      reads this
    {
      Sys(identity, status, snapshotIdentity, snapshot, journal, pending, active, records, nextSequence, pc)
    }

    ghost predicate Valid()
      reads this, cache
    {
      Inv(View(Idle), provider) && CacheGood()
    }

    ghost predicate CacheGood()
      reads this, cache
    {
      cache.Valid() && Correct(cache.entries, provider.keyOf, provider.embed)
    }

    // What a method that performed `run` promises.
    ghost predicate Performed(start: Sys, run: seq<Sys>)
      reads this
    {
      IsRun(run, provider) && run[0] == start && Last(run) == View(Idle)
    }

    lemma PerformedKeepsInv(start: Sys, run: seq<Sys>)
      requires Inv(start, provider) && Performed(start, run)
      ensures Inv(View(Idle), provider)
    {
      RunKeepsInv(run, provider);
    }

    // `start`: refuses while a migration is building, ready or being activated. It also refuses while
    // one is registered as being built, but only after the state file has been overwritten. `registered`
    // is the provider registered under the target's name, with its dimension if that is fixed.
    method Start(target: Identity, registered: Option<Option<nat>>) returns (r: Result<seq<RecordId>, MigrationError>)
      modifies this`identity, this`status, this`building
      ensures r == Err(TargetAlreadyActive) <==> active == target.target
      ensures r == Err(ProviderProfileUnavailable) <==> active != target.target && registered == None
      ensures r == Err(DimensionMismatch) <==>
              active != target.target && registered.Some? && registered.value !in {None, Some(dimension)}
      ensures r.Err? && r.error in {TargetAlreadyActive, ProviderProfileUnavailable, DimensionMismatch} ==>
                identity == old(identity) && status == old(status) && building == old(building)
      ensures active != target.target && registered in {Some(None), Some(Some(dimension))} ==>
                if old(status) == Running || old(status) == Ready || old(status) == Activating then
                  && r == Err(MigrationAlreadyExists(old(status)))
                  && identity == old(identity) && status == old(status) && building == old(building)
                else if r == Err(Io) then
                  && !healthy && building == old(building)
                  && (identity, status) in {(old(identity), old(status)), (target.(source := active), Running)}
                else
                  && (identity, status) == (target.(source := active), Running) && building
                  && (if old(building) then r == Err(MigrationAlreadyExists(Running))
                      else r.Ok? && Lists(r.value, records))
    {
      if active == target.target { return Err(TargetAlreadyActive); }
      if registered.None? { return Err(ProviderProfileUnavailable); }
      if registered.value.Some? && registered.value.value != dimension { return Err(DimensionMismatch); }
      if status == Running || status == Ready || status == Activating {
        return Err(MigrationAlreadyExists(status));
      }
      var ids := ListIds(records);
      var written, ok := Persisted();
      if written { identity, status := target.(source := active), Running; }
      if !ok { return Err(Io); }
      if building { return Err(MigrationAlreadyExists(Running)); }
      building := true;
      r := Ok(ids);
    }

    // `build_snapshot` on the records as they were listed at the start, and what is recorded of its
    // failure.
    method BuildSnapshot(ids: seq<RecordId>, listed: Records) returns (r: Result<(), MigrationError>)
      requires Lists(ids, listed) && status == Running
      modifies this`status, this`snapshot, this`snapshotIdentity, this`building
      ensures !building
      ensures r.Ok? ==> status == Ready
      ensures r.Err? && healthy ==> status == Failed
      ensures status == Ready ==> snapshotIdentity == identity && Rebuild(ids, listed, provider) == Ok(snapshot)
      ensures status in {Running, Ready, Failed}
      ensures Rebuild(ids, listed, provider).Err? ==> r.Err? && snapshot == old(snapshot)
      ensures healthy ==> (r.Ok? <==> HaveTexts(listed))
    {
      r := StageAndStore(ids, listed);
      RebuildSucceedsIff(ids, listed, provider);
      if r.Err? {
        var written, _ := Persisted();
        if written { status := Failed; }
      }
      building := false;
    }

    method StageAndStore(ids: seq<RecordId>, listed: Records) returns (r: Result<(), MigrationError>)
      requires Lists(ids, listed) && status == Running
      modifies this`status, this`snapshot, this`snapshotIdentity
      ensures status in {Running, Ready}
      ensures r.Ok? ==> status == Ready
      ensures status == Ready ==> snapshotIdentity == identity && Rebuild(ids, listed, provider) == Ok(snapshot)
      ensures Rebuild(ids, listed, provider).Err? ==> r.Err? && snapshot == old(snapshot)
      ensures healthy && Rebuild(ids, listed, provider).Ok? ==> r.Ok?
    {
      var staged: seq<Staged> := [];
      for i := 0 to |ids|
        invariant Rebuild(ids[..i], listed, provider) == Ok(staged)
        invariant status == Running && snapshot == old(snapshot)
      {
        assert ids[..i + 1][..i] == ids[..i];
        var entry := StageFresh(ids[i], listed[ids[i]], provider);
        if entry.Err? {
          RebuildStops(ids, i, listed, provider);
          return Err(Staging(entry.error));
        }
        var reached := Performs();
        if !reached { return Err(Staging(ProviderFailed)); }
        staged := staged + [entry.value];
        var _, noted := Persisted();
        if !noted { return Err(Io); }
      }
      assert ids[..|ids|] == ids;
      var written, ok := Persisted();
      if written { snapshot, snapshotIdentity := staged, identity; }
      if !ok { return Err(Io); }
      written, ok := Persisted();
      if written { status := Ready; }
      r := if ok then Ok(()) else Err(Io);
    }

    // The run so far: it began at `start`, and the method stands at `pc`.
    ghost predicate Along(start: Sys, run: seq<Sys>, pc: Pc)
      reads this
    {
      IsRun(run, provider) && run[0] == start && Last(run) == View(pc)
    }

    method MarkActivating(ghost start: Sys, ghost run: seq<Sys>) returns (ok: bool, ghost longer: seq<Sys>)
      requires Along(start, run, Checked)
      modifies this`status
      ensures Along(start, longer, if ok then Marked else Idle)
      ensures healthy ==> ok
    {
      var written;
      written, ok := Persisted();
      longer := run;
      if written {
        status := Activating;
        assert DoMarkActivating(Last(run), View(Marked));
        Extend(run, View(Marked), provider);
        longer := run + [View(Marked)];
      }
      if !ok { longer := Stop(longer, View(Idle), provider); }
    }

    method NotePhase(phase: Phase, ghost before: Pc, ghost after: Pc, ghost start: Sys, ghost run: seq<Sys>)
      returns (ok: bool, ghost longer: seq<Sys>)
      requires Along(start, run, before)
      requires (phase, before, after) in {(Prepared, Marked, Journaled), (WalPublished, Published, PublishNoted),
                                          (Committed, Finalized, CommitNoted)}
      modifies this`journal
      ensures Along(start, longer, if ok then after else Idle)
      ensures ok ==> journal == Some(Journal(identity, phase))
      ensures healthy ==> ok
    {
      var written;
      written, ok := Persisted();
      longer := run;
      if written {
        journal := Some(Journal(identity, phase));
        assert Activation(Last(run), View(after));
        Extend(run, View(after), provider);
        longer := run + [View(after)];
      }
      if !ok { longer := Stop(longer, View(Idle), provider); }
    }

    // `publish_embedding_migration_vectors`. It also fails if the collection cannot be sealed after
    // the records have been published.
    method Publish(ghost start: Sys, ghost run: seq<Sys>) returns (ok: bool, ghost longer: seq<Sys>)
      requires Along(start, run, Journaled)
      requires DistinctIds(snapshot) && forall e :: e in snapshot ==> e.id in pending
      modifies this`records, this`nextSequence
      ensures Along(start, longer, if ok then Published else Idle)
      ensures ok ==> records.Keys == old(records).Keys + StagedIds(snapshot)
      ensures ok ==> snapshot != []
      ensures healthy && active == identity.source && snapshot != [] ==> ok
    {
      ok := Performs();
      if !ok || snapshot == [] || active != identity.source {
        longer := Stop(run, View(Idle), provider);
        return false, longer;
      }
      RewriteWrites(snapshot, pending, records, identity.target, nextSequence);
      var (rewritten, next) := Rewrite(snapshot, pending, records, identity.target, nextSequence);
      records, nextSequence := rewritten, next;
      assert DoPublish(Last(run), View(Published));
      Extend(run, View(Published), provider);
      longer := run + [View(Published)];
      var sealed := Performs();
      if !sealed {
        longer := Stop(longer, View(Idle), provider);
        return false, longer;
      }
    }

    // `finalize_embedding_profile_cutover`.
    method Finalize(ghost before: Pc, ghost after: Pc, ghost start: Sys, ghost run: seq<Sys>)
      returns (ok: bool, ghost longer: seq<Sys>)
      requires Along(start, run, before)
      requires (before, after) in {(PublishNoted, Finalized), (Idle, RecoveryFinalized)}
      requires before == Idle ==> Recovering(View(Idle)) && active != identity.target && Complete(View(Idle))
      modifies this`active
      ensures Along(start, longer, if ok then after else Idle)
      ensures ok ==> active == identity.target
      ensures healthy && old(active) in {identity.source, identity.target} ==> ok
    {
      ok := Performs();
      if !ok || (active != identity.target && active != identity.source) {
        longer := Stop(run, View(Idle), provider);
        return false, longer;
      }
      active := identity.target;
      assert Activation(Last(run), View(after)) || Recovery(Last(run), View(after));
      Extend(run, View(after), provider);
      longer := run + [View(after)];
    }

    method MarkActivated(ghost before: Pc, ghost start: Sys, ghost run: seq<Sys>)
      returns (ok: bool, ghost longer: seq<Sys>)
      requires Along(start, run, before)
      requires before in {CommitNoted, RecoveryFinalized}
      modifies this`status
      ensures Along(start, longer, Idle)
      ensures ok ==> status == Activated
      ensures healthy ==> ok
    {
      var written;
      written, ok := Persisted();
      if !written { longer := Stop(run, View(Idle), provider); return; }
      status := Activated;
      assert Activation(Last(run), View(Idle)) || Recovery(Last(run), View(Idle));
      Extend(run, View(Idle), provider);
      longer := run + [View(Idle)];
    }

    // Any number of writes by others, none of them on the target profile before it is active. Once the
    // staged vectors are published, none of them touches a staged record.
    method OtherWrites(published: bool, ghost pc: Pc, ghost start: Sys, ghost run: seq<Sys>)
      returns (ghost longer: seq<Sys>)
      requires Inv(start, provider) && Along(start, run, pc)
      requires published || pc in {Checked, Marked, Journaled} || (pc == Idle && status == Ready)
      modifies this`records, this`nextSequence
      ensures Along(start, longer, pc)
      ensures alone ==> records == old(records)
    {
      longer := run;
      var count: int := *;
      for i := 0 to if count > 0 && !alone then count else 0
        invariant Along(start, longer, pc)
        invariant alone ==> records == old(records)
      {
        longer := OtherWrite(published, pc, start, longer);
      }
    }

    method OtherWrite(published: bool, ghost pc: Pc, ghost start: Sys, ghost run: seq<Sys>)
      returns (ghost longer: seq<Sys>)
      requires Inv(start, provider) && Along(start, run, pc)
      requires published || pc in {Checked, Marked, Journaled} || (pc == Idle && status == Ready)
      modifies this`records, this`nextSequence
      ensures Along(start, longer, pc)
    {
      var id: RecordId, deletes: bool := *, *;
      var profile: Option<string>, vector: Vector, text: Option<string> := *, *, *;
      longer := run;
      RunKeepsInv(run, provider);
      if profile == Some(identity.target) && active != identity.target { return; }
      if published && id in StagedIds(snapshot) { return; }
      var change := if deletes then None else Some(Record(nextSequence, profile, vector, text));
      records := if change.Some? then records[id := change.value] else records - {id};
      nextSequence := nextSequence + 1;
      assert DoWrite(Last(run), View(pc), id, change);
      Extend(run, View(pc), provider);
      longer := run + [View(pc)];
    }

    // The steps after the publication of the records, up to the change of the active profile.
    method NoteAndFinalize(ghost start: Sys, ghost run: seq<Sys>)
      returns (r: Result<(), MigrationError>, ghost longer: seq<Sys>)
      requires Inv(start, provider) && Along(start, run, Published)
      modifies this`journal, this`active, this`records, this`nextSequence
      ensures Along(start, longer, if r.Ok? then Finalized else Idle)
      ensures r.Ok? ==> active == identity.target
      ensures r.Err? ==> r.error in {Write, Io}
      ensures alone ==> records == old(records)
      ensures healthy && old(active) == identity.source ==> r.Ok?
    {
      var ok;
      longer := OtherWrites(true, Published, start, run);
      ok, longer := NotePhase(WalPublished, Published, PublishNoted, start, longer);
      if !ok { return Err(Io), longer; }
      longer := OtherWrites(true, PublishNoted, start, longer);
      ok, longer := Finalize(PublishNoted, Finalized, start, longer);
      r := if ok then Ok(()) else Err(Write);
    }

    method CommitCutOver(ghost start: Sys, ghost run: seq<Sys>)
      returns (r: Result<(), MigrationError>, ghost longer: seq<Sys>)
      requires Inv(start, provider) && Along(start, run, Published)
      modifies this`status, this`journal, this`active, this`records, this`nextSequence
      ensures Along(start, longer, Idle)
      ensures r.Ok? ==> status == Activated && All(View(Idle)) && AsChecked(View(Idle))
      ensures r.Ok? ==> journal == Some(Journal(identity, Committed))
      ensures r.Err? ==> r.error in {Write, Io}
      ensures alone ==> records == old(records)
      ensures healthy && old(active) == identity.source ==> r.Ok?
    {
      var ok;
      r, longer := NoteAndFinalize(start, run);
      if r.Err? { return; }
      ok, longer := NoteCommit(start, longer);
      if !ok { return Err(Io), longer; }
      ok, longer := MarkActivated(CommitNoted, start, longer);
      r := if ok then Ok(()) else Err(Io);
    }

    method NoteCommit(ghost start: Sys, ghost run: seq<Sys>) returns (ok: bool, ghost longer: seq<Sys>)
      requires Inv(start, provider) && Along(start, run, Finalized)
      modifies this`journal, this`records, this`nextSequence
      ensures Along(start, longer, if ok then CommitNoted else Idle)
      ensures ok ==> All(View(Idle)) && AsChecked(View(Idle)) && journal == Some(Journal(identity, Committed))
      ensures alone ==> records == old(records)
      ensures healthy ==> ok
    {
      longer := OtherWrites(true, Finalized, start, run);
      ok, longer := NotePhase(Committed, Finalized, CommitNoted, start, longer);
      if !ok { return; }
      longer := OtherWrites(true, CommitNoted, start, longer);
      RunKeepsInv(longer, provider);
      assert AllMatch(View(CommitNoted)) && AsChecked(View(CommitNoted));
    }

    // The steps from the passed check to the last persist, between which others write.
    method CutOver(ghost start: Sys, ghost run: seq<Sys>)
      returns (r: Result<(), MigrationError>, ghost longer: seq<Sys>)
      requires Inv(start, provider) && Along(start, run, Checked)
      modifies this`status, this`journal, this`records, this`nextSequence, this`active
      ensures Along(start, longer, Idle)
      ensures r.Ok? ==> status == Activated && All(View(Idle)) && AsChecked(View(Idle)) && snapshot != []
      ensures r.Ok? ==> journal == Some(Journal(identity, Committed))
      ensures r.Ok? && alone ==> records.Keys == old(records).Keys + StagedIds(snapshot)
      ensures r.Err? ==> r.error in {Write, Io}
      ensures healthy && old(active) == identity.source && snapshot != [] ==> r.Ok?
    {
      var ok;
      longer := OtherWrites(false, Checked, start, run);
      ok, longer := MarkActivating(start, longer);
      if !ok { return Err(Io), longer; }
      longer := OtherWrites(false, Marked, start, longer);
      ok, longer := NotePhase(Prepared, Marked, Journaled, start, longer);
      if !ok { return Err(Io), longer; }
      longer := OtherWrites(false, Journaled, start, longer);
      RunKeepsInv(longer, provider);
      PendingCovers(View(Journaled));
      ok, longer := Publish(start, longer);
      if !ok { return Err(Write), longer; }
      r, longer := CommitCutOver(start, longer);
    }

    // The loop that counts how many staged records hold their staged vector on the target profile.
    method CountMatches() returns (n: nat)
      ensures n == MatchCount(snapshot, records, identity.target)
    {
      n := 0;
      for i := 0 to |snapshot|
        invariant n == MatchCount(snapshot[..i], records, identity.target)
      {
        assert snapshot[..i + 1][..i] == snapshot[..i];
        if Matches(snapshot[i], records, identity.target) { n := n + 1; }
      }
      assert snapshot[..|snapshot|] == snapshot;
    }

    method PersistVerdict(verdict: Status, ghost run: seq<Sys>) returns (ok: bool, ghost longer: seq<Sys>)
      requires Along(View(Idle), run, Idle) && run == [View(Idle)]
      requires Recovery(View(Idle), View(Idle).(status := verdict))
      modifies this`status
      ensures Along(old(View(Idle)), longer, Idle)
      ensures View(Idle) == old(View(Idle)).(status := verdict) || (!ok && View(Idle) == old(View(Idle)))
      ensures healthy ==> ok
    {
      var written;
      written, ok := Persisted();
      if !written { return false, run; }
      status := verdict;
      Extend(run, View(Idle), provider);
      longer := run + [View(Idle)];
    }

    method RecoverCutover() returns (r: Result<Status, MigrationError>, ghost run: seq<Sys>)
      requires status == Activating
      modifies this`status, this`active
      ensures Performed(old(View(Idle)), run)
      ensures r.Ok? ==> View(Idle) == Recovered(old(View(Idle))) && r.value == status && status in {Ready, Activated}
      ensures r == Err(Corrupt) ==> View(Idle) == Recovered(old(View(Idle))) && status in {Activating, Failed}
      ensures r == Err(SourceChanged) ==> View(Idle) == Recovered(old(View(Idle))) == old(View(Idle))
                                          && active !in {identity.source, identity.target}
      ensures r.Err? ==> r.error in {Corrupt, SourceChanged} || (!healthy && r.error in {Write, Io})
    {
      ghost var start := View(Idle);
      run := [start];
      if !journal.Some? || journal.value.identity != identity {
        return Err(Corrupt), run;
      }
      var ok;
      if active == identity.target {
        ok, run := PersistVerdict(Activated, run);
        return if ok then Ok(Activated) else Err(Io), run;
      }
      if active != identity.source { return Err(SourceChanged), run; }
      var matches := CountMatches();
      if matches == |snapshot| && snapshot != [] {
        ok, run := Finalize(Idle, RecoveryFinalized, start, run);
        if !ok { return Err(Write), run; }
        ok, run := MarkActivated(RecoveryFinalized, start, run);
        return if ok then Ok(Activated) else Err(Io), run;
      }
      if matches == 0 && journal.value.phase == Prepared {
        ok, run := PersistVerdict(Ready, run);
        return if ok then Ok(Ready) else Err(Io), run;
      }
      ok, run := PersistVerdict(Failed, run);
      return if ok then Err(Corrupt) else Err(Io), run;
    }

    // On an installation that only this service has touched, recovery never finds a contradiction.
    method StatusOf() returns (r: Result<Status, MigrationError>, ghost run: seq<Sys>)
      requires Valid()
      modifies this`status, this`active
      ensures Performed(old(View(Idle)), run) && Valid() && status != Failed
      ensures r.Ok? ==> View(Idle) == Recovered(old(View(Idle))) && r.value == status != Activating
      ensures r == Err(Corrupt) ==> View(Idle) == old(View(Idle)) && !JournalUsable(View(Idle))
      ensures r != Err(SourceChanged)
      ensures old(status) != Activating ==> r == Ok(old(status)) && View(Idle) == old(View(Idle))
      ensures healthy ==> (r.Ok? <==> old(status) != Activating || JournalUsable(old(View(Idle))))
    {
      ghost var start := View(Idle);
      if status != Activating { return Ok(status), [View(Idle)]; }
      RecoveryOfInv(start, provider);
      r, run := RecoverCutover();
      PerformedKeepsInv(start, run);
    }

    // A refresh of the snapshot begins with `status()`, which recovers a cutover that was interrupted.
    method CatchUp(providerMatches: bool) returns (r: Result<nat, MigrationError>, ghost run: seq<Sys>)
      requires Valid()
      modifies this`snapshot, this`status, this`active, cache`entries, cache`order
      ensures Performed(old(View(Idle)), run) && Valid()
      ensures r.Ok? ==> status == Ready && r.value == |Reconciled(records, old(snapshot))|
      ensures r.Ok? ==> && CheckPasses(snapshot, records) && snapshotIdentity == identity
                        && Refreshed(records, old(snapshot), snapshot, provider)
      ensures r.Err? && r.error != Io ==> snapshot == old(snapshot)
      ensures r != Err(SourceChanged)
      ensures old(status) !in {Ready, Activating} ==>
                r == Err(MigrationNotReady(old(status))) && View(Idle) == old(View(Idle))
      ensures r.Ok? ==> View(Idle) == Recovered(old(View(Idle))).(snapshot := snapshot)
      // What makes it fail when no operation does: a migration that is not ready once recovered, another
      // provider, or a record without its text.
      ensures healthy ==>
                (r.Ok? <==> Recovered(old(View(Idle))).status == Ready && providerMatches && HaveTexts(records))
      ensures healthy && Recovered(old(View(Idle))).status == Ready && !providerMatches ==> r == Err(ProviderChanged)
      ensures healthy && Recovered(old(View(Idle))).status == Ready && providerMatches && !HaveTexts(records) ==>
                r.Err? && r.error.Staging? && r.error.cause.MissingSourceText?
                && r.error.cause.id in records && records[r.error.cause.id].text == None
    {
      var stood;
      stood, run := StatusOf();
      if stood.Err? { return Err(stood.error), run; }
      if status != Ready { return Err(MigrationNotReady(status)), run; }
      if !providerMatches { return Err(ProviderChanged), run; }
      if snapshotIdentity != identity { return Err(Corrupt), run; }
      r, run := Refresh(old(View(Idle)), run);
    }

    method Refresh(ghost start: Sys, ghost run: seq<Sys>)
      returns (r: Result<nat, MigrationError>, ghost longer: seq<Sys>)
      requires Inv(start, provider) && Performed(start, run) && status == Ready && snapshotIdentity == identity
      requires CacheGood()
      modifies this`snapshot, cache`entries, cache`order
      ensures Performed(start, longer) && Valid()
      ensures r.Ok? ==> r.value == |Reconciled(records, old(snapshot))|
      ensures r.Ok? ==> CheckPasses(snapshot, records) && Refreshed(records, old(snapshot), snapshot, provider)
      ensures r.Err? && r.error != Io ==> snapshot == old(snapshot)
      ensures r != Err(SourceChanged)
      ensures r.Ok? ==> HaveTexts(records)
      ensures healthy && HaveTexts(records) ==> r.Ok?
      ensures healthy && !HaveTexts(records) ==>
                r.Err? && r.error.Staging? && r.error.cause.MissingSourceText?
                && r.error.cause.id in records && records[r.error.cause.id].text == None
    {
      longer := run;
      PerformedKeepsInv(start, run);
      var ids := ListIds(records);
      RebuildSucceedsIff(ids, records, provider);
      var staged, reconciled, _ := Migration.CatchUp(ids, records, snapshot, provider, cache, healthy, alone);
      if staged.Err? { return Err(Staging(staged.error)), longer; }
      StagesPassCheck(ids, records, staged.value, provider);
      var ok;
      ok, longer := StoreSnapshot(ids, staged.value, start, run);
      r := if ok then Ok(reconciled) else Err(Io);
    }

    // Writes the refreshed snapshot and then the state file with its counters.
    method StoreSnapshot(ids: seq<RecordId>, staged: seq<Staged>, ghost start: Sys, ghost run: seq<Sys>)
      returns (ok: bool, ghost longer: seq<Sys>)
      requires Inv(start, provider) && Performed(start, run) && status == Ready && snapshotIdentity == identity
      requires Lists(ids, records) && Stages(ids, records, staged, provider)
      modifies this`snapshot
      ensures Performed(start, longer) && Inv(View(Idle), provider)
      ensures ok ==> snapshot == staged
      ensures healthy ==> ok
    {
      longer := run;
      PerformedKeepsInv(start, run);
      var written;
      written, ok := Persisted();
      if !written { return; }
      snapshot := staged;
      Extend(run, View(Idle), provider);
      longer := run + [View(Idle)];
      PerformedKeepsInv(start, longer);
      if !ok { return; }
      written, ok := Persisted();
    }

    // The check of the snapshot against the records before a cutover.
    method CheckPending() returns (r: Result<(), MigrationError>)
      ensures r.Ok? <==> CheckPasses(snapshot, records)
      ensures r.Ok? <==>
                && |records| == |snapshot|
                && (forall e :: e in snapshot ==>
                      e.id in records && records[e.id].sequence == e.sequence && records[e.id].text != None)
      ensures r.Err? && r.error == SourceChanged ==>
                || |records| != |snapshot|
                || exists e :: e in snapshot && (e.id in records ==> records[e.id].sequence != e.sequence)
      ensures r.Err? && r.error != SourceChanged ==>
                && r.error.Staging? && r.error.cause.MissingSourceText?
                && r.error.cause.id in records && records[r.error.cause.id].text == None
    {
      if |records| != |snapshot| { return Err(SourceChanged); }
      for i := 0 to |snapshot|
        invariant forall e :: e in snapshot[..i] ==>
                    e.id in records && records[e.id].sequence == e.sequence && records[e.id].text.Some?
      {
        var e := snapshot[i];
        assert e in snapshot;
        if e.id !in records || records[e.id].sequence != e.sequence { return Err(SourceChanged); }
        if records[e.id].text.None? { return Err(Staging(MissingSourceText(e.id))); }
      }
      assert snapshot[..|snapshot|] == snapshot;
      r := Ok(());
    }

    lemma CheckPassed(start: Sys, run: seq<Sys>, s: Sys)
      requires IsRun(run, provider) && run[0] == start && Last(run) == s && s.pc == Idle
      requires Inv(s, provider) && s.status == Ready && s.snapshotIdentity == s.identity
      requires CheckPasses(s.snapshot, s.records)
      requires View(Checked) == s.(pc := Checked, pending := StagedTexts(s.snapshot, s.records))
      ensures Along(start, run + [View(Checked)], Checked)
      ensures StagedIds(snapshot) == records.Keys
    {
      CheckCoversEveryRecord(snapshot, records);
      assert DoCheck(s, View(Checked));
      Extend(run, View(Checked), provider);
    }

    // Between the refresh and the check others may write; the check notices.
    method PassCheck(ghost start: Sys, ghost run: seq<Sys>)
      returns (r: Result<(), MigrationError>, ghost longer: seq<Sys>)
      requires Inv(start, provider) && Performed(start, run) && status == Ready && snapshotIdentity == identity
      modifies this`records, this`nextSequence, this`pending
      ensures r.Ok? ==>
                && Along(start, longer, Checked) && Before(View(Checked))
                && StagedIds(snapshot) == records.Keys && pending == StagedTexts(snapshot, records)
      ensures r.Err? ==> Performed(start, longer) && r.error !in {Write, Io}
      ensures r == Err(SourceChanged) ==> Nothing(View(Idle))
      ensures alone ==> records == old(records)
      ensures alone && CheckPasses(snapshot, old(records)) ==> r.Ok?
    {
      longer := OtherWrites(false, Idle, start, run);
      PerformedKeepsInv(start, longer);
      r := CheckPending();
      if r.Err? { return; }
      ghost var before := View(Idle);
      pending := StagedTexts(snapshot, records);
      CheckPassed(start, longer, before);
      longer := longer + [View(Checked)];
    }

    // `checked` are the records that the check has read.
    method CheckAndCutOver(ghost start: Sys, ghost run: seq<Sys>)
      returns (r: Result<Status, MigrationError>, ghost longer: seq<Sys>, ghost checked: Records)
      requires Inv(start, provider) && Performed(start, run) && status == Ready && snapshotIdentity == identity
      modifies this
      ensures Performed(start, longer)
      ensures r.Ok? ==> status == Activated && All(View(Idle)) && CoversChecked(checked)
      ensures alone ==> checked == old(records)
      ensures r.Ok? && alone ==> records.Keys == old(records).Keys != {}
      ensures r == Err(SourceChanged) ==> status == Ready && Nothing(View(Idle))
      ensures healthy && alone && CheckPasses(old(snapshot), old(records)) && old(records) != map[] ==> r.Ok?
    {
      var passed;
      passed, longer := PassCheck(start, run);
      checked := records;
      if passed.Err? { return Err(passed.error), longer, checked; }
      NoneStagedIff(snapshot, records);
      var done;
      done, longer := CutOver(start, longer);
      if done.Err? { return Err(done.error), longer, checked; }
      CheckedAreCovered(checked);
      r := Ok(status);
    }

    lemma CheckedAreCovered(checked: Records)
      requires AsChecked(View(Idle)) && StagedIds(snapshot) == checked.Keys && pending == StagedTexts(snapshot, checked)
      ensures CoversChecked(checked)
    {
      forall id | id in checked
        ensures id in records && records[id].text == checked[id].text
      {
        var e :| e in snapshot && e.id == id;
        assert e.id in pending;
      }
    }

    // Every record that the check has read is staged, and has kept the text it had then.
    ghost predicate CoversChecked(checked: Records)
      reads this
    {
      && StagedIds(snapshot) == checked.Keys
      && forall id :: id in checked ==> id in records && records[id].text == checked[id].text
    }

    method Activate(providerMatches: bool)
      returns (r: Result<Status, MigrationError>, ghost run: seq<Sys>, ghost checked: Records)
      requires Valid()
      modifies this, cache`entries, cache`order
      ensures Performed(old(View(Idle)), run) && Valid()
      ensures r.Ok? ==> status == Activated && All(View(Idle)) && CoversChecked(checked)
      ensures r.Ok? && alone ==> checked == old(records) && StagedIds(snapshot) == records.Keys
      ensures r == Err(SourceChanged) ==> status == Ready && Nothing(View(Idle))
      ensures old(status) !in {Ready, Activating} ==>
                r == Err(MigrationNotReady(old(status))) && View(Idle) == old(View(Idle))
      ensures healthy && alone ==>
                (r.Ok? <==> && Recovered(old(View(Idle))).status == Ready && providerMatches
                            && HaveTexts(old(records)) && old(records) != map[])
    {
      ghost var start := View(Idle);
      checked := records;
      var caught;
      caught, run := CatchUp(providerMatches);
      if caught.Err? { return Err(caught.error), run, checked; }
      r, run, checked := CheckAndCutOver(start, run);
      PerformedKeepsInv(start, run);
    }
  }

  lemma PendingCovers(s: Sys)
    requires Covered(s)
    ensures forall e :: e in s.snapshot ==> e.id in s.pending
  {
    forall e | e in s.snapshot
      ensures e.id in s.pending
    {
      assert e.id in StagedIds(s.snapshot);
    }
  }

  ghost function Stop(run: seq<Sys>, t: Sys, provider: Provider): (longer: seq<Sys>)
    requires IsRun(run, provider) && t == Last(run).(pc := Idle)
    ensures IsRun(longer, provider) && Last(longer) == t && longer[0] == run[0]
  {
    assert DoStop(Last(run), t);
    Extend(run, t, provider);
    run + [t]
  }
}
