/** The cutover of a collection to a new embedding profile, as a transition system over the four
    durable items it involves: the migration state file, the staged snapshot, the cutover journal,
    and the collection's active profile with its records
    (crates/ketebe-server/src/embedding_migration.rs, crates/ketebe-server/src/write.rs).
    Every persist, publish and finalize call is one step; a crash or an error return may fall
    between any two, and foreground writes to other records may come in between. */
module Cutover {
  import opened Wrappers
  import opened Store
  import opened Migration

  datatype Status = Running | Ready | Activating | Activated | Failed

  datatype Phase = Prepared | WalPublished | Committed

  datatype Journal = Journal(identity: Identity, phase: Phase)

  // Where a running activation or recovery stands; lost in a crash.
  datatype Pc =
    | Idle | Checked | Marked | Journaled | Published | PublishNoted | Finalized | CommitNoted | RecoveryFinalized

  // What the check before a cutover has read of the staged records: the texts they then had.
  type Texts = map<RecordId, Option<string>>

  function StagedTexts(staged: seq<Staged>, records: Records): Texts {
    map id | id in StagedIds(staged) && id in records :: records[id].text
  }

  datatype Sys = Sys(
    identity: Identity,
    status: Status,
    snapshotIdentity: Identity,
    snapshot: seq<Staged>,
    journal: Option<Journal>,
    pending: Texts,
    active: string,
    records: Records,
    nextSequence: nat,
    pc: Pc)
  {
    function Source(): string { identity.source }
    function Target(): string { identity.target }
  }

  // ---------------------------------------------------------------- what recovery looks at

  predicate JournalUsable(s: Sys) {
    s.journal.Some? && s.journal.value.identity == s.identity
  }

  predicate Matches(e: Staged, records: Records, target: string) {
    e.id in records && records[e.id].profile == Some(target) && records[e.id].vector == e.vector
  }

  function MatchCount(staged: seq<Staged>, records: Records, target: string): (n: nat)
    ensures n <= |staged|
  {
    if staged == [] then 0
    else
      MatchCount(staged[..|staged| - 1], records, target)
      + if Matches(staged[|staged| - 1], records, target) then 1 else 0
  }

  predicate AllMatch(s: Sys) {
    forall e :: e in s.snapshot ==> Matches(e, s.records, s.Target())
  }

  predicate NoneMatches(s: Sys) {
    forall e :: e in s.snapshot ==> !Matches(e, s.records, s.Target())
  }

  lemma {:induction false} MatchCountExtremes(staged: seq<Staged>, records: Records, target: string)
    ensures MatchCount(staged, records, target) == |staged|
            <==> forall e :: e in staged ==> Matches(e, records, target)
    ensures MatchCount(staged, records, target) == 0
            <==> forall e :: e in staged ==> !Matches(e, records, target)
  {
    if staged != [] {
      var init, last := staged[..|staged| - 1], staged[|staged| - 1];
      assert staged == init + [last];
      MatchCountExtremes(init, records, target);
      OneMoreMatches(init, last, records, target);
    }
  }

  lemma OneMoreMatches(init: seq<Staged>, last: Staged, records: Records, target: string)
    ensures (forall e :: e in init + [last] ==> Matches(e, records, target)) <==>
            (forall e :: e in init ==> Matches(e, records, target)) && Matches(last, records, target)
    ensures (forall e :: e in init + [last] ==> !Matches(e, records, target)) <==>
            (forall e :: e in init ==> !Matches(e, records, target)) && !Matches(last, records, target)
  {
    assert last in init + [last] && forall e :: e in init ==> e in init + [last];
  }

  // ---------------------------------------------------------------- steps

  ghost predicate DoCatchUp(s: Sys, t: Sys, provider: Provider) {
    && s.pc == Idle && s.status == Ready && s.snapshotIdentity == s.identity
    && t == s.(snapshot := t.snapshot)
    && exists ids :: Lists(ids, s.records) && Stages(ids, s.records, t.snapshot, provider)
  }

  ghost predicate DoCheck(s: Sys, t: Sys) {
    && s.pc == Idle && s.status == Ready && s.snapshotIdentity == s.identity
    && CheckPasses(s.snapshot, s.records)
    && t == s.(pc := Checked, pending := StagedTexts(s.snapshot, s.records))
  }

  ghost predicate DoMarkActivating(s: Sys, t: Sys) {
    s.pc == Checked && t == s.(status := Activating, pc := Marked)
  }

  ghost predicate DoWriteJournal(s: Sys, t: Sys) {
    s.pc == Marked && t == s.(journal := Some(Journal(s.identity, Prepared)), pc := Journaled)
  }

  // Exactly the staged records have been written, each on the target profile with its staged vector
  // and the text that the check found, whatever has become of it since.
  ghost predicate Rewritten(staged: seq<Staged>, pending: Texts, records: Records, target: string, first: nat,
                            after: Records, next: nat)
  {
    && next == first + |staged| && after.Keys == records.Keys + StagedIds(staged)
    && (forall id :: id in records && id !in StagedIds(staged) ==> after[id] == records[id])
    && forall i :: 0 <= i < |staged| ==>
         var id := staged[i].id;
         id in pending && id in after && after[id] == Record(first + i, Some(target), staged[i].vector, pending[id])
  }

  // The batch is appended as a whole, and only to a collection still on the source profile.
  ghost predicate DoPublish(s: Sys, t: Sys) {
    && s.pc == Journaled && s.snapshot != [] && s.active == s.Source()
    && Rewritten(s.snapshot, s.pending, s.records, s.Target(), s.nextSequence, t.records, t.nextSequence)
    && t == s.(records := t.records, nextSequence := t.nextSequence, pc := Published)
  }

  ghost predicate DoNotePublished(s: Sys, t: Sys) {
    s.pc == Published && t == s.(journal := Some(Journal(s.identity, WalPublished)), pc := PublishNoted)
  }

  ghost predicate DoFinalize(s: Sys, t: Sys) {
    && s.pc == PublishNoted && s.active in {s.Source(), s.Target()}
    && t == s.(active := s.Target(), pc := Finalized)
  }

  ghost predicate DoNoteCommitted(s: Sys, t: Sys) {
    s.pc == Finalized && t == s.(journal := Some(Journal(s.identity, Committed)), pc := CommitNoted)
  }

  ghost predicate DoMarkActivated(s: Sys, t: Sys) {
    s.pc == CommitNoted && t == s.(status := Activated, pc := Idle)
  }

  // Recovery runs when the state file says `Activating`, and looks at the journal first.
  predicate Recovering(s: Sys) {
    s.pc == Idle && s.status == Activating && JournalUsable(s)
  }

  predicate Complete(s: Sys) {
    MatchCount(s.snapshot, s.records, s.Target()) == |s.snapshot| && s.snapshot != []
  }

  predicate Untouched(s: Sys) {
    MatchCount(s.snapshot, s.records, s.Target()) == 0 && s.journal.Some? && s.journal.value.phase == Prepared
  }

  ghost predicate DoRecoverActivated(s: Sys, t: Sys) {
    Recovering(s) && s.active == s.Target() && t == s.(status := Activated)
  }

  ghost predicate DoRecoverFinalize(s: Sys, t: Sys) {
    && Recovering(s) && s.active != s.Target() && s.active == s.Source() && Complete(s)
    && t == s.(active := s.Target(), pc := RecoveryFinalized)
  }

  ghost predicate DoRecoverMark(s: Sys, t: Sys) {
    s.pc == RecoveryFinalized && t == s.(status := Activated, pc := Idle)
  }

  ghost predicate DoRecoverReady(s: Sys, t: Sys) {
    && Recovering(s) && s.active != s.Target() && s.active == s.Source()
    && !Complete(s) && Untouched(s) && t == s.(status := Ready)
  }

  ghost predicate DoRecoverFail(s: Sys, t: Sys) {
    && Recovering(s) && s.active != s.Target() && s.active == s.Source()
    && !Complete(s) && !Untouched(s) && t == s.(status := Failed)
  }

  // A crash, or an error return at any point.
  ghost predicate DoStop(s: Sys, t: Sys) {
    t == s.(pc := Idle)
  }

  // A foreground write or deletion. Once the staged vectors are published it does not touch a staged
  // record until the cutover is over, and it does not put a record on the target profile before that
  // profile is active.
  ghost predicate DoWrite(s: Sys, t: Sys, id: RecordId, change: Option<Record>) {
    && ((s.pc != Idle || s.status == Activating) && !Before(s) ==> id !in StagedIds(s.snapshot))
    && (change.Some? ==> change.value.sequence == s.nextSequence)
    && (change.Some? && change.value.profile == Some(s.Target()) ==> s.active == s.Target())
    && t == s.(nextSequence := s.nextSequence + 1,
               records := if change.Some? then s.records[id := change.value] else s.records - {id})
  }

  ghost predicate DoForeground(s: Sys, t: Sys) {
    exists id, change :: DoWrite(s, t, id, change)
  }

  ghost predicate Activation(s: Sys, t: Sys) {
    || DoCheck(s, t) || DoMarkActivating(s, t) || DoWriteJournal(s, t) || DoPublish(s, t)
    || DoNotePublished(s, t) || DoFinalize(s, t) || DoNoteCommitted(s, t) || DoMarkActivated(s, t)
  }

  ghost predicate Recovery(s: Sys, t: Sys) {
    || DoRecoverActivated(s, t) || DoRecoverFinalize(s, t) || DoRecoverMark(s, t)
    || DoRecoverReady(s, t) || DoRecoverFail(s, t)
  }

  ghost predicate Next(s: Sys, t: Sys, provider: Provider) {
    DoCatchUp(s, t, provider) || Activation(s, t) || Recovery(s, t) || DoStop(s, t) || DoForeground(s, t)
  }

  // ---------------------------------------------------------------- the invariant

  ghost predicate OffTarget(s: Sys) {
    forall id :: id in s.records ==> s.records[id].profile != Some(s.Target())
  }

  // Nothing of the cutover has reached the records.
  ghost predicate Before(s: Sys) {
    s.active == s.Source() && OffTarget(s)
  }

  // All of it has.
  ghost predicate After(s: Sys) {
    s.snapshot != [] && AllMatch(s) && JournalUsable(s)
  }

  // The staged records have the texts that the check found.
  ghost predicate AsChecked(s: Sys) {
    forall e :: e in s.snapshot ==>
      e.id in s.records && e.id in s.pending && s.records[e.id].text == s.pending[e.id]
  }

  // A journal left by an earlier attempt does not claim that this migration was published.
  ghost predicate JournalFresh(s: Sys) {
    JournalUsable(s) ==> s.journal.value.phase == Prepared
  }

  ghost predicate WellFormed(s: Sys, provider: Provider) {
    && s.Source() != s.Target()
    && s.snapshotIdentity == s.identity
    && DistinctIds(s.snapshot)
    && Sound(s.snapshot, s.records, provider)
    && (forall id :: id in s.records ==> s.records[id].sequence < s.nextSequence)
    && (forall e :: e in s.snapshot ==> e.sequence < s.nextSequence)
  }

  // The check has read every staged record.
  ghost predicate Covered(s: Sys) {
    StagedIds(s.snapshot) <= s.pending.Keys
  }

  ghost predicate Consistent(s: Sys) {
    match s.pc
    case Idle =>
      (match s.status
       case Ready => Before(s) && JournalFresh(s)
       case Activating => (Before(s) && JournalFresh(s)) || (After(s) && s.active in {s.Source(), s.Target()})
       case Activated => s.active == s.Target()
       case _ => false)
    case Checked => s.status == Ready && Before(s) && JournalFresh(s) && Covered(s)
    case Marked => s.status == Activating && Before(s) && JournalFresh(s) && Covered(s)
    case Journaled => s.status == Activating && Before(s) && JournalFresh(s) && JournalUsable(s) && Covered(s)
    case Published => s.status == Activating && After(s) && AsChecked(s) && s.active == s.Source()
    case PublishNoted => s.status == Activating && After(s) && AsChecked(s) && s.active == s.Source()
    case Finalized => s.status == Activating && After(s) && AsChecked(s) && s.active == s.Target()
    case CommitNoted => s.status == Activating && After(s) && AsChecked(s) && s.active == s.Target()
    case RecoveryFinalized => s.status == Activating && After(s) && s.active == s.Target()
  }

  ghost predicate Inv(s: Sys, provider: Provider) {
    WellFormed(s, provider) && Consistent(s)
  }

  // A migration whose snapshot has just been built.
  ghost predicate Initial(s: Sys, provider: Provider) {
    WellFormed(s, provider) && s.pc == Idle && s.status == Ready && Before(s) && JournalFresh(s)
  }

  // Writes that arrive while a snapshot is being built do not spoil it: whatever was listed either
  // is still current or has been superseded by a later version.
  lemma BuiltSnapshotIsInitial(s: Sys, ids: seq<RecordId>, listed: Records, frontier: nat, provider: Provider)
    requires Lists(ids, listed) && Rebuild(ids, listed, provider) == Ok(s.snapshot)
    requires forall id :: id in listed ==> listed[id].sequence < frontier
    requires forall id :: id in s.records ==>
               (id in listed && s.records[id] == listed[id]) || frontier <= s.records[id].sequence
    requires frontier <= s.nextSequence && forall id :: id in s.records ==> s.records[id].sequence < s.nextSequence
    requires s.Source() != s.Target() && s.snapshotIdentity == s.identity && s.pc == Idle && s.status == Ready
    ensures WellFormed(s, provider)
    ensures Initial(s, provider) <==> s.active == s.Source() && OffTarget(s) && JournalFresh(s)
  {
    RebuildStages(ids, listed, provider);
    StagesAreSound(ids, listed, s.snapshot, provider);
    StagesCover(ids, listed, s.snapshot, provider);
    forall e | e in s.snapshot && e.id in s.records && s.records[e.id].sequence == e.sequence
      ensures IsStagedFor(e, s.records[e.id], provider)
    {
      assert listed[e.id].sequence == e.sequence < frontier;
    }
  }

  lemma CatchUpKeepsInv(s: Sys, t: Sys, provider: Provider)
    requires Inv(s, provider) && DoCatchUp(s, t, provider)
    ensures Inv(t, provider)
  {
    var ids :| Lists(ids, s.records) && Stages(ids, s.records, t.snapshot, provider);
    StagesAreSound(ids, s.records, t.snapshot, provider);
    StagesCover(ids, s.records, t.snapshot, provider);
  }

  lemma PublishKeepsInv(s: Sys, t: Sys, provider: Provider)
    requires Inv(s, provider) && DoPublish(s, t)
    ensures Inv(t, provider)
  {
    forall e | e in t.snapshot
      ensures t.records[e.id].sequence != e.sequence
    {
    }
  }

  lemma ActivationKeepsInv(s: Sys, t: Sys, provider: Provider)
    requires Inv(s, provider) && Activation(s, t)
    ensures Inv(t, provider)
  {
    if DoPublish(s, t) {
      PublishKeepsInv(s, t, provider);
    }
  }

  lemma RecoveryKeepsInv(s: Sys, t: Sys, provider: Provider)
    requires Inv(s, provider) && Recovery(s, t)
    ensures Inv(t, provider)
  {
    MatchCountExtremes(s.snapshot, s.records, s.Target());
    if s.pc == Idle && Before(s) {
      assert NoneMatches(s);
    }
  }

  lemma ForegroundKeepsInv(s: Sys, t: Sys, provider: Provider)
    requires Inv(s, provider) && DoForeground(s, t)
    ensures Inv(t, provider)
  {
    assert AllMatch(s) && (s.pc != Idle || s.status == Activating) ==> AllMatch(t);
  }

  lemma NextKeepsInv(s: Sys, t: Sys, provider: Provider)
    requires Inv(s, provider) && Next(s, t, provider)
    ensures Inv(t, provider)
  {
    if DoCatchUp(s, t, provider) {
      CatchUpKeepsInv(s, t, provider);
    } else if Activation(s, t) {
      ActivationKeepsInv(s, t, provider);
    } else if Recovery(s, t) {
      RecoveryKeepsInv(s, t, provider);
    } else if DoForeground(s, t) {
      ForegroundKeepsInv(s, t, provider);
    }
  }

  ghost predicate IsRun(run: seq<Sys>, provider: Provider) {
    run != [] && forall i :: 0 <= i < |run| - 1 ==> Next(run[i], run[i + 1], provider)
  }

  ghost function Last(run: seq<Sys>): Sys
    requires run != []
  {
    run[|run| - 1]
  }

  lemma Extend(run: seq<Sys>, t: Sys, provider: Provider)
    requires IsRun(run, provider) && Next(Last(run), t, provider)
    ensures IsRun(run + [t], provider) && Last(run + [t]) == t
  {
    var longer := run + [t];
    forall i | 0 <= i < |longer| - 1
      ensures Next(longer[i], longer[i + 1], provider)
    {
      if i < |run| - 1 {
        assert Next(run[i], run[i + 1], provider);
      }
    }
  }

  lemma {:induction false} RunKeepsInvAt(run: seq<Sys>, i: nat, provider: Provider)
    requires IsRun(run, provider) && Inv(run[0], provider) && i < |run|
    ensures Inv(run[i], provider)
  {
    if i > 0 {
      RunKeepsInvAt(run, i - 1, provider);
      NextKeepsInv(run[i - 1], run[i], provider);
    }
  }

  lemma RunKeepsInv(run: seq<Sys>, provider: Provider)
    requires IsRun(run, provider) && Inv(run[0], provider)
    ensures Inv(run[|run| - 1], provider)
  {
    RunKeepsInvAt(run, |run| - 1, provider);
  }

  // ---------------------------------------------------------------- all or nothing

  // `status()` run to its end on what a crash left behind.
  function Recovered(s: Sys): Sys {
    if s.status != Activating || !JournalUsable(s) then s
    else if s.active == s.Target() then s.(status := Activated)
    else if s.active != s.Source() then s
    else if Complete(s) then s.(active := s.Target(), status := Activated)
    else if Untouched(s) then s.(status := Ready)
    else s.(status := Failed)
  }

  // No staged record is on the target profile, and the collection is not either.
  ghost predicate Nothing(s: Sys) {
    s.active == s.identity.source && forall e :: e in s.snapshot && e.id in s.records ==>
      s.records[e.id].profile != Some(s.identity.target)
  }

  // The target profile is active and every staged record holds its staged vector.
  ghost predicate All(s: Sys) {
    s.active == s.identity.target && AllMoved(s)
  }

  ghost predicate AllMoved(s: Sys) {
    forall e :: e in s.snapshot ==> IsMoved(e, s)
  }

  ghost predicate IsMoved(e: Staged, s: Sys) {
    && e.id in s.records && s.records[e.id].profile == Some(s.identity.target)
    && s.records[e.id].vector == e.vector
  }

  ghost predicate NoneIsMoved(s: Sys) {
    forall e :: e in s.snapshot ==> !IsMoved(e, s)
  }

  ghost predicate AllOrNothing(s: Sys, t: Sys) {
    && (t.status == Ready || t.status == Activated || t.status == Activating)
    && (t.status == Ready ==> Nothing(t))
    && (t.status == Activated ==> All(t) && t.snapshot != [])
    && (t.status == Activating <==> s.journal == None || s.journal.value.identity != s.identity)
    && (t.status == Activating ==> t == s && Nothing(t))
    && t == s.(active := t.active, status := t.status)
  }

  lemma RecoveryOfInv(s: Sys, provider: Provider)
    requires Inv(s, provider) && s.status == Activating && s.pc == Idle
    ensures AllOrNothing(s, Recovered(s)) && Recovered(Recovered(s)) == Recovered(s)
  {
    MatchCountExtremes(s.snapshot, s.records, s.Target());
    if Before(s) {
      assert NoneMatches(s);
    }
  }

  // However a migration got there, a crash during its activation is recovered either to nothing or
  // to all of it. The exception is a crash before the journal was written: recovery then refuses and
  // changes nothing, and nothing had been done. Recovering again changes nothing either.
  lemma RecoveryIsAllOrNothing(run: seq<Sys>, provider: Provider)
    requires IsRun(run, provider) && Initial(run[0], provider)
    requires run[|run| - 1].status == Activating && run[|run| - 1].pc == Idle
    ensures AllOrNothing(run[|run| - 1], Recovered(run[|run| - 1]))
    ensures Recovered(Recovered(run[|run| - 1])) == Recovered(run[|run| - 1])
  {
    RunKeepsInv(run, provider);
    RecoveryOfInv(run[|run| - 1], provider);
  }

  // The steps of a recovery lead to the state `Recovered` describes, and a crash between its
  // finalize and its last persist changes nothing about where the next recovery ends.
  lemma InterruptedRecoveryAgrees(s: Sys, t: Sys, provider: Provider)
    requires Inv(s, provider) && s.pc == Idle && Recovery(s, t)
    ensures t.pc == Idle ==> t == Recovered(s)
    ensures t.pc != Idle ==> (forall u :: DoRecoverMark(t, u) ==> u == Recovered(s))
    ensures Recovered(t.(pc := Idle)) == Recovered(s)
  {
    MatchCountExtremes(s.snapshot, s.records, s.Target());
  }

  // Whenever a migration becomes activated, every staged record holds its staged vector.
  lemma ActivatedMeansAll(run: seq<Sys>, t: Sys, provider: Provider)
    requires IsRun(run, provider) && Initial(run[0], provider)
    requires Next(run[|run| - 1], t, provider)
    requires run[|run| - 1].status != Activated && t.status == Activated
    ensures All(t) && t.snapshot != []
  {
    RunKeepsInv(run, provider);
    BecomesActivated(run[|run| - 1], t, provider);
  }

  lemma BecomesActivated(s: Sys, t: Sys, provider: Provider)
    requires Inv(s, provider) && Next(s, t, provider) && s.status != Activated && t.status == Activated
    ensures All(t) && t.snapshot != []
  {
    assert DoMarkActivated(s, t) || DoRecoverActivated(s, t) || DoRecoverMark(s, t);
    assert s.pc == Idle ==> After(s);
  }

  // A migration that is ready, not activated, has left the collection and its records alone.
  lemma ReadyMeansNothing(run: seq<Sys>, provider: Provider)
    requires IsRun(run, provider) && Initial(run[0], provider)
    requires run[|run| - 1].status == Ready
    ensures Nothing(run[|run| - 1])
  {
    RunKeepsInv(run, provider);
  }

  // A migration of one record, before and after its publication.
  function OneRecord(identity: Identity, text: string, vector: Vector): Sys {
    Sys(identity, Ready, identity, [Staged(Unsigned(7), 1, vector)], None, map[], identity.source,
        map[Unsigned(7) := Record(1, Some(identity.source), vector, Some(text))], 2, Idle)
  }

  function CheckedOne(s: Sys, text: string): Sys {
    s.(pc := Checked, pending := map[Unsigned(7) := Some(text)])
  }

  // The record as published, with the text that the check found.
  function Moved(s: Sys, text: string, vector: Vector): Sys {
    s.(records := map[Unsigned(7) := Record(s.nextSequence, Some(s.Target()), vector, Some(text))],
       nextSequence := s.nextSequence + 1, pc := Published)
  }

  lemma OneRecordIsInitial(identity: Identity, provider: Provider, text: string, vector: Vector)
    requires provider.embed(text) == vector && identity.source != identity.target
    ensures Initial(OneRecord(identity, text, vector), provider)
    ensures DoCheck(OneRecord(identity, text, vector), CheckedOne(OneRecord(identity, text, vector), text))
  {
    var s := OneRecord(identity, text, vector);
    FreshIsStaged(Unsigned(7), s.records[Unsigned(7)], provider);
    OneStaged(s.snapshot, s.records, text);
  }

  lemma OneStaged(staged: seq<Staged>, records: Records, text: string)
    requires |staged| == 1 && staged[0].id == Unsigned(7)
    requires Unsigned(7) in records && records[Unsigned(7)].text == Some(text)
    ensures StagedIds(staged) == {Unsigned(7)} && StagedTexts(staged, records) == map[Unsigned(7) := Some(text)]
  {
    assert staged[0] in staged;
  }

  lemma OneRecordIsPublished(s: Sys, identity: Identity, text: string, vector: Vector)
    requires s.identity == identity && s.snapshot == [Staged(Unsigned(7), 1, vector)] && s.pc == Journaled
    requires s.active == identity.source && s.pending == map[Unsigned(7) := Some(text)]
    requires s.records.Keys <= {Unsigned(7)}
    ensures DoPublish(s, Moved(s, text, vector))
    ensures identity.source != identity.target && JournalUsable(s) && s.status == Activating ==>
              Recovered(Moved(s, text, vector).(pc := Idle)).status == Activated
  {
    var t := Moved(s, text, vector);
    assert t.snapshot[..0] == [] && t.snapshot[0] in t.snapshot;
    MatchCountExtremes(t.snapshot, t.records, t.Target());
  }

  // Such crashes do happen: here the records were published, and recovery completes the cutover.
  lemma CrashAfterPublication(identity: Identity, provider: Provider, text: string, vector: Vector)
    returns (run: seq<Sys>)
    requires provider.embed(text) == vector && identity.source != identity.target
    ensures IsRun(run, provider) && Initial(run[0], provider)
    ensures var s := run[|run| - 1];
            s.status == Activating && s.pc == Idle && s.active == s.Source() && Recovered(s).status == Activated
  {
    var s0 := OneRecord(identity, text, vector);
    var s1 := CheckedOne(s0, text);
    var s2 := s1.(status := Activating, pc := Marked);
    var s3 := s2.(journal := Some(Journal(identity, Prepared)), pc := Journaled);
    var s4 := Moved(s3, text, vector);
    OneRecordIsInitial(identity, provider, text, vector);
    OneRecordIsPublished(s3, identity, text, vector);
    assert DoMarkActivating(s1, s2) && DoWriteJournal(s2, s3) && DoStop(s4, s4.(pc := Idle));
    run := RunOf4(s0, s1, s2, s3, provider);
    Extend(run, s4, provider);
    Extend(run + [s4], s4.(pc := Idle), provider);
    run := run + [s4] + [s4.(pc := Idle)];
  }

  lemma RunOf4(s0: Sys, s1: Sys, s2: Sys, s3: Sys, provider: Provider) returns (run: seq<Sys>)
    requires Next(s0, s1, provider) && Next(s1, s2, provider) && Next(s2, s3, provider)
    ensures run == [s0, s1, s2, s3] && IsRun(run, provider) && Last(run) == s3
  {
    run := [s0, s1, s2, s3];
  }

  // ---------------------------------------------------------------- where the guarantee ends

  // Without any assumption on the records, nor on how far the journal says an earlier attempt got:
  // while the source profile is active, recovery ends as ready exactly when no staged entry matches
  // and the journal says `Prepared`, as activated exactly when there are entries and all match, and as
  // failed otherwise.
  lemma CrashAfterJournalIff(s: Sys)
    requires s.status == Activating && s.active == s.identity.source != s.identity.target
    requires s.journal.Some? && s.journal.value.identity == s.identity
    ensures Recovered(s).status == Activated <==> s.snapshot != [] && AllMoved(s)
    ensures Recovered(s).status == Ready <==> NoneIsMoved(s) && s.journal.value.phase == Prepared
    ensures Recovered(s).status == Failed <==>
              !(s.snapshot != [] && AllMoved(s)) && !(NoneIsMoved(s) && s.journal.value.phase == Prepared)
  {
    MatchCountExtremes(s.snapshot, s.records, s.Target());
    assert forall e :: IsMoved(e, s) <==> Matches(e, s.records, s.Target());
    if s.snapshot != [] {
      assert s.snapshot[0] in s.snapshot;
    }
  }

  // ---------------------------------------------------------------- writes between check and publication

  // A publication moves records to the target profile, but leaves it at the records there were and
  // their texts.
  ghost predicate NothingLost(s: Sys, t: Sys) {
    t.records.Keys == s.records.Keys && forall id :: id in s.records ==> t.records[id].text == s.records[id].text
  }

  ghost predicate UntilPublication(run: seq<Sys>) {
    forall i :: 0 <= i < |run| ==> run[i].pc in {Checked, Marked, Journaled}
  }

  lemma {:induction false} PendingStays(run: seq<Sys>, i: nat, provider: Provider)
    requires IsRun(run, provider) && UntilPublication(run) && i < |run|
    ensures run[i].snapshot == run[0].snapshot && run[i].pending == run[0].pending
  {
    if i > 0 {
      PendingStays(run, i - 1, provider);
      PendingStaysAt(run, i - 1, provider);
    }
  }

  lemma PendingStaysAt(run: seq<Sys>, i: nat, provider: Provider)
    requires IsRun(run, provider) && UntilPublication(run) && i + 1 < |run|
    ensures run[i + 1].snapshot == run[i].snapshot && run[i + 1].pending == run[i].pending
  {
    var s, t := run[i], run[i + 1];
    assert Next(s, t, provider) && s.pc in {Checked, Marked, Journaled} && t.pc in {Checked, Marked, Journaled};
    StepKeepsPending(s, t, provider);
  }

  lemma StepKeepsPending(s: Sys, t: Sys, provider: Provider)
    requires Next(s, t, provider) && s.pc in {Checked, Marked, Journaled} && t.pc != Idle
    ensures t.snapshot == s.snapshot && t.pending == s.pending
  {
    assert DoMarkActivating(s, t) || DoWriteJournal(s, t) || DoPublish(s, t) || DoForeground(s, t);
  }

  // Foreground writes go on between the check and the publication, which works with the texts that
  // the check has read. It undoes a write exactly if that has removed a staged record or has left it
  // with another text than at the check.
  lemma NothingIsLostIff(s: Sys, run: seq<Sys>, t: Sys, provider: Provider)
    requires IsRun(run, provider) && UntilPublication(run)
    requires DoCheck(s, run[0]) && DoPublish(Last(run), t)
    ensures NothingLost(Last(run), t) <==>
            forall id :: id in StagedIds(s.snapshot) ==>
              id in Last(run).records && Last(run).records[id].text == s.records[id].text
  {
    PendingStays(run, |run| - 1, provider);
    var u := Last(run);
    forall id | id in StagedIds(s.snapshot)
      ensures id in s.records && id in t.records && t.records[id].text == s.records[id].text
    {
      var e :| e in s.snapshot && e.id == id;
      assert u.pending[e.id] == s.records[id].text;
    }
    if NothingLost(u, t) {
      forall id | id in StagedIds(s.snapshot)
        ensures id in u.records && u.records[id].text == s.records[id].text
      {
        assert id in t.records;
      }
    }
  }

  // The record gets a new text after the check, and its old one by the publication.
  lemma UndoneByPublication(identity: Identity, provider: Provider, text: string, vector: Vector, change: Record)
    returns (run: seq<Sys>)
    requires provider.embed(text) == vector && identity.source != identity.target
    requires change.sequence == 2 && change.profile == Some(identity.source)
    ensures IsRun(run, provider) && Initial(run[0], provider)
    ensures |run| > 2 && run[2].records == map[Unsigned(7) := change]
    ensures Last(run).pc == Published && Last(run).active == Last(run).Source()
    ensures Unsigned(7) in Last(run).records && Last(run).records[Unsigned(7)].text == Some(text)
  {
    var s0 := OneRecord(identity, text, vector);
    var s1 := CheckedOne(s0, text);
    var s2 := s1.(nextSequence := 3, records := map[Unsigned(7) := change]);
    OneRecordIsInitial(identity, provider, text, vector);
    assert s1.records[Unsigned(7) := change] == map[Unsigned(7) := change];
    assert DoWrite(s1, s2, Unsigned(7), Some(change));
    var s3, s4 := WrittenJournal(s2, provider);
    OneRecordIsPublished(s4, identity, text, vector);
    run := RunOf4(s0, s1, s2, s3, provider);
    Extend(run, s4, provider);
    Extend(run + [s4], Moved(s4, text, vector), provider);
    run := run + [s4] + [Moved(s4, text, vector)];
  }

  // A write that is undone for good once the migration is activated.
  lemma UndoneWrite(identity: Identity, provider: Provider, text: string, vector: Vector, newText: string,
                    newVector: Vector) returns (run: seq<Sys>)
    requires provider.embed(text) == vector && identity.source != identity.target && text != newText
    ensures IsRun(run, provider) && Initial(run[0], provider)
    ensures exists i :: 0 <= i < |run| && Unsigned(7) in run[i].records
                        && run[i].records[Unsigned(7)].text == Some(newText)
    ensures Last(run).status == Activated && Unsigned(7) in Last(run).records
            && Last(run).records[Unsigned(7)].text == Some(text)
  {
    var first := UndoneByPublication(identity, provider, text, vector,
                                     Record(2, Some(identity.source), newVector, Some(newText)));
    run := CompletedRun(first, provider);
    assert run[0] == first[0] && run[2] == first[2];
  }

  lemma WrittenJournal(s: Sys, provider: Provider) returns (marked: Sys, journaled: Sys)
    requires s.pc == Checked
    ensures marked == s.(status := Activating, pc := Marked)
    ensures journaled == marked.(journal := Some(Journal(s.identity, Prepared)), pc := Journaled)
    ensures Next(s, marked, provider) && Next(marked, journaled, provider)
  {
    marked := s.(status := Activating, pc := Marked);
    journaled := marked.(journal := Some(Journal(s.identity, Prepared)), pc := Journaled);
    assert DoMarkActivating(s, marked) && DoWriteJournal(marked, journaled);
  }

  // Nothing more happens to the records on the way to the end.
  lemma CompletedRun(run: seq<Sys>, provider: Provider) returns (longer: seq<Sys>)
    requires IsRun(run, provider) && Last(run).pc == Published && Last(run).active == Last(run).Source()
    ensures IsRun(longer, provider) && run <= longer && Last(longer).status == Activated
    ensures Last(longer).records == Last(run).records
  {
    var s := Last(run);
    var s1 := s.(journal := Some(Journal(s.identity, WalPublished)), pc := PublishNoted);
    var s2 := s1.(active := s.Target(), pc := Finalized);
    var s3 := s2.(journal := Some(Journal(s.identity, Committed)), pc := CommitNoted);
    var s4 := s3.(status := Activated, pc := Idle);
    assert DoNotePublished(s, s1) && DoFinalize(s1, s2) && DoNoteCommitted(s2, s3) && DoMarkActivated(s3, s4);
    Extend(run, s1, provider);
    Extend(run + [s1], s2, provider);
    Extend(run + [s1] + [s2], s3, provider);
    Extend(run + [s1] + [s2] + [s3], s4, provider);
    longer := run + [s1] + [s2] + [s3] + [s4];
  }

  // ---------------------------------------------------------------- status during an activation

  predicate ActivationRuns(pc: Pc) {
    pc in {Marked, Journaled, Published, PublishNoted, Finalized, CommitNoted}
  }

  // `status()` may also be called while an activation is running. It then reports `Ready`, although
  // the activation goes on, exactly from when a usable journal says `Prepared` until the records are
  // published. On a first attempt the journal is written last before that; on a retry the journal of
  // the attempt before is still there, and the window opens with the status `Activating`.
  lemma ConcurrentStatusIsReadyIff(s: Sys, provider: Provider)
    requires Inv(s, provider) && ActivationRuns(s.pc)
    ensures Recovered(s).status == Ready <==> s.pc in {Marked, Journaled} && JournalUsable(s)
    ensures Recovered(s).status == Activating <==> s.pc == Marked && !JournalUsable(s)
    ensures Recovered(s).status == Activated <==> s.pc in {Published, PublishNoted, Finalized, CommitNoted}
  {
    MatchCountExtremes(s.snapshot, s.records, s.Target());
    if s.pc in {Marked, Journaled} {
      assert NoneMatches(s);
    }
  }

  // What the activation goes on from, if `status()` reported `Ready` in the meantime.
  ghost predicate GoesOn(s: Sys, t: Sys) {
    if s.pc == Marked then DoWriteJournal(s.(status := Ready), t)
    else s.pc == Journaled && t == s.(status := Ready)
  }

  // The activation then publishes under the status `Ready`. If it crashes right after, neither
  // nothing nor all of the cutover has happened, and no later `status()` notices.
  lemma ConcurrentStatusIsNotSafe(s: Sys, t: Sys, u: Sys, provider: Provider)
    requires Inv(s, provider) && ActivationRuns(s.pc) && Recovered(s).status == Ready
    requires GoesOn(s, t) && DoPublish(t, u)
    ensures var crashed := u.(pc := Idle);
            && crashed.status == Ready && AllMatch(crashed)
            && !Nothing(crashed) && !All(crashed) && Recovered(crashed) == crashed
  {
    ConcurrentStatusIsReadyIff(s, provider);
    assert u.snapshot[0] in u.snapshot && Matches(u.snapshot[0], u.records, u.Target());
  }

  lemma BackToReady(s: Sys, provider: Provider) returns (stopped: Sys, ready: Sys)
    requires s.pc == Journaled && s.status == Activating && s.journal == Some(Journal(s.identity, Prepared))
    requires s.Source() != s.Target() && s.snapshot != [] && Before(s)
    ensures stopped == s.(pc := Idle) && ready == stopped.(status := Ready)
    ensures Next(s, stopped, provider) && Next(stopped, ready, provider)
  {
    stopped, ready := s.(pc := Idle), s.(pc := Idle, status := Ready);
    MatchCountExtremes(stopped.snapshot, stopped.records, stopped.Target());
    assert NoneMatches(stopped) && stopped.snapshot[0] in stopped.snapshot;
    assert DoStop(s, stopped) && DoRecoverReady(stopped, ready);
  }

  // A first attempt that ends right after its journal write and is recovered.
  lemma RecoveredAttempt(identity: Identity, provider: Provider, text: string, vector: Vector)
    returns (run: seq<Sys>)
    requires provider.embed(text) == vector && identity.source != identity.target
    ensures IsRun(run, provider) && Initial(run[0], provider)
    ensures Last(run) == OneRecord(identity, text, vector).(journal := Some(Journal(identity, Prepared)),
                                                            pending := map[Unsigned(7) := Some(text)])
  {
    var s0 := OneRecord(identity, text, vector);
    var s1 := CheckedOne(s0, text);
    OneRecordIsInitial(identity, provider, text, vector);
    var s2, s3 := WrittenJournal(s1, provider);
    var s4, s5 := BackToReady(s3, provider);
    run := RunOf4(s0, s1, s2, s3, provider);
    Extend(run, s4, provider);
    Extend(run + [s4], s5, provider);
    run := run + [s4] + [s5];
  }

  // A second attempt then stands before its own journal write, and `status()` reports `Ready` already.
  lemma ReadyBeforeJournalOnRetry(identity: Identity, provider: Provider, text: string, vector: Vector)
    returns (run: seq<Sys>)
    requires provider.embed(text) == vector && identity.source != identity.target
    ensures IsRun(run, provider) && Initial(run[0], provider)
    ensures run[|run| - 1].pc == Marked && Recovered(run[|run| - 1]).status == Ready
  {
    run := RecoveredAttempt(identity, provider, text, vector);
    var s := Last(run);
    OneStaged(s.snapshot, s.records, text);
    assert DoCheck(s, CheckedOne(s, text));
    var marked, _ := WrittenJournal(CheckedOne(s, text), provider);
    Extend(run, CheckedOne(s, text), provider);
    Extend(run + [CheckedOne(s, text)], marked, provider);
    run := run + [CheckedOne(s, text)] + [marked];
    RunKeepsInv(run, provider);
    ConcurrentStatusIsReadyIff(marked, provider);
  }
}
