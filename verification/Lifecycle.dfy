/** Draining foreground writes before shutdown, under every interleaving of writers, waiters and
    phase changes (crates/ketebe-server/src/lifecycle.rs). */
module Lifecycle {
  import opened Wrappers
  import opened Collections

  datatype Phase = Starting | Ready | Draining | Stopped

  function Rank(p: Phase): nat {
    match p
    case Starting => 0
    case Ready => 1
    case Draining => 2
    case Stopped => 3
  }

  // A caller of `wait_for_foreground_writes_drained`: about to take a notification handle; holding one
  // of the generation it was created in; waiting on it; or returned.
  datatype Waiter = Looping | Registered(generation: nat) | Asleep(generation: nat) | Returned

  // `guards` are the write guards alive; `pending` counts the guard drops that took the counter to
  // zero and have yet to notify; `generation` counts the notifications so far.
  datatype State = State(
    phase: Phase,
    active: nat,
    guards: set<nat>,
    pending: nat,
    generation: nat,
    waiters: map<nat, Waiter>)

  const INITIAL: State := State(Starting, 0, {}, 0, 0, map[])

  // ---------------------------------------------------------------- atomic steps

  datatype Step =
    | Admit(guard: nat)
    | Refuse
    | Release(guard: nat)
    | Notify
    | MarkReady
    | BeginDraining
    | MarkStopped
    | Arrive(waiter: nat)
    | Register(waiter: nat)
    | Check(waiter: nat)
    | Wake(waiter: nat)

  predicate Enabled(s: State, step: Step) {
    match step
    case Admit(g) => s.phase == Ready && g !in s.guards
    case Refuse => s.phase != Ready
    case Release(g) => g in s.guards && s.active > 0
    case Notify => s.pending > 0
    case Arrive(w) => w !in s.waiters
    case Register(w) => w in s.waiters && s.waiters[w] == Looping
    case Check(w) => w in s.waiters && s.waiters[w].Registered?
    case Wake(w) => w in s.waiters && s.waiters[w].Asleep? && s.waiters[w].generation < s.generation
    case _ => true
  }

  function Apply(s: State, step: Step): State
    requires Enabled(s, step)
  {
    match step
    case Admit(g) => s.(active := s.active + 1, guards := s.guards + {g})
    case Refuse => s
    case Release(g) =>
      s.(active := s.active - 1, guards := s.guards - {g}, pending := s.pending + if s.active == 1 then 1 else 0)
    case Notify => s.(pending := s.pending - 1, generation := s.generation + 1)
    case MarkReady => if Rank(s.phase) < Rank(Draining) then s.(phase := Ready) else s
    case BeginDraining => if Rank(s.phase) < Rank(Draining) then s.(phase := Draining) else s
    case MarkStopped => s.(phase := Stopped)
    case Arrive(w) => s.(waiters := s.waiters[w := Looping])
    case Register(w) => s.(waiters := s.waiters[w := Registered(s.generation)])
    case Check(w) =>
      s.(waiters := s.waiters[w := if s.active == 0 then Returned else Asleep(s.waiters[w].generation)])
    case Wake(w) => s.(waiters := s.waiters[w := Looping])
  }

  predicate CanRun(s: State, steps: seq<Step>)
    decreases |steps|
  {
    steps == [] || (Enabled(s, steps[0]) && CanRun(Apply(s, steps[0]), steps[1..]))
  }

  function Run(s: State, steps: seq<Step>): State
    requires CanRun(s, steps)
    decreases |steps|
  {
    if steps == [] then s else Run(Apply(s, steps[0]), steps[1..])
  }

  // ---------------------------------------------------------------- the invariant

  // A waiter asleep on the current generation will be notified: writes are still active, and the
  // last of them notifies, or a notification is on its way.
  predicate WillBeWoken(s: State, w: Waiter) {
    && (w.Registered? ==> w.generation <= s.generation)
    && (w.Asleep? ==> w.generation <= s.generation && (w.generation == s.generation ==> s.active > 0 || s.pending > 0))
  }

  predicate Inv(s: State) {
    s.active == |s.guards| && forall w :: w in s.waiters ==> WillBeWoken(s, s.waiters[w])
  }

  lemma StepKeepsInv(s: State, step: Step)
    requires Inv(s) && Enabled(s, step)
    ensures Inv(Apply(s, step))
  {
    var t := Apply(s, step);
    forall w | w in t.waiters
      ensures WillBeWoken(t, t.waiters[w])
    {
      if w in s.waiters {
        assert WillBeWoken(s, s.waiters[w]);
      }
    }
  }

  lemma {:induction false} RunKeepsInv(s: State, steps: seq<Step>)
    requires Inv(s) && CanRun(s, steps)
    ensures Inv(Run(s, steps))
    decreases |steps|
  {
    if steps != [] {
      StepKeepsInv(s, steps[0]);
      RunKeepsInv(Apply(s, steps[0]), steps[1..]);
    }
  }

  // ---------------------------------------------------------------- safety

  // The counter is the number of live guards, in every state of every run.
  lemma CounterCountsGuards(steps: seq<Step>)
    requires CanRun(INITIAL, steps)
    ensures Run(INITIAL, steps).active == |Run(INITIAL, steps).guards|
  {
    RunKeepsInv(INITIAL, steps);
  }

  lemma {:induction false} PhaseNeverGoesBack(s: State, steps: seq<Step>)
    requires CanRun(s, steps)
    ensures Rank(s.phase) <= Rank(Run(s, steps).phase)
    decreases |steps|
  {
    if steps != [] {
      PhaseNeverGoesBack(Apply(s, steps[0]), steps[1..]);
    }
  }

  // Once draining has begun no write is admitted: the guards left are among those there were.
  lemma {:induction false} NoAdmissionWhileDraining(s: State, steps: seq<Step>)
    requires CanRun(s, steps) && Rank(s.phase) >= Rank(Draining)
    ensures forall i :: 0 <= i < |steps| ==> !steps[i].Admit?
    ensures Run(s, steps).guards <= s.guards
    decreases |steps|
  {
    if steps != [] {
      NoAdmissionWhileDraining(Apply(s, steps[0]), steps[1..]);
      forall i | 0 <= i < |steps|
        ensures !steps[i].Admit?
      {
        if i > 0 {
          assert steps[1..][i - 1] == steps[i];
        }
      }
    }
  }

  // Once drained, drained for good.
  lemma DrainedStaysDrained(s: State, steps: seq<Step>)
    requires Inv(s) && CanRun(s, steps) && Rank(s.phase) >= Rank(Draining) && s.active == 0
    ensures Run(s, steps).active == 0
  {
    NoAdmissionWhileDraining(s, steps);
    RunKeepsInv(s, steps);
    assert s.guards == {};
  }

  // ---------------------------------------------------------------- no lost wakeup

  // When no write is active and no notification is under way, no waiter is left asleep on the
  // current generation: each one that sleeps can be woken.
  lemma NoLostWakeup(steps: seq<Step>, w: nat)
    requires CanRun(INITIAL, steps)
    requires var s := Run(INITIAL, steps);
             s.active == 0 && s.pending == 0 && w in s.waiters && s.waiters[w].Asleep?
    ensures Enabled(Run(INITIAL, steps), Wake(w))
  {
    RunKeepsInv(INITIAL, steps);
    assert WillBeWoken(Run(INITIAL, steps), Run(INITIAL, steps).waiters[w]);
  }

  // ---------------------------------------------------------------- every waiter returns

  // A schedule that never ends: the state before each step, and the step.
  ghost predicate IsSchedule(states: nat -> State, steps: nat -> Step) {
    forall n :: TakesStep(states, steps, n)
  }

  ghost predicate TakesStep(states: nat -> State, steps: nat -> Step, n: nat) {
    Enabled(states(n), steps(n)) && states(n + 1) == Apply(states(n), steps(n))
  }

  // What threads do on their own account: finish their writes, notify, and go on waiting. Nobody has
  // to admit writes, to change the phase or to begin waiting.
  predicate IsOwed(step: Step) {
    step.Release? || step.Notify? || step.Register? || step.Check? || step.Wake?
  }

  ghost predicate StaysEnabled(states: nat -> State, step: Step, n: nat) {
    forall m: nat :: m >= n ==> Enabled(states(m), step)
  }

  ghost predicate IsTaken(steps: nat -> Step, step: Step, n: nat) {
    exists m: nat :: m >= n && steps(m) == step
  }

  // A step that a thread owes is taken at some time if it stays possible.
  ghost predicate Fair(states: nat -> State, steps: nat -> Step) {
    forall step, n :: IsOwed(step) && StaysEnabled(states, step, n) ==> IsTaken(steps, step, n)
  }

  lemma FirstTaken(steps: nat -> Step, step: Step, n: nat, m: nat) returns (k: nat)
    requires n <= m && steps(m) == step
    ensures n <= k && steps(k) == step && forall l :: n <= l < k ==> steps(l) != step
    decreases m - n
  {
    if steps(n) == step {
      k := n;
    } else {
      k := FirstTaken(steps, step, n + 1, m);
    }
  }

  // A draining server.
  ghost predicate Drains(s: State) {
    Inv(s) && Rank(s.phase) >= Rank(Draining)
  }

  lemma DrainsOn(states: nat -> State, steps: nat -> Step, n: nat)
    requires IsSchedule(states, steps) && Drains(states(n))
    ensures Drains(states(n + 1)) && states(n + 1).guards <= states(n).guards && !steps(n).Admit?
  {
    assert TakesStep(states, steps, n);
    StepKeepsInv(states(n), steps(n));
  }

  lemma {:induction false} GuardStays(states: nat -> State, steps: nat -> Step, n: nat, m: nat, g: nat)
    requires IsSchedule(states, steps) && Drains(states(n)) && g in states(n).guards && n <= m
    requires forall l :: n <= l < m ==> steps(l) != Release(g)
    ensures Drains(states(m)) && g in states(m).guards && states(m).guards <= states(n).guards
    ensures Enabled(states(m), Release(g))
    decreases m - n
  {
    if n == m {
      assert |states(n).guards| > 0;
    } else {
      GuardStays(states, steps, n, m - 1, g);
      DrainsOn(states, steps, m - 1);
      assert TakesStep(states, steps, m - 1);
      assert |states(m).guards| > 0;
    }
  }

  lemma ReleaseStaysEnabled(states: nat -> State, steps: nat -> Step, n: nat, g: nat)
    requires IsSchedule(states, steps) && Drains(states(n)) && g in states(n).guards
    requires !IsTaken(steps, Release(g), n)
    ensures StaysEnabled(states, Release(g), n)
  {
    forall l: nat | l >= n
      ensures Enabled(states(l), Release(g))
    {
      GuardStays(states, steps, n, l, g);
    }
  }

  // Some write is finished.
  lemma GuardsFall(states: nat -> State, steps: nat -> Step, n: nat, w: nat) returns (m: nat)
    requires IsSchedule(states, steps) && Fair(states, steps) && Drains(states(n)) && states(n).active > 0
    requires w in states(n).waiters
    ensures m > n && Drains(states(m)) && states(m).active < states(n).active && w in states(m).waiters
  {
    assert states(n).guards != {};
    var g :| g in states(n).guards;
    if !IsTaken(steps, Release(g), n) {
      ReleaseStaysEnabled(states, steps, n, g);
    }
    var l: nat :| l >= n && steps(l) == Release(g);
    var k := FirstTaken(steps, Release(g), n, l);
    GuardStays(states, steps, n, k, g);
    m := k + 1;
    DrainsOn(states, steps, k);
    assert TakesStep(states, steps, k);
    assert g !in states(m).guards;
    SmallerGuards(states(m).guards, states(n).guards, g);
    WaiterStays(states, steps, n, m, w);
  }

  lemma SmallerGuards(some: set<nat>, all: set<nat>, g: nat)
    requires some <= all && g in all && g !in some
    ensures |some| < |all|
  {
    SubsetSize(some, all - {g});
  }

  lemma {:induction false} WaiterStays(states: nat -> State, steps: nat -> Step, n: nat, m: nat, w: nat)
    requires IsSchedule(states, steps) && w in states(n).waiters && n <= m
    ensures w in states(m).waiters
    decreases m - n
  {
    if n < m {
      WaiterStays(states, steps, n, m - 1, w);
      assert TakesStep(states, steps, m - 1);
    }
  }

  // The step that brings a waiter closer to its return once the writes are gone, and how many of them
  // are left.
  function Due(s: State, w: nat): Step
    requires w in s.waiters && s.waiters[w] != Returned
  {
    match s.waiters[w]
    case Registered(_) => Check(w)
    case Looping => Register(w)
    case Asleep(g) => if g < s.generation then Wake(w) else Notify
  }

  function Distance(s: State, w: nat): nat
    requires w in s.waiters
  {
    match s.waiters[w]
    case Returned => 0
    case Registered(_) => 1
    case Looping => 2
    case Asleep(g) => if g < s.generation then 3 else 4
  }

  ghost predicate Waits(s: State, w: nat) {
    Drains(s) && s.active == 0 && w in s.waiters && s.waiters[w] != Returned
  }

  // The due step is possible and reduces the distance; no other step changes either.
  lemma StepWhileWaiting(s: State, step: Step, w: nat)
    requires Waits(s, w) && Enabled(s, step)
    ensures Enabled(s, Due(s, w)) && IsOwed(Due(s, w))
    ensures var t := Apply(s, step);
            && Drains(t) && t.active == 0 && w in t.waiters
            && (step == Due(s, w) ==> Distance(t, w) < Distance(s, w))
            && (step != Due(s, w) ==> Waits(t, w) && Due(t, w) == Due(s, w) && Distance(t, w) == Distance(s, w))
  {
    StepKeepsInv(s, step);
    assert WillBeWoken(s, s.waiters[w]);
    assert s.guards == {};
  }

  lemma {:induction false} WaitsUntil(states: nat -> State, steps: nat -> Step, n: nat, m: nat, w: nat)
    requires IsSchedule(states, steps) && Waits(states(n), w) && n <= m
    requires forall l :: n <= l < m ==> steps(l) != Due(states(n), w)
    ensures Waits(states(m), w) && Due(states(m), w) == Due(states(n), w)
    ensures Distance(states(m), w) == Distance(states(n), w) && Enabled(states(m), Due(states(m), w))
    decreases m - n
  {
    if n < m {
      WaitsUntil(states, steps, n, m - 1, w);
      assert TakesStep(states, steps, m - 1);
      StepWhileWaiting(states(m - 1), steps(m - 1), w);
    }
    assert TakesStep(states, steps, m);
    StepWhileWaiting(states(m), steps(m), w);
  }

  lemma DueStaysEnabled(states: nat -> State, steps: nat -> Step, n: nat, w: nat)
    requires IsSchedule(states, steps) && Waits(states(n), w) && !IsTaken(steps, Due(states(n), w), n)
    ensures StaysEnabled(states, Due(states(n), w), n)
  {
    forall l: nat | l >= n
      ensures Enabled(states(l), Due(states(n), w))
    {
      WaitsUntil(states, steps, n, l, w);
    }
  }

  lemma DistanceFalls(states: nat -> State, steps: nat -> Step, n: nat, w: nat) returns (m: nat)
    requires IsSchedule(states, steps) && Fair(states, steps) && Waits(states(n), w)
    ensures m > n && Drains(states(m)) && states(m).active == 0 && w in states(m).waiters
    ensures Distance(states(m), w) < Distance(states(n), w)
  {
    var due := Due(states(n), w);
    WaitsUntil(states, steps, n, n, w);
    assert IsOwed(due);
    if !IsTaken(steps, due, n) {
      DueStaysEnabled(states, steps, n, w);
    }
    var l: nat :| l >= n && steps(l) == due;
    var k := FirstTaken(steps, due, n, l);
    WaitsUntil(states, steps, n, k, w);
    assert TakesStep(states, steps, k);
    StepWhileWaiting(states(k), steps(k), w);
    m := k + 1;
  }

  lemma {:induction false} ReturnsFrom(states: nat -> State, steps: nat -> Step, n: nat, w: nat) returns (m: nat)
    requires IsSchedule(states, steps) && Fair(states, steps) && Drains(states(n)) && w in states(n).waiters
    ensures m >= n && w in states(m).waiters && states(m).waiters[w] == Returned
    decreases states(n).active, Distance(states(n), w)
  {
    if states(n).waiters[w] == Returned {
      m := n;
    } else if states(n).active > 0 {
      var k := GuardsFall(states, steps, n, w);
      m := ReturnsFrom(states, steps, k, w);
    } else {
      var k := DistanceFalls(states, steps, n, w);
      m := ReturnsFrom(states, steps, k, w);
    }
  }

  // Under every fair schedule, whoever waits in a server that drains returns.
  lemma WaitersReturn(states: nat -> State, steps: nat -> Step, n: nat, w: nat)
    requires states(0) == INITIAL && IsSchedule(states, steps) && Fair(states, steps)
    requires Rank(states(n).phase) >= Rank(Draining) && w in states(n).waiters
    ensures exists m: nat :: m >= n && w in states(m).waiters && states(m).waiters[w] == Returned
  {
    ScheduleKeepsInv(states, steps, n);
    var m := ReturnsFrom(states, steps, n, w);
  }

  lemma {:induction false} ScheduleKeepsInv(states: nat -> State, steps: nat -> Step, n: nat)
    requires states(0) == INITIAL && IsSchedule(states, steps)
    ensures Inv(states(n))
  {
    if n > 0 {
      ScheduleKeepsInv(states, steps, n - 1);
      assert TakesStep(states, steps, n - 1);
      StepKeepsInv(states(n - 1), steps(n - 1));
    }
  }

  ghost predicate HasReturned(s: State, w: nat) {
    w in s.waiters && s.waiters[w] == Returned
  }

  // In every run: when a waiter returns, no write is alive, and if draining has begun, none will ever
  // be again.
  lemma ReturnsOnlyWhenDrained(steps: seq<Step>, step: Step, more: seq<Step>, w: nat)
    requires CanRun(INITIAL, steps + [step]) && CanRun(Run(INITIAL, steps + [step]), more)
    requires CanRun(INITIAL, steps) && !HasReturned(Run(INITIAL, steps), w)
    requires HasReturned(Run(INITIAL, steps + [step]), w)
    ensures Run(INITIAL, steps).guards == Run(INITIAL, steps + [step]).guards == {}
    ensures Rank(Run(INITIAL, steps + [step]).phase) >= Rank(Draining) ==>
              Run(Run(INITIAL, steps + [step]), more).guards == {}
  {
    LastStep(INITIAL, steps, step);
    CounterCountsGuards(steps);
    CounterCountsGuards(steps + [step]);
    var t := Run(INITIAL, steps + [step]);
    if Rank(t.phase) >= Rank(Draining) {
      NoAdmissionWhileDraining(t, more);
    }
  }

  lemma {:induction false} LastStep(s: State, steps: seq<Step>, step: Step)
    requires CanRun(s, steps) && CanRun(s, steps + [step])
    ensures Enabled(Run(s, steps), step) && Run(s, steps + [step]) == Apply(Run(s, steps), step)
    decreases |steps|
  {
    if steps == [] {
      assert [] + [step] == [step] && [step][1..] == [];
    } else {
      assert (steps + [step])[0] == steps[0] && (steps + [step])[1..] == steps[1..] + [step];
      LastStep(Apply(s, steps[0]), steps[1..], step);
    }
  }

  // ---------------------------------------------------------------- what the steps come to

  // The phase is told by which changes there have been, whatever their order.
  lemma {:induction false} PhaseAfter(steps: seq<Step>)
    requires CanRun(INITIAL, steps)
    ensures Run(INITIAL, steps).phase ==
              if MarkStopped in steps then Stopped
              else if BeginDraining in steps then Draining
              else if MarkReady in steps then Ready
              else Starting
  {
    if steps != [] {
      var init, last := steps[..|steps| - 1], steps[|steps| - 1];
      SplitLast(steps);
      PhaseAfter(init);
    }
  }

  lemma {:induction false} CanRunPrefix(s: State, steps: seq<Step>, step: Step)
    requires CanRun(s, steps + [step])
    ensures CanRun(s, steps)
    decreases |steps|
  {
    if steps != [] {
      assert (steps + [step])[0] == steps[0] && (steps + [step])[1..] == steps[1..] + [step];
      CanRunPrefix(Apply(s, steps[0]), steps[1..], step);
    }
  }

  lemma SplitLast(steps: seq<Step>)
    requires steps != [] && CanRun(INITIAL, steps)
    ensures var init, last := steps[..|steps| - 1], steps[|steps| - 1];
            && steps == init + [last] && CanRun(INITIAL, init) && Enabled(Run(INITIAL, init), last)
            && Run(INITIAL, steps) == Apply(Run(INITIAL, init), last)
  {
    var init, last := steps[..|steps| - 1], steps[|steps| - 1];
    assert steps == init + [last];
    CanRunPrefix(INITIAL, init, last);
    LastStep(INITIAL, init, last);
  }

  ghost predicate AdmittedAt(steps: seq<Step>, guard: nat, i: nat) {
    i < |steps| && steps[i] == Admit(guard) && Release(guard) !in steps[i + 1..]
  }

  // The guards alive are those admitted and not dropped since.
  lemma {:induction false} AliveIff(steps: seq<Step>, guard: nat)
    requires CanRun(INITIAL, steps)
    ensures guard in Run(INITIAL, steps).guards <==> exists i: nat :: AdmittedAt(steps, guard, i)
  {
    if steps != [] {
      var init, last := steps[..|steps| - 1], steps[|steps| - 1];
      SplitLast(steps);
      AliveIff(init, guard);
      forall i: nat | i < |init|
        ensures AdmittedAt(steps, guard, i) <==> AdmittedAt(init, guard, i) && last != Release(guard)
      {
        assert steps[i + 1..] == init[i + 1..] + [last];
      }
      assert AdmittedAt(steps, guard, |init|) <==> last == Admit(guard) by {
        assert steps[|init| + 1..] == [];
      }
    }
  }

  // ---------------------------------------------------------------- the object

  // The operations a server thread calls; each critical section is one step, and dropping a guard
  // is two.
  class Gate {
    var phase: Phase
    var active: nat
    var pending: nat
    var generation: nat
    ghost var guards: set<nat>
    ghost var waiters: map<nat, Waiter>

    ghost function View(): State
      reads this
    {
      State(phase, active, guards, pending, generation, waiters)
    }

    ghost predicate Valid()
      reads this
    {
      Inv(View())
    }

    constructor ()
      ensures Valid() && View() == INITIAL
    {
      phase, active, pending, generation, guards, waiters := Starting, 0, 0, 0, {}, map[];
    }

    method TryAdmitForegroundWrite(ghost guard: nat) returns (admitted: bool)
      requires Valid() && guard !in guards
      modifies this`active, this`guards
      ensures Valid() && admitted == (phase == Ready)
      ensures View() == Apply(old(View()), if admitted then Admit(guard) else Refuse)
      ensures active == old(active) + (if admitted then 1 else 0)
      ensures guards == old(guards) + (if admitted then {guard} else {})
    {
      if phase != Ready { return false; }
      StepKeepsInv(View(), Admit(guard));
      active := active + 1;
      guards := guards + {guard};
      return true;
    }

    // The first half of dropping a guard: the atomic decrement. The result says whether to notify.
    method Decrement(ghost guard: nat) returns (last: bool)
      requires Valid() && guard in guards
      modifies this`active, this`guards, this`pending
      ensures Valid() && View() == Apply(old(View()), Release(guard))
      ensures active == old(active) - 1 && guards == old(guards) - {guard}
      ensures (last <==> active == 0) && pending == old(pending) + (if last then 1 else 0)
    {
      assert |guards| > 0;
      StepKeepsInv(View(), Release(guard));
      var previous := active;
      active := active - 1;
      guards := guards - {guard};
      last := previous == 1;
      if last { pending := pending + 1; }
    }

    method NotifyWaiters()
      requires Valid() && pending > 0
      modifies this`pending, this`generation
      ensures Valid() && View() == Apply(old(View()), Notify)
      ensures pending == old(pending) - 1 && generation == old(generation) + 1
    {
      StepKeepsInv(View(), Notify);
      pending, generation := pending - 1, generation + 1;
    }

    method DoMarkReady()
      requires Valid()
      modifies this`phase
      ensures Valid() && View() == Apply(old(View()), MarkReady)
      ensures phase == if old(phase) == Starting then Ready else old(phase)
    {
      if Rank(phase) < Rank(Draining) { phase := Ready; }
    }

    method DoBeginDraining()
      requires Valid()
      modifies this`phase
      ensures Valid() && View() == Apply(old(View()), BeginDraining)
      ensures phase == if old(phase) == Stopped then Stopped else Draining
    {
      if Rank(phase) < Rank(Draining) { phase := Draining; }
    }

    method DoMarkStopped()
      requires Valid()
      modifies this`phase
      ensures Valid() && View() == Apply(old(View()), MarkStopped) && phase == Stopped
    {
      phase := Stopped;
    }
  }
}
