/** Rate limits for projects: fixed windows that start with the first request after the previous
    one is over (crates/ketebe-server/src/governance.rs). Times and durations are in nanoseconds. */
module Governance {
  import opened Wrappers
  import opened Text

  datatype AdmissionClass = Read | Write | Admin

  datatype RateLimit = RateLimit(requests: nat, window: nat)

  datatype Policy = Policy(read: Option<RateLimit>, write: Option<RateLimit>, admin: Option<RateLimit>,
                           maxCollections: Option<nat>, maxRecords: Option<nat>)

  datatype Decision = Decision(remaining: Option<nat>, resetAfter: Option<nat>)

  datatype GovernanceError = InvalidPolicy | RateLimited(retryAfter: nat)

  datatype Window = Window(startedAt: nat, used: nat)

  function LimitOf(policy: Policy, class_: AdmissionClass): Option<RateLimit> {
    match class_
    case Read => policy.read
    case Write => policy.write
    case Admin => policy.admin
  }

  predicate ValidLimit(limit: Option<RateLimit>) {
    limit.Some? ==> limit.value.requests > 0 && limit.value.window > 0
  }

  predicate ValidPolicy(policy: Policy) {
    && ValidLimit(policy.read) && ValidLimit(policy.write) && ValidLimit(policy.admin)
    && policy.maxCollections != Some(0) && policy.maxRecords != Some(0)
  }

  // ---------------------------------------------------------------- one window

  // Zero when the clock reads less than the start.
  function Elapsed(now: nat, start: nat): nat {
    if now >= start then now - start else 0
  }

  // The window that a request falls into.
  function Current(w: Option<Window>, limit: RateLimit, now: nat): Window {
    match w
    case None => Window(now, 0)
    case Some(state) => if Elapsed(now, state.startedAt) >= limit.window then Window(now, 0) else state
  }

  predicate Admits(w: Option<Window>, limit: RateLimit, now: nat) {
    Current(w, limit, now).used < limit.requests
  }

  function After(w: Option<Window>, limit: RateLimit, now: nat): Window {
    var state := Current(w, limit, now);
    if Admits(w, limit, now) then state.(used := state.used + 1) else state
  }

  function ResetAfter(w: Option<Window>, limit: RateLimit, now: nat): nat {
    var elapsed := Elapsed(now, Current(w, limit, now).startedAt);
    if elapsed <= limit.window then limit.window - elapsed else 0
  }

  // The first request after the end of a window opens the next one; any other uses up the current
  // one, while there is something left of it.
  lemma AdmissionMeans(w: Option<Window>, limit: RateLimit, now: nat)
    requires limit.requests > 0 && limit.window > 0
    ensures w.None? || now >= w.value.startedAt + limit.window ==>
              && Admits(w, limit, now) && After(w, limit, now) == Window(now, 1)
              && ResetAfter(w, limit, now) == limit.window
    ensures w.Some? && now < w.value.startedAt + limit.window ==>
              && (Admits(w, limit, now) <==> w.value.used < limit.requests)
              && After(w, limit, now) ==
                   Window(w.value.startedAt, w.value.used + (if w.value.used < limit.requests then 1 else 0))
              && (now >= w.value.startedAt ==> now + ResetAfter(w, limit, now) == w.value.startedAt + limit.window)
              && (now < w.value.startedAt ==> ResetAfter(w, limit, now) == limit.window)
  {
  }

  // A denied request succeeds exactly when it is repeated after the end of the window. That end is
  // `retryAfter` away unless the clock read less than the start of the window.
  lemma RetryIff(w: Option<Window>, limit: RateLimit, now: nat, later: nat)
    requires limit.requests > 0 && limit.window > 0 && !Admits(w, limit, now)
    ensures var start := Current(w, limit, now).startedAt;
            && (Admits(Some(After(w, limit, now)), limit, later) <==> later >= start + limit.window)
            && (start + limit.window == now + ResetAfter(w, limit, now) <==> now >= start)
  {
    var state := Current(w, limit, now);
    assert After(w, limit, now) == state && w == Some(state);
  }

  // ---------------------------------------------------------------- all requests under one limit

  // No request has read the clock more than `d` before one that came earlier.
  predicate LateBy(times: seq<nat>, d: nat) {
    forall i, j :: 0 <= i < j < |times| ==> times[i] <= times[j] + d
  }

  function Run(times: seq<nat>, limit: RateLimit): Option<Window> {
    if times == [] then None
    else Some(After(Run(times[..|times| - 1], limit), limit, times[|times| - 1]))
  }

  // The times of the requests that were admitted.
  function Admitted(times: seq<nat>, limit: RateLimit): seq<nat> {
    if times == [] then []
    else
      var init, last := times[..|times| - 1], times[|times| - 1];
      if Admits(Run(init, limit), limit, last) then Admitted(init, limit) + [last] else Admitted(init, limit)
  }

  // How many of the times lie in [lo, hi).
  function Count(times: seq<nat>, lo: int, hi: int): nat {
    if times == [] then 0
    else
      var last := times[|times| - 1];
      Count(times[..|times| - 1], lo, hi) + if lo <= last < hi then 1 else 0
  }

  lemma {:induction false} CountBeyond(times: seq<nat>, lo: int, hi: int)
    requires forall i :: 0 <= i < |times| ==> times[i] < lo
    ensures Count(times, lo, hi) == 0
  {
    if times != [] { CountBeyond(times[..|times| - 1], lo, hi); }
  }

  lemma {:induction false} CountOfConcatenation(a: seq<nat>, b: seq<nat>, lo: int, hi: int)
    ensures Count(a + b, lo, hi) == Count(a, lo, hi) + Count(b, lo, hi)
  {
    if b == [] {
      assert a + b == a;
    } else {
      assert (a + b)[..|a + b| - 1] == a + b[..|b| - 1];
      CountOfConcatenation(a, b[..|b| - 1], lo, hi);
    }
  }

  lemma {:induction false} CountAtMost(times: seq<nat>, lo: int, hi: int)
    ensures Count(times, lo, hi) <= |times|
    ensures times != [] && !(lo <= times[0] < hi) ==> Count(times, lo, hi) < |times|
  {
    if times != [] {
      CountAtMost(times[..|times| - 1], lo, hi);
      assert |times| > 1 ==> times[..|times| - 1][0] == times[0];
    }
  }

  lemma {:induction false} CountElsewhere(times: seq<nat>, lo: int, hi: int)
    requires forall i :: 0 <= i < |times| ==> times[i] < lo || hi <= times[i]
    ensures Count(times, lo, hi) == 0
  {
    if times != [] { CountElsewhere(times[..|times| - 1], lo, hi); }
  }

  lemma CountOfAppend(admitted: seq<nat>, t: nat, lo: int, hi: int)
    ensures Count(admitted + [t], lo, hi) == Count(admitted, lo, hi) + if lo <= t < hi then 1 else 0
  {
    assert (admitted + [t])[..|admitted|] == admitted;
  }

  // The admitted times of earlier windows, when a window starts at `start`: all lie before it, a
  // window's length before it there is at most one full window, and no interval exceeds the bound.
  ghost predicate Earlier(old_: seq<nat>, start: nat, limit: RateLimit) {
    && (forall i :: 0 <= i < |old_| ==> old_[i] < start)
    && (forall lo: int, hi: int :: lo >= start - limit.window ==> Count(old_, lo, hi) <= limit.requests)
    && (forall lo: int, hi: int :: lo > start - limit.window ==> Count(old_, lo, hi) < limit.requests)
    && (forall lo: int, hi: int :: hi <= lo + limit.window ==> Count(old_, lo, hi) < 2 * limit.requests)
  }

  // The admitted times of the current window: the first at its start, none more than one tick before.
  ghost predicate InWindow(current: seq<nat>, w: Window, limit: RateLimit) {
    && w.used == |current| && 0 < |current| <= limit.requests && current[0] == w.startedAt
    && forall i :: 0 <= i < |current| ==> w.startedAt - 1 <= current[i] < w.startedAt + limit.window
  }

  lemma TogetherBounded(old_: seq<nat>, current: seq<nat>, w: Window, limit: RateLimit, lo: int, hi: int)
    requires limit.window > 0 && Earlier(old_, w.startedAt, limit) && InWindow(current, w, limit)
    requires hi <= lo + limit.window
    ensures Count(old_ + current, lo, hi) < 2 * limit.requests
  {
    CountOfConcatenation(old_, current, lo, hi);
    CountAtMost(current, lo, hi);
    if lo < w.startedAt - limit.window {
      CountElsewhere(current, lo, hi);
    }
  }

  // A new window: what was the current one belongs to the earlier ones.
  lemma RollsOver(old_: seq<nat>, current: seq<nat>, w: Window, limit: RateLimit, now: nat)
    requires limit.window > 0 && Earlier(old_, w.startedAt, limit) && InWindow(current, w, limit)
    requires now >= w.startedAt + limit.window
    ensures Earlier(old_ + current, now, limit)
  {
    var all := old_ + current;
    forall lo: int, hi: int
      ensures lo >= now - limit.window ==> Count(all, lo, hi) <= limit.requests
      ensures lo > now - limit.window ==> Count(all, lo, hi) < limit.requests
      ensures hi <= lo + limit.window ==> Count(all, lo, hi) < 2 * limit.requests
    {
      CountOfConcatenation(old_, current, lo, hi);
      CountAtMost(current, lo, hi);
      if lo >= w.startedAt {
        CountBeyond(old_, lo, hi);
      }
      if hi <= lo + limit.window {
        TogetherBounded(old_, current, w, limit, lo, hi);
      }
    }
  }

  // How the admitted times divide into those of earlier windows and of the current one.
  ghost predicate Divides(old_: seq<nat>, current: seq<nat>, times: seq<nat>, limit: RateLimit)
    requires times != []
  {
    var w := Run(times, limit).value;
    && Admitted(times, limit) == old_ + current && w.startedAt in times
    && Earlier(old_, w.startedAt, limit) && InWindow(current, w, limit)
  }

  lemma RunOfOne(now: nat, limit: RateLimit)
    requires limit.window > 0 && limit.requests > 0
    ensures Divides([], [now], [now], limit)
    ensures Run([now], limit) == Some(Window(now, 1)) && Admitted([now], limit) == [now]
  {
    OneMore([], limit, now);
    assert [] + [now] == [now] && Admitted([], limit) == [];
  }

  lemma OneMoreDivides(times: seq<nat>, now: nat, limit: RateLimit, old_: seq<nat>, current: seq<nat>)
    returns (old': seq<nat>, current': seq<nat>)
    requires limit.window > 0 && limit.requests > 0
    requires times != [] && LateBy(times + [now], 1) && Divides(old_, current, times, limit)
    ensures Divides(old', current', times + [now], limit)
  {
    OneMore(times, limit, now);
    var w := Run(times, limit).value;
    var i :| 0 <= i < |times| && times[i] == w.startedAt;
    assert (times + [now])[i] <= (times + [now])[|times|] + 1;
    if now >= w.startedAt + limit.window {
      RollsOver(old_, current, w, limit, now);
      old', current' := old_ + current, [now];
    } else if w.used < limit.requests {
      old', current' := old_, current + [now];
      assert old_ + current + [now] == old_ + (current + [now]);
    } else {
      old', current' := old_, current;
    }
  }

  lemma {:induction false} RunDivides(times: seq<nat>, limit: RateLimit) returns (old_: seq<nat>, current: seq<nat>)
    requires LateBy(times, 1) && limit.window > 0 && limit.requests > 0 && times != []
    ensures Divides(old_, current, times, limit)
  {
    var init, now := times[..|times| - 1], times[|times| - 1];
    assert times == init + [now];
    if init == [] {
      RunOfOne(now, limit);
      old_, current := [], [now];
    } else {
      old_, current := RunDivides(init, limit);
      old_, current := OneMoreDivides(init, now, limit, old_, current);
    }
  }

  // However the requests fall, an interval as long as the window sees fewer than twice the requests
  // that a window allows, even if requests come up to one tick late.
  lemma FewerThanTwice(times: seq<nat>, limit: RateLimit, t: nat)
    requires LateBy(times, 1) && limit.window > 0 && limit.requests > 0
    ensures Count(Admitted(times, limit), t, t + limit.window) < 2 * limit.requests
  {
    if times != [] {
      var old_, current := RunDivides(times, limit);
      TogetherBounded(old_, current, Run(times, limit).value, limit, t, t + limit.window);
    }
  }

  // `n` requests more, all at the time `now`.
  function Then(times: seq<nat>, now: nat, n: nat): seq<nat> {
    if n == 0 then times else Then(times, now, n - 1) + [now]
  }

  // The requests that exhaust the bound: one, then the rest of a window right before it ends, then
  // all of the next window right at its start.
  function Burst(limit: RateLimit): seq<nat>
    requires limit.window > 0 && limit.requests > 0
  {
    Then(Then([0], limit.window - 1, limit.requests - 1), limit.window, limit.requests)
  }

  lemma OneMore(times: seq<nat>, limit: RateLimit, now: nat)
    ensures Run(times + [now], limit) == Some(After(Run(times, limit), limit, now))
    ensures Admitted(times + [now], limit)
            == if Admits(Run(times, limit), limit, now) then Admitted(times, limit) + [now] else Admitted(times, limit)
  {
    assert (times + [now])[..|times|] == times;
  }

  lemma StaysCurrent(before: Option<Window>, limit: RateLimit, now: nat)
    requires limit.window > 0 && Admits(before, limit, now)
    ensures var w := Current(before, limit, now);
            var next := Window(w.startedAt, w.used + 1);
            After(before, limit, now) == next && Current(Some(next), limit, now) == next
  {
  }

  lemma FillOne(before: seq<nat>, after: seq<nat>, limit: RateLimit, now: nat, w: Window)
    requires limit.window > 0 && after == before + [now]
    requires w == Current(Run(before, limit), limit, now) && w.used < limit.requests
    ensures Admitted(after, limit) == Admitted(before, limit) + [now]
    ensures Current(Run(after, limit), limit, now) == Window(w.startedAt, w.used + 1)
  {
    OneMore(before, limit, now);
    StaysCurrent(Run(before, limit), limit, now);
  }

  // As long as there is room in a window, all requests at one moment are admitted.
  lemma {:induction false} Filling(times: seq<nat>, all: seq<nat>, limit: RateLimit, now: nat, n: nat, w: Window)
    requires all == Then(times, now, n)
    requires limit.window > 0 && w == Current(Run(times, limit), limit, now)
    requires w.used + n <= limit.requests
    ensures Admitted(all, limit) == Then(Admitted(times, limit), now, n)
    ensures Current(Run(all, limit), limit, now) == Window(w.startedAt, w.used + n)
    decreases n
  {
    if n > 0 {
      var before := Then(times, now, n - 1);
      Filling(times, before, limit, now, n - 1, w);
      FillOne(before, all, limit, now, Window(w.startedAt, w.used + n - 1));
    }
  }

  lemma {:induction false} CountOfThen(times: seq<nat>, now: nat, n: nat, lo: int, hi: int)
    ensures Count(Then(times, now, n), lo, hi) == Count(times, lo, hi) + if lo <= now < hi then n else 0
  {
    if n > 0 {
      CountOfThen(times, now, n - 1, lo, hi);
      CountOfAppend(Then(times, now, n - 1), now, lo, hi);
    }
  }

  lemma {:induction false} ThenIsLater(times: seq<nat>, now: nat, n: nat)
    requires LateBy(times, 0) && forall i :: 0 <= i < |times| ==> times[i] <= now
    ensures LateBy(Then(times, now, n), 0)
    ensures forall i :: 0 <= i < |Then(times, now, n)| ==> Then(times, now, n)[i] <= now
  {
    if n > 0 { ThenIsLater(times, now, n - 1); }
  }

  lemma BurstIsAdmitted(limit: RateLimit)
    requires limit.window > 0 && limit.requests > 0
    ensures Admitted(Burst(limit), limit) == Burst(limit)
  {
    OneMore([], limit, 0);
    assert [] + [0] == [0];
    var first := Then([0], limit.window - 1, limit.requests - 1);
    Filling([0], first, limit, limit.window - 1, limit.requests - 1, Window(0, 1));
    NextWindow(first, limit, limit.window - 1);
    Filling(first, Burst(limit), limit, limit.window, limit.requests, Window(limit.window, 0));
  }

  lemma NextWindow(times: seq<nat>, limit: RateLimit, now: nat)
    requires times != [] && limit.window == now + 1
    requires Current(Run(times, limit), limit, now).startedAt == 0
    ensures Current(Run(times, limit), limit, now + 1) == Window(now + 1, 0)
  {
  }

  // The bound cannot be lowered.
  lemma BurstReachesBound(limit: RateLimit)
    requires limit.window > 1 && limit.requests > 0
    ensures LateBy(Burst(limit), 0)
    ensures Count(Admitted(Burst(limit), limit), 1, 1 + limit.window) == 2 * limit.requests - 1
  {
    var first := Then([0], limit.window - 1, limit.requests - 1);
    BurstIsAdmitted(limit);
    CountOfThen([0], limit.window - 1, limit.requests - 1, 1, 1 + limit.window);
    CountOfThen(first, limit.window, limit.requests, 1, 1 + limit.window);
    CountBeyond([0], 1, 1 + limit.window);
    ThenIsLater([0], limit.window - 1, limit.requests - 1);
    ThenIsLater(first, limit.window, limit.requests);
  }

  // ---------------------------------------------------------------- late requests

  // Requests two ticks late: they fall into a window that has begun after them.
  function LateBurst(limit: RateLimit): seq<nat>
    requires limit.window > 0 && limit.requests > 0
  {
    var first := Then([0], limit.window - 1, limit.requests - 1);
    var second := Then(first + [limit.window], limit.window - 1, limit.requests - 1);
    Then(second + [2 * limit.window], 2 * limit.window - 2, limit.requests - 1)
  }

  // A request that starts a window, and others that fill it up, in time or late.
  lemma FillsWindow(times: seq<nat>, all: seq<nat>, limit: RateLimit, start: nat, now: nat)
    requires limit.window > 0 && limit.requests > 0 && now < start + limit.window
    requires Current(Run(times, limit), limit, start) == Window(start, 0)
    requires all == Then(times + [start], now, limit.requests - 1)
    ensures Admitted(all, limit) == Then(Admitted(times, limit) + [start], now, limit.requests - 1)
    ensures Run(all, limit).Some? && Run(all, limit).value.startedAt == start
  {
    FillOne(times, times + [start], limit, start, Window(start, 0));
    OneMore(times, limit, start);
    Filling(times + [start], all, limit, now, limit.requests - 1, Window(start, 1));
    ThenKeepsStart(times + [start], all, limit, now, limit.requests - 1, start);
  }

  lemma {:induction false} ThenKeepsStart(times: seq<nat>, all: seq<nat>, limit: RateLimit, now: nat, n: nat,
                                          start: nat)
    requires all == Then(times, now, n) && limit.window > 0 && now < start + limit.window
    requires Run(times, limit).Some? && Run(times, limit).value.startedAt == start
    ensures Run(all, limit).Some? && Run(all, limit).value.startedAt == start
    decreases n
  {
    if n > 0 {
      var before := Then(times, now, n - 1);
      ThenKeepsStart(times, before, limit, now, n - 1, start);
      OneMore(before, limit, now);
      assert all == before + [now];
    }
  }

  lemma LateBurstIsAdmitted(limit: RateLimit)
    requires limit.window > 0 && limit.requests > 0
    ensures Admitted(LateBurst(limit), limit) == LateBurst(limit)
  {
    var W, n := limit.window, limit.requests - 1;
    var first := Then([0], W - 1, n);
    var second := Then(first + [W], W - 1, n);
    assert [] + [0] == [0];
    FillsWindow([], first, limit, 0, W - 1);
    FillsWindow(first, second, limit, W, W - 1);
    FillsWindow(second, LateBurst(limit), limit, 2 * W, 2 * W - 2);
  }

  lemma {:induction false} ThenIsLate(times: seq<nat>, now: nat, n: nat, d: nat)
    requires LateBy(times, d) && forall i :: 0 <= i < |times| ==> times[i] <= now + d
    ensures LateBy(Then(times, now, n), d)
    ensures forall i :: 0 <= i < |Then(times, now, n)| ==> Then(times, now, n)[i] <= now + d
  {
    if n > 0 { ThenIsLate(times, now, n - 1, d); }
  }

  lemma LateBurstIsLate(limit: RateLimit)
    requires limit.window > 0 && limit.requests > 0
    ensures LateBy(LateBurst(limit), 2)
  {
    var W, n := limit.window, limit.requests - 1;
    var first := Then([0], W - 1, n);
    var second := Then(first + [W], W - 1, n);
    ThenIsLate([0], W - 1, n, 2);
    ThenIsLate(first + [W], W - 1, n, 2);
    ThenIsLate(second + [2 * W], 2 * W - 2, n, 2);
  }

  // Requests two ticks late are enough to exceed the bound of any limit of at least two.
  lemma LateRequestsExceedBound(limit: RateLimit)
    requires limit.window > 0 && limit.requests >= 2
    ensures LateBy(LateBurst(limit), 2)
    ensures Count(Admitted(LateBurst(limit), limit), limit.window - 1, 2 * limit.window - 1) == 3 * limit.requests - 2
                                                                                         >= 2 * limit.requests
  {
    var W, n := limit.window, limit.requests - 1;
    var lo, hi := W - 1, 2 * W - 1;
    var first := Then([0], W - 1, n);
    var second := Then(first + [W], W - 1, n);
    LateBurstIsLate(limit);
    LateBurstIsAdmitted(limit);
    CountOfAppend([], 0, lo, hi);
    assert [] + [0] == [0];
    CountOfThen([0], W - 1, n, lo, hi);
    CountOfAppend(first, W, lo, hi);
    CountOfThen(first + [W], W - 1, n, lo, hi);
    CountOfAppend(second, 2 * W, lo, hi);
    CountOfThen(second + [2 * W], 2 * W - 2, n, lo, hi);
  }

  // With a limit of one each admitted request starts a window, a window's length after the one before.
  ghost predicate Alone(admitted: seq<nat>, w: Option<Window>, limit: RateLimit) {
    && w.Some? && w.value.used == 1
    && (forall i :: 0 <= i < |admitted| ==> admitted[i] <= w.value.startedAt)
    && forall lo: int, hi: int :: hi <= lo + limit.window ==> Count(admitted, lo, hi) <= 1
  }

  lemma AloneAgain(admitted: seq<nat>, w: Window, now: nat, limit: RateLimit)
    requires limit.window > 0 && limit.requests == 1 && Alone(admitted, Some(w), limit)
    ensures Admits(Some(w), limit, now) ==> Alone(admitted + [now], Some(After(Some(w), limit, now)), limit)
    ensures !Admits(Some(w), limit, now) ==> After(Some(w), limit, now) == w
  {
    if now >= w.startedAt + limit.window {
      forall lo: int, hi: int | hi <= lo + limit.window
        ensures Count(admitted + [now], lo, hi) <= 1
      {
        CountOfAppend(admitted, now, lo, hi);
        if lo <= now < hi {
          CountElsewhere(admitted, lo, hi);
        }
      }
    }
  }

  lemma FirstIsAlone(now: nat, limit: RateLimit)
    requires limit.window > 0
    ensures Alone([now], Some(Window(now, 1)), limit)
  {
    forall lo: int, hi: int
      ensures Count([now], lo, hi) <= 1
    {
      CountAtMost([now], lo, hi);
    }
  }

  lemma {:induction false} OneAtATime(times: seq<nat>, limit: RateLimit)
    requires limit.window > 0 && limit.requests == 1 && times != []
    ensures Alone(Admitted(times, limit), Run(times, limit), limit)
  {
    var init, now := times[..|times| - 1], times[|times| - 1];
    assert times == init + [now];
    if init == [] {
      RunOfOne(now, limit);
      FirstIsAlone(now, limit);
    } else {
      OneAtATime(init, limit);
      OneMoreAlone(init, now, limit);
    }
  }

  lemma OneMoreAlone(times: seq<nat>, now: nat, limit: RateLimit)
    requires limit.window > 0 && limit.requests == 1 && Alone(Admitted(times, limit), Run(times, limit), limit)
    ensures Alone(Admitted(times + [now], limit), Run(times + [now], limit), limit)
  {
    OneMore(times, limit, now);
    AloneAgain(Admitted(times, limit), Run(times, limit).value, now, limit);
  }

  // How many requests are admitted in a window's length from `t` on.
  function Seen(times: seq<nat>, limit: RateLimit, t: nat): nat {
    Count(Admitted(times, limit), t, t + limit.window)
  }

  ghost predicate WithinBound(times: seq<nat>, limit: RateLimit) {
    forall t: nat :: Seen(times, limit, t) < 2 * limit.requests
  }

  // The bound holds for all requests that come at most `d` ticks late exactly if that is at most one
  // tick or the limit is one request.
  lemma KeepsBoundIff(limit: RateLimit, d: nat)
    requires limit.window > 0 && limit.requests > 0
    ensures (forall times: seq<nat> :: LateBy(times, d) ==> WithinBound(times, limit))
            <==> limit.requests == 1 || d <= 1
  {
    if limit.requests == 1 || d <= 1 {
      forall times: seq<nat>, t: nat | LateBy(times, d)
        ensures Seen(times, limit, t) < 2 * limit.requests
      {
        if d <= 1 {
          FewerThanTwice(times, limit, t);
        } else if times != [] {
          OneAtATime(times, limit);
        }
      }
    } else {
      LateRequestsExceedBound(limit);
      var t: nat := limit.window - 1;
      assert Seen(LateBurst(limit), limit, t) >= 2 * limit.requests;
      assert LateBy(LateBurst(limit), d) && !WithinBound(LateBurst(limit), limit);
    }
  }

  // ---------------------------------------------------------------- all projects and classes

  type Key = (string, AdmissionClass)

  datatype Request = Request(key: Key, now: nat)

  function LimitFor(policies: map<string, Policy>, key: Key): Option<RateLimit> {
    if key.0 in policies then LimitOf(policies[key.0], key.1) else None
  }

  // The limit for a class is the one that the policy of the project names after it.
  predicate HasLimit(policies: map<string, Policy>, project: string, class_: AdmissionClass, limit: Option<RateLimit>) {
    if project !in policies then limit == None
    else
      && (class_ == Read ==> limit == policies[project].read)
      && (class_ == Write ==> limit == policies[project].write)
      && (class_ == Admin ==> limit == policies[project].admin)
  }

  function Lookup(windows: map<Key, Window>, key: Key): Option<Window> {
    if key in windows then Some(windows[key]) else None
  }

  function AfterRequest(policies: map<string, Policy>, windows: map<Key, Window>, r: Request): map<Key, Window> {
    match LimitFor(policies, r.key)
    case None => windows
    case Some(limit) => windows[r.key := After(Lookup(windows, r.key), limit, r.now)]
  }

  predicate IsAdmitted(policies: map<string, Policy>, windows: map<Key, Window>, r: Request) {
    LimitFor(policies, r.key).None? || Admits(Lookup(windows, r.key), LimitFor(policies, r.key).value, r.now)
  }

  function AfterAll(policies: map<string, Policy>, requests: seq<Request>): map<Key, Window> {
    if requests == [] then map[]
    else AfterRequest(policies, AfterAll(policies, requests[..|requests| - 1]), requests[|requests| - 1])
  }

  function TimesOf(requests: seq<Request>, key: Key): seq<nat> {
    if requests == [] then []
    else
      var init, last := TimesOf(requests[..|requests| - 1], key), requests[|requests| - 1];
      if last.key == key then init + [last.now] else init
  }

  // When requests with this key were admitted in the course of all requests.
  function AdmittedOf(policies: map<string, Policy>, requests: seq<Request>, key: Key): seq<nat> {
    if requests == [] then []
    else
      var init, last := requests[..|requests| - 1], requests[|requests| - 1];
      var before := AdmittedOf(policies, init, key);
      if last.key == key && IsAdmitted(policies, AfterAll(policies, init), last) then before + [last.now] else before
  }

  // The requests of one project and class fare as if there were no others.
  lemma {:induction false} OthersDoNotMatter(policies: map<string, Policy>, requests: seq<Request>, key: Key,
                                             limit: RateLimit)
    requires LimitFor(policies, key) == Some(limit)
    ensures Lookup(AfterAll(policies, requests), key) == Run(TimesOf(requests, key), limit)
    ensures AdmittedOf(policies, requests, key) == Admitted(TimesOf(requests, key), limit)
  {
    if requests != [] {
      var init, last := requests[..|requests| - 1], requests[|requests| - 1];
      OthersDoNotMatter(policies, init, key, limit);
      OneMore(TimesOf(init, key), limit, last.now);
    }
  }

  predicate ComeLateBy(requests: seq<Request>, d: nat) {
    forall i, j :: 0 <= i < j < |requests| ==> requests[i].now <= requests[j].now + d
  }

  ghost predicate Sent(requests: seq<Request>, t: nat) {
    exists i :: 0 <= i < |requests| && requests[i].now == t
  }

  lemma {:induction false} TimesLateBy(requests: seq<Request>, key: Key, d: nat)
    requires ComeLateBy(requests, d)
    ensures LateBy(TimesOf(requests, key), d)
    ensures forall t :: t in TimesOf(requests, key) ==> Sent(requests, t)
  {
    if requests != [] {
      var init, last := requests[..|requests| - 1], requests[|requests| - 1];
      TimesLateBy(init, key, d);
      assert Sent(requests, last.now) by {
        assert requests[|requests| - 1].now == last.now;
      }
      forall t | t in TimesOf(init, key)
        ensures Sent(requests, t) && t <= last.now + d
      {
        var i :| 0 <= i < |init| && init[i].now == t;
        assert requests[i].now == t;
      }
      assert forall k :: 0 <= k < |TimesOf(init, key)| ==> TimesOf(init, key)[k] in TimesOf(init, key);
    }
  }

  // In any run of requests of all projects, each project and class keeps to its own bound.
  lemma LimitsHold(policies: map<string, Policy>, requests: seq<Request>, key: Key, limit: RateLimit, t: nat)
    requires LimitFor(policies, key) == Some(limit) && ValidLimit(Some(limit)) && ComeLateBy(requests, 1)
    ensures Count(AdmittedOf(policies, requests, key), t, t + limit.window) < 2 * limit.requests
  {
    OthersDoNotMatter(policies, requests, key, limit);
    TimesLateBy(requests, key, 1);
    FewerThanTwice(TimesOf(requests, key), limit, t);
  }

  // ---------------------------------------------------------------- the service

  class GovernanceService {
    const isSpace: char -> bool

    var policies: map<string, Policy>
    var windows: map<Key, Window>
    var allowed: map<AdmissionClass, nat>
    var denied: map<AdmissionClass, nat>

    ghost predicate Valid()
      reads this
    {
      forall project :: project in policies ==> ValidPolicy(policies[project])
    }

    constructor (isSpace: char -> bool)
      ensures Valid() && policies == map[] && windows == map[]
    {
      this.isSpace := isSpace;
      policies, windows, allowed, denied := map[], map[], map[], map[];
    }

    method SetProjectPolicy(project: string, policy: Policy) returns (r: Result<(), GovernanceError>)
      requires Valid()
      modifies this`policies
      ensures Valid()
      ensures r == if && (exists i :: 0 <= i < |project| && !isSpace(project[i]))
                      && (forall limit :: limit in {policy.read, policy.write, policy.admin} ==>
                            limit == None || (limit.value.requests > 0 && limit.value.window > 0))
                      && policy.maxCollections != Some(0) && policy.maxRecords != Some(0)
                   then Ok(()) else Err(InvalidPolicy)
      ensures policies == if r.Ok? then old(policies)[project := policy] else old(policies)
    {
      if !ValidPolicy(policy) || IsBlank(project, isSpace) { return Err(InvalidPolicy); }
      policies := policies[project := policy];
      r := Ok(());
    }

    method RemoveProjectPolicy(project: string)
      requires Valid()
      modifies this`policies, this`windows
      ensures Valid() && policies == old(policies) - {project}
      ensures forall key :: key in windows <==> key in old(windows) && key.0 != project
      ensures forall key :: key in windows ==> windows[key] == old(windows)[key]
    {
      policies := policies - {project};
      windows := map key | key in windows && key.0 != project :: windows[key];
    }

    method RecordMetric(class_: AdmissionClass, admitted: bool)
      modifies this`allowed, this`denied
      ensures allowed == if admitted then Bumped(old(allowed), class_) else old(allowed)
      ensures denied == if admitted then old(denied) else Bumped(old(denied), class_)
    {
      if admitted {
        allowed := allowed[class_ := (if class_ in allowed then allowed[class_] else 0) + 1];
      } else {
        denied := denied[class_ := (if class_ in denied then denied[class_] else 0) + 1];
      }
    }

    method AdmitAt(project: string, class_: AdmissionClass, now: nat) returns (r: Result<Decision, GovernanceError>)
      requires Valid()
      modifies this`windows, this`allowed, this`denied
      ensures Valid()
      ensures HasLimit(policies, project, class_, LimitFor(policies, (project, class_)))
      ensures windows == AfterRequest(policies, old(windows), Request((project, class_), now))
      ensures r.Ok? <==> IsAdmitted(policies, old(windows), Request((project, class_), now))
      ensures match LimitFor(policies, (project, class_))
              case None => r == Ok(Decision(None, None))
              case Some(limit) =>
                var before := Lookup(old(windows), (project, class_));
                var used := windows[(project, class_)].used;
                && (r.Ok? ==> r.value == Decision(Some(limit.requests - used), Some(ResetAfter(before, limit, now))))
                && (r.Err? ==> r.error == RateLimited(ResetAfter(before, limit, now)))
      ensures allowed == if r.Ok? then Bumped(old(allowed), class_) else old(allowed)
      ensures denied == if r.Ok? then old(denied) else Bumped(old(denied), class_)
    {
      var key := (project, class_);
      var limit := LimitFor(policies, key);
      if limit == None {
        RecordMetric(class_, true);
        return Ok(Decision(None, None));
      }
      var state := if key in windows then windows[key] else Window(now, 0);
      if Elapsed(now, state.startedAt) >= limit.value.window {
        state := Window(now, 0);
      }
      var elapsed := Elapsed(now, state.startedAt);
      var resetAfter := if elapsed <= limit.value.window then limit.value.window - elapsed else 0;
      if state.used >= limit.value.requests {
        windows := windows[key := state];
        RecordMetric(class_, false);
        return Err(RateLimited(resetAfter));
      }
      state := state.(used := state.used + 1);
      windows := windows[key := state];
      RecordMetric(class_, true);
      r := Ok(Decision(Some(limit.value.requests - state.used), Some(resetAfter)));
    }
  }

  function Bumped(counts: map<AdmissionClass, nat>, class_: AdmissionClass): (more: map<AdmissionClass, nat>)
    ensures more.Keys == counts.Keys + {class_}
    ensures more[class_] == 1 + (if class_ in counts then counts[class_] else 0)
    ensures forall c :: c in counts && c != class_ ==> more[c] == counts[c]
  {
    counts[class_ := if class_ in counts then counts[class_] + 1 else 1]
  }
}
