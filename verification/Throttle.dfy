/** Event throttling: when the next reconciliation may start (controller/controller.go).
    Times and durations are integers of one unit; SECOND says how many make a second. */
module Throttle {

  const SECOND := 1_000_000_000
  const EVENT_DELAY := 5 * SECOND

  datatype Settings = Settings(interval: int, minEventSyncInterval: int)

  datatype Times = Times(nextRunAt: int, lastRunAt: int)

  /** The three steps taken under the mutex: an event handler asks for a run, the loop asks
      whether to run, and a run records its start. */
  datatype Step = Event(now: int) | Poll(now: int) | Start(now: int)

  function Max(a: int, b: int): int { if a < b then b else a }

  function Min(a: int, b: int): int { if b < a then b else a }

  predicate Due(s: Times, now: int) {
    now >= s.nextRunAt
  }

  function After(cfg: Settings, s: Times, step: Step): Times {
    match step
    case Event(now) =>
      s.(nextRunAt := Max(s.lastRunAt + cfg.minEventSyncInterval, Min(now + EVENT_DELAY, s.nextRunAt)))
    case Poll(now) => if Due(s, now) then s.(nextRunAt := now + cfg.interval) else s
    case Start(now) => s.(lastRunAt := now)
  }

  method Earliest(r: int, times: seq<int>) returns (e: int)
    ensures e <= r && forall t | t in times :: e <= t
    ensures e == r || e in times
  {
    e := r;
    for i := 0 to |times|
      invariant e <= r && forall t | t in times[..i] :: e <= t
      invariant e == r || e in times[..i]
    {
      assert times[..i + 1] == times[..i] + [times[i]];
      if times[i] < e { e := times[i]; }
    }
    assert times[..|times|] == times;
  }

  method Latest(r: int, times: seq<int>) returns (l: int)
    ensures l >= r && forall t | t in times :: l >= t
    ensures l == r || l in times
  {
    l := r;
    for i := 0 to |times|
      invariant l >= r && forall t | t in times[..i] :: l >= t
      invariant l == r || l in times[..i]
    {
      assert times[..i + 1] == times[..i] + [times[i]];
      if times[i] > l { l := times[i]; }
    }
    assert times[..|times|] == times;
  }

  class Controller {
    const settings: Settings
    var nextRunAt: int
    var lastRunAt: int

    constructor (settings: Settings, zero: int)
      ensures this.settings == settings && Now() == Times(zero, zero)
    {
      this.settings := settings;
      nextRunAt, lastRunAt := zero, zero;
    }

    function Now(): Times
      reads this
    {
      Times(nextRunAt, lastRunAt)
    }

    method ScheduleRunOnce(now: int)
      modifies this
      ensures Now() == After(settings, old(Now()), Event(now))
    {
      var soon := Earliest(now + EVENT_DELAY, [nextRunAt]);
      assert nextRunAt in [nextRunAt];
      var next := Latest(lastRunAt + settings.minEventSyncInterval, [soon]);
      assert soon in [soon];
      nextRunAt := next;
    }

    method ShouldRunOnce(now: int) returns (run: bool)
      modifies this
      ensures run == Due(old(Now()), now)
      ensures Now() == After(settings, old(Now()), Poll(now))
    {
      if now < nextRunAt { return false; }
      nextRunAt := now + settings.interval;
      return true;
    }

    /** The start of RunOnce. */
    method StartRun(now: int)
      modifies this
      ensures Now() == After(settings, old(Now()), Start(now))
    {
      lastRunAt := now;
    }
  }

  // ---- runs: every interleaving of the locked steps ----

  /** The state before step k. */
  function At(cfg: Settings, s: Times, steps: seq<Step>, k: nat): Times
    requires k <= |steps|
  {
    if k == 0 then s else After(cfg, At(cfg, s, steps, k - 1), steps[k - 1])
  }

  /** Step k is a poll that says yes. */
  ghost predicate Accepts(cfg: Settings, s: Times, steps: seq<Step>, k: nat)
    requires k < |steps|
  {
    steps[k].Poll? && Due(At(cfg, s, steps, k), steps[k].now)
  }

  /** After k steps the loop has accepted a run and not yet recorded its start. */
  ghost predicate Owes(cfg: Settings, s: Times, steps: seq<Step>, k: nat)
    requires k <= |steps|
  {
    k > 0 && if Accepts(cfg, s, steps, k - 1) then true else !steps[k - 1].Start? && Owes(cfg, s, steps, k - 1)
  }

  /** The clock never goes back. */
  ghost predicate Monotone(s: Times, steps: seq<Step>) {
    && (forall k | 0 <= k < |steps| :: s.lastRunAt <= steps[k].now)
    && (forall j, k | 0 <= j < k < |steps| :: steps[j].now <= steps[k].now)
  }

  /** A run of the system: events come at any time; the loop polls, and starts exactly the
      runs it accepted before it polls again. */
  ghost predicate IsRun(cfg: Settings, s: Times, steps: seq<Step>) {
    && Monotone(s, steps)
    && forall k | 0 <= k < |steps| ::
         && (steps[k].Poll? ==> !Owes(cfg, s, steps, k))
         && (steps[k].Start? ==> Owes(cfg, s, steps, k))
  }

  /** lastRunAt never exceeds the clock and never goes back. */
  lemma {:induction false} LastRunAtGrows(cfg: Settings, s: Times, steps: seq<Step>, j: nat, k: nat)
    requires Monotone(s, steps) && j <= k <= |steps|
    ensures At(cfg, s, steps, j).lastRunAt <= At(cfg, s, steps, k).lastRunAt
    ensures k < |steps| ==> At(cfg, s, steps, k).lastRunAt <= steps[k].now
    decreases k
  {
    if k > 0 {
      LastRunAtGrows(cfg, s, steps, if j < k then j else k - 1, k - 1);
    }
  }

  /** From an accepted poll on, the next run is not due before min(interval, 5s) later. */
  lemma {:induction false} NotDueBefore(cfg: Settings, s: Times, steps: seq<Step>, i: nat, k: nat)
    requires Monotone(s, steps) && i < k <= |steps| && Accepts(cfg, s, steps, i)
    ensures At(cfg, s, steps, k).nextRunAt >= steps[i].now + Min(cfg.interval, EVENT_DELAY)
    decreases k
  {
    if k > i + 1 { NotDueBefore(cfg, s, steps, i, k - 1); }
  }

  /** Any two accepted runs are at least min(interval, 5s) apart, whatever events arrive. */
  lemma RunsAreSpaced(cfg: Settings, s: Times, steps: seq<Step>, i: nat, j: nat)
    requires Monotone(s, steps) && i < j < |steps|
    requires Accepts(cfg, s, steps, i) && Accepts(cfg, s, steps, j)
    ensures steps[j].now - steps[i].now >= Min(cfg.interval, EVENT_DELAY)
  {
    NotDueBefore(cfg, s, steps, i, j);
  }

  /** The times recorded in lastRunAt: step start records run i when it is the first start
      after it. */
  ghost predicate Records(cfg: Settings, s: Times, steps: seq<Step>, i: nat, start: nat)
    requires i < |steps|
  {
    && i < start < |steps| && Accepts(cfg, s, steps, i) && steps[start].Start?
    && forall m | i < m < start :: !steps[m].Start?
  }

  /** Recorded starts are at least min(interval, 5s) apart, less the delay with which the
      earlier one was recorded. */
  lemma RecordedStartsAreSpaced(cfg: Settings, s: Times, steps: seq<Step>, i: nat, start: nat, j: nat, next: nat)
    requires Monotone(s, steps) && i < j < |steps|
    requires Records(cfg, s, steps, i, start) && Records(cfg, s, steps, j, next)
    ensures steps[next].now - steps[start].now >=
            Min(cfg.interval, EVENT_DELAY) - (steps[start].now - steps[i].now)
  {
    RunsAreSpaced(cfg, s, steps, i, j);
  }

  /** The bound is met: a start recorded 4s late is followed by the next start 1s later. */
  lemma RecordedStartsCanBeClose()
    ensures var cfg, s := Settings(100 * SECOND, 10 * SECOND), Times(0, 0);
            var steps := [Poll(100 * SECOND), Event(100 * SECOND), Start(104 * SECOND), Poll(105 * SECOND), Start(105 * SECOND)];
            && IsRun(cfg, s, steps) && Records(cfg, s, steps, 0, 2) && Records(cfg, s, steps, 3, 4)
            && steps[4].now - steps[2].now == Min(cfg.interval, EVENT_DELAY) - (steps[2].now - steps[0].now)
  {
    var cfg, s := Settings(100 * SECOND, 10 * SECOND), Times(0, 0);
    var steps := [Poll(100 * SECOND), Event(100 * SECOND), Start(104 * SECOND), Poll(105 * SECOND), Start(105 * SECOND)];
    assert At(cfg, s, steps, 0) == s;
    assert At(cfg, s, steps, 1) == Times(200 * SECOND, 0);
    assert At(cfg, s, steps, 2) == Times(105 * SECOND, 0);
    assert At(cfg, s, steps, 3) == Times(105 * SECOND, 104 * SECOND);
    assert At(cfg, s, steps, 4) == Times(205 * SECOND, 104 * SECOND);
    assert !Owes(cfg, s, steps, 0) && Owes(cfg, s, steps, 1) && Owes(cfg, s, steps, 2) && !Owes(cfg, s, steps, 3);
    assert Owes(cfg, s, steps, 4);
  }

  // ---- the wider spacing ----

  /** Between accepting run i and recording its start there are only events. */
  lemma {:induction false} OnlyEventsUntilStart(cfg: Settings, s: Times, steps: seq<Step>, i: nat, k: nat)
    requires IsRun(cfg, s, steps) && i < k <= |steps| && Accepts(cfg, s, steps, i)
    requires forall m | i < m < k :: !steps[m].Start?
    ensures Owes(cfg, s, steps, k)
    ensures forall m | i < m < k :: steps[m].Event?
    decreases k
  {
    if k > i + 1 { OnlyEventsUntilStart(cfg, s, steps, i, k - 1); }
  }

  /** When the run accepted at step i can be followed at the earliest, seen at its start:
      interval later, unless an event came in between. Then only the first such event counts,
      and it is measured against the start of the run before. */
  function FirstEventBound(cfg: Settings, before: Times, accepted: int, events: seq<Step>): int
  {
    if events == [] then accepted + cfg.interval
    else Max(before.lastRunAt + cfg.minEventSyncInterval, Min(events[0].now + EVENT_DELAY, accepted + cfg.interval))
  }

  lemma {:induction false} WindowBound(cfg: Settings, s: Times, steps: seq<Step>, i: nat, k: nat)
    requires Monotone(s, steps) && i < k <= |steps| && Accepts(cfg, s, steps, i)
    requires forall m | i < m < k :: steps[m].Event?
    ensures At(cfg, s, steps, k) ==
            Times(FirstEventBound(cfg, At(cfg, s, steps, i), steps[i].now, steps[i + 1..k]), At(cfg, s, steps, i).lastRunAt)
    decreases k
  {
    if k > i + 1 {
      WindowBound(cfg, s, steps, i, k - 1);
      assert steps[i + 1..k][0] == steps[i + 1];
      assert k > i + 2 ==> steps[i + 1..k - 1][0] == steps[i + 1];
    }
  }

  /** Once run i has started, nothing makes a run due before the bound it started with, or
      before min(interval, minEventSyncInterval) after its acceptance, whichever is sooner. */
  lemma {:induction false} NotDueBeforeBound(cfg: Settings, s: Times, steps: seq<Step>, i: nat, start: nat, k: nat)
    requires Monotone(s, steps) && i < start < k <= |steps|
    requires steps[start].Start?
    ensures At(cfg, s, steps, k).nextRunAt >=
            Min(At(cfg, s, steps, start).nextRunAt, steps[i].now + Min(cfg.interval, cfg.minEventSyncInterval))
    ensures At(cfg, s, steps, k).lastRunAt >= steps[i].now
    decreases k
  {
    LastRunAtGrows(cfg, s, steps, start + 1, k);
    if k > start + 1 { NotDueBeforeBound(cfg, s, steps, i, start, k - 1); }
  }

  /** With no event between the acceptance of a run and its start, every later run comes at
      least min(interval, minEventSyncInterval) after it. */
  lemma RunsAreWidelySpaced(cfg: Settings, s: Times, steps: seq<Step>, i: nat, j: nat)
    requires Monotone(s, steps) && i + 1 < j < |steps|
    requires Accepts(cfg, s, steps, i) && steps[i + 1].Start? && Accepts(cfg, s, steps, j)
    ensures steps[j].now - steps[i].now >= Min(cfg.interval, cfg.minEventSyncInterval)
  {
    WindowBound(cfg, s, steps, i, i + 1);
    assert steps[i + 1..i + 1] == [];
    NotDueBeforeBound(cfg, s, steps, i, i + 1, j);
  }

  /** An event in that window can bring the next run closer: here 5s after the last one,
      although both intervals are longer. */
  lemma EventInWindowNarrows()
    ensures var cfg := Settings(100 * SECOND, 10 * SECOND);
            var s := Times(0, 0);
            var steps := [Poll(100 * SECOND), Event(100 * SECOND), Start(101 * SECOND), Poll(105 * SECOND)];
            && IsRun(cfg, s, steps)
            && Accepts(cfg, s, steps, 0) && Accepts(cfg, s, steps, 3)
            && steps[3].now - steps[0].now < Min(cfg.interval, cfg.minEventSyncInterval)
  {
    var cfg := Settings(100 * SECOND, 10 * SECOND);
    var s := Times(0, 0);
    var steps := [Poll(100 * SECOND), Event(100 * SECOND), Start(101 * SECOND), Poll(105 * SECOND)];
    assert At(cfg, s, steps, 0) == s;
    assert At(cfg, s, steps, 1) == Times(200 * SECOND, 0);
    assert At(cfg, s, steps, 2) == Times(105 * SECOND, 0);
    assert At(cfg, s, steps, 3) == Times(105 * SECOND, 101 * SECOND);
    assert !Owes(cfg, s, steps, 0) && Owes(cfg, s, steps, 1) && Owes(cfg, s, steps, 2) && !Owes(cfg, s, steps, 3);
  }

  /** Every run accepted from step from on comes at least gap after step i. */
  ghost predicate Spaced(cfg: Settings, s: Times, steps: seq<Step>, i: nat, from: nat, gap: int)
    requires i < |steps|
  {
    forall j | from <= j < |steps| && Accepts(cfg, s, steps, j) :: steps[j].now - steps[i].now >= gap
  }

  /** However the run goes on, the runs still to come are spaced. */
  ghost predicate AlwaysSpaced(cfg: Settings, s: Times, steps: seq<Step>, i: nat, gap: int)
    requires i < |steps|
  {
    forall more: seq<Step> :: IsRun(cfg, s, steps + more) ==> Spaced(cfg, s, steps + more, i, |steps|, gap)
  }

  lemma {:induction false} PrefixAgrees(cfg: Settings, s: Times, steps: seq<Step>, more: seq<Step>, k: nat)
    requires k <= |steps|
    ensures At(cfg, s, steps + more, k) == At(cfg, s, steps, k)
    ensures Owes(cfg, s, steps + more, k) == Owes(cfg, s, steps, k)
    ensures k < |steps| ==> Accepts(cfg, s, steps + more, k) == Accepts(cfg, s, steps, k)
    decreases k
  {
    if k > 0 { PrefixAgrees(cfg, s, steps, more, k - 1); }
  }

  /** For every run that ends with the start of the run accepted at step i: all continuations
      keep later runs min(interval, minEventSyncInterval) away from i exactly when the start
      itself, or the bound it was started with, already lies that far out. */
  lemma WideSpacingExactly(cfg: Settings, s: Times, steps: seq<Step>, i: nat)
    requires IsRun(cfg, s, steps) && i + 1 < |steps| && Accepts(cfg, s, steps, i)
    requires steps[|steps| - 1].Start? && forall m | i < m < |steps| - 1 :: !steps[m].Start?
    ensures var gap := Min(cfg.interval, cfg.minEventSyncInterval);
            var bound := FirstEventBound(cfg, At(cfg, s, steps, i), steps[i].now, steps[i + 1..|steps| - 1]);
            AlwaysSpaced(cfg, s, steps, i, gap) <==> Max(steps[|steps| - 1].now, bound) >= steps[i].now + gap
  {
    var start := |steps| - 1;
    OnlyEventsUntilStart(cfg, s, steps, i, start);
    WindowBound(cfg, s, steps, i, start);
    if Max(steps[start].now, At(cfg, s, steps, start).nextRunAt) >= steps[i].now + Min(cfg.interval, cfg.minEventSyncInterval) {
      StaysSpaced(cfg, s, steps, i);
    } else {
      CanComeEarly(cfg, s, steps, i);
    }
  }

  lemma StaysSpaced(cfg: Settings, s: Times, steps: seq<Step>, i: nat)
    requires i + 1 < |steps| && steps[|steps| - 1].Start?
    requires Max(steps[|steps| - 1].now, At(cfg, s, steps, |steps| - 1).nextRunAt) >=
             steps[i].now + Min(cfg.interval, cfg.minEventSyncInterval)
    ensures AlwaysSpaced(cfg, s, steps, i, Min(cfg.interval, cfg.minEventSyncInterval))
  {
    forall more: seq<Step> | IsRun(cfg, s, steps + more)
      ensures Spaced(cfg, s, steps + more, i, |steps|, Min(cfg.interval, cfg.minEventSyncInterval))
    {
      PrefixAgrees(cfg, s, steps, more, |steps| - 1);
      LateBoundSpaces(cfg, s, steps + more, i, |steps| - 1);
    }
  }

  lemma CanComeEarly(cfg: Settings, s: Times, steps: seq<Step>, i: nat)
    requires IsRun(cfg, s, steps) && i + 1 < |steps| && steps[|steps| - 1].Start?
    requires Max(steps[|steps| - 1].now, At(cfg, s, steps, |steps| - 1).nextRunAt) <
             steps[i].now + Min(cfg.interval, cfg.minEventSyncInterval)
    ensures !AlwaysSpaced(cfg, s, steps, i, Min(cfg.interval, cfg.minEventSyncInterval))
  {
    var early := Max(steps[|steps| - 1].now, At(cfg, s, steps, |steps| - 1).nextRunAt);
    EarlyContinuation(cfg, s, steps, early);
    var all := steps + [Poll(early)];
    assert all[|steps|].now - all[i].now < Min(cfg.interval, cfg.minEventSyncInterval);
    assert !Spaced(cfg, s, all, i, |steps|, Min(cfg.interval, cfg.minEventSyncInterval));
  }

  lemma LateBoundSpaces(cfg: Settings, s: Times, steps: seq<Step>, i: nat, start: nat)
    requires Monotone(s, steps) && i < start < |steps| && steps[start].Start?
    requires Max(steps[start].now, At(cfg, s, steps, start).nextRunAt) >=
             steps[i].now + Min(cfg.interval, cfg.minEventSyncInterval)
    ensures Spaced(cfg, s, steps, i, start + 1, Min(cfg.interval, cfg.minEventSyncInterval))
  {
    forall j | start + 1 <= j < |steps| && Accepts(cfg, s, steps, j)
      ensures steps[j].now - steps[i].now >= Min(cfg.interval, cfg.minEventSyncInterval)
    {
      NotDueBeforeBound(cfg, s, steps, i, start, j);
      assert steps[start].now <= steps[j].now;
    }
  }

  lemma EarlyContinuation(cfg: Settings, s: Times, steps: seq<Step>, now: int)
    requires IsRun(cfg, s, steps) && steps != [] && steps[|steps| - 1].Start?
    requires now >= steps[|steps| - 1].now && now >= At(cfg, s, steps, |steps| - 1).nextRunAt
    ensures IsRun(cfg, s, steps + [Poll(now)]) && Accepts(cfg, s, steps + [Poll(now)], |steps|)
  {
    var all := steps + [Poll(now)];
    forall k | 0 <= k <= |steps| ensures Owes(cfg, s, all, k) == Owes(cfg, s, steps, k) && At(cfg, s, all, k) == At(cfg, s, steps, k) {
      PrefixAgrees(cfg, s, steps, [Poll(now)], k);
    }
    assert !Owes(cfg, s, all, |steps|);
    assert all[|steps|] == Poll(now);
    assert s.lastRunAt <= steps[|steps| - 1].now;
  }

  // ---- no starvation ----

  /** After an event at step k, until the next accepted run, a run is due no later than 5s
      after the event or minEventSyncInterval after the latest start. Later events never
      push it further. */
  lemma {:induction false} EventBoundHolds(cfg: Settings, s: Times, steps: seq<Step>, k: nat, m: nat)
    requires Monotone(s, steps) && k < m <= |steps| && steps[k].Event?
    requires forall j | k < j < m :: !Accepts(cfg, s, steps, j)
    ensures At(cfg, s, steps, m).nextRunAt <=
            Max(At(cfg, s, steps, m).lastRunAt + cfg.minEventSyncInterval, steps[k].now + EVENT_DELAY)
    decreases m
  {
    if m > k + 1 {
      EventBoundHolds(cfg, s, steps, k, m - 1);
      LastRunAtGrows(cfg, s, steps, m - 1, m);
      assert !Accepts(cfg, s, steps, m - 1);
    }
  }

  /** So the first poll at or after that bound runs: no stream of events can starve one. */
  lemma EventIsServed(cfg: Settings, s: Times, steps: seq<Step>, k: nat, m: nat)
    requires Monotone(s, steps) && k < m < |steps| && steps[k].Event? && steps[m].Poll?
    requires steps[m].now >= Max(At(cfg, s, steps, m).lastRunAt + cfg.minEventSyncInterval, steps[k].now + EVENT_DELAY)
    ensures exists j | k < j <= m :: Accepts(cfg, s, steps, j)
  {
    if forall j | k < j < m :: !Accepts(cfg, s, steps, j) {
      EventBoundHolds(cfg, s, steps, k, m);
      assert Accepts(cfg, s, steps, m);
    }
  }
}
