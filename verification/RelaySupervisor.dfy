/**
 The relay supervisor of tunnel/relay_health.go and the restart backoff of
 tunnel/main.go: two threads, a supervisor that restarts a child process and a monitor
 it starts for each attempt, share one locked health record. Every interleaving of
 their steps is a run; times are nanoseconds.
 */
module RelaySupervisor {
  import opened Wrappers
  import opened Basics

  type Time = int

  const SECOND: int := 1_000_000_000
  const STALE: int := 10 * SECOND
  const HEALTHY: int := 60 * SECOND

  // ---------------------------------------------------------------- backoff

  const MAX_RETRIES: nat := 10
  const MAX_DELAY: nat := 300

  function NextRetries(retries: nat): nat { if retries < MAX_RETRIES then retries + 1 else retries }

  /** The delay before the next restart, in seconds. */
  function Delay(retries: nat): nat
    requires retries >= 1
  {
    if Power2(retries - 1) > MAX_DELAY then MAX_DELAY else Power2(retries - 1)
  }

  function Retries(n: nat): nat { if n == 0 then 0 else NextRetries(Retries(n - 1)) }

  /** The n-th delay in a row doubles from one second and stays at five minutes: the cap on the counter never shows. */
  lemma {:induction false} DelayDoubles(n: nat)
    requires n >= 1
    ensures 1 <= Retries(n) <= MAX_RETRIES && Retries(n) == if n < MAX_RETRIES then n else MAX_RETRIES
    ensures Delay(Retries(n)) == if Power2(n - 1) > MAX_DELAY then MAX_DELAY else Power2(n - 1)
    ensures 1 <= Delay(Retries(n)) <= MAX_DELAY
  {
    if n > 1 {
      DelayDoubles(n - 1);
      if n > MAX_RETRIES {
        Power2Grows(MAX_RETRIES - 1, n - 1);
        Power2OfNine();
      }
    }
  }

  lemma {:induction false} Power2OfNine()
    ensures Power2(9) == 512
  {
    assert Power2(3) == 2 * Power2(2) == 8;
    assert Power2(6) == 2 * Power2(5) == 64;
  }

  // ---------------------------------------------------------------- the health record

  datatype Observation = Observation(connected: bool, forwards: bool, endpoint: bool)

  const UNKNOWN := Observation(false, false, false)

  predicate Ready(o: Observation) { o.connected && o.forwards && o.endpoint }

  datatype Health = Health(observation: Observation, checked: Option<Time>, healthySince: Option<Time>)

  const CLEARED := Health(UNKNOWN, None, None)

  function HealthySince(h: Health, now: Time, o: Observation): Option<Time> {
    if !Ready(o) then None
    else if h.healthySince.None? || h.checked.None? || now - h.checked.value >= STALE then Some(now)
    else h.healthySince
  }

  function Observe(h: Health, now: Time, o: Observation): Health { Health(o, Some(now), HealthySince(h, now, o)) }

  predicate Resets(h: Health, now: Time, o: Observation) {
    Ready(o) && now - HealthySince(h, now, o).value >= HEALTHY
  }

  function Snapshot(h: Health, now: Time): Observation {
    if h.checked.None? || now - h.checked.value >= STALE then UNKNOWN else h.observation
  }

  /** What was observed last shows for ten seconds and not longer. */
  lemma {:induction false} SnapshotShowsLast(h: Health, at: Time, o: Observation, now: Time)
    ensures Snapshot(Observe(h, at, o), now) == if now - at < 10 * SECOND then o else Observation(false, false, false)
  {
  }

  // ---------------------------------------------------------------- what the record says about its history

  datatype Entry = Entry(time: Time, observation: Observation)

  /** The times of the unbroken ready observations at the end of a log: no two of them ten seconds apart. */
  function Streak(log: seq<Entry>): (r: seq<Time>)
    ensures |r| <= |log| && (r != [] ==> log != [] && r[|r| - 1] == log[|log| - 1].time)
  {
    if log == [] || !Ready(log[|log| - 1].observation) then []
    else
      var before, now := Streak(log[..|log| - 1]), log[|log| - 1].time;
      if before == [] || now - before[|before| - 1] >= STALE then [now] else before + [now]
  }

  /** The health record after the given observations since it was cleared. */
  function Recorded(log: seq<Entry>): Health {
    if log == [] then CLEARED
    else
      var last := log[|log| - 1];
      Health(last.observation, Some(last.time), if Streak(log) == [] then None else Some(Streak(log)[0]))
  }

  lemma {:induction false} ObserveRecords(log: seq<Entry>, now: Time, o: Observation)
    ensures Observe(Recorded(log), now, o) == Recorded(log + [Entry(now, o)])
  {
    var log' := log + [Entry(now, o)];
    assert log'[..|log'| - 1] == log;
  }

  /** How a streak grows: it starts anew, or goes on from the one before. */
  lemma {:induction false} StreakStep(log: seq<Entry>)
    requires Streak(log) != []
    ensures var init, now := log[..|log| - 1], log[|log| - 1].time;
            var before := Streak(init);
            && Ready(log[|log| - 1].observation)
            && if before == [] || now - before[|before| - 1] >= STALE then Streak(log) == [now]
               else Streak(log) == before + [now]
  {
  }

  /** The entries of a streak are the last ones of the log, and all ready. */
  lemma {:induction false} StreakIsReady(log: seq<Entry>, i: nat)
    requires i < |Streak(log)|
    ensures var at := |log| - |Streak(log)| + i; Streak(log)[i] == log[at].time && Ready(log[at].observation)
  {
    StreakStep(log);
    if i < |Streak(log)| - 1 {
      StreakIsReady(log[..|log| - 1], i);
    }
  }

  /** No two of them are ten seconds apart. */
  lemma {:induction false} StreakIsUnbroken(log: seq<Entry>, i: nat)
    requires i + 1 < |Streak(log)|
    ensures Streak(log)[i + 1] - Streak(log)[i] < STALE
  {
    StreakStep(log);
    if i + 1 < |Streak(log)| - 1 {
      StreakIsUnbroken(log[..|log| - 1], i);
    }
  }

  /** The entry before it was not ready, or ten seconds earlier. */
  lemma {:induction false} StreakStopsThere(log: seq<Entry>)
    requires Streak(log) != [] && |Streak(log)| < |log|
    ensures var before := log[|log| - |Streak(log)| - 1];
            !Ready(before.observation) || Streak(log)[0] - before.time >= STALE
  {
    var init := log[..|log| - 1];
    StreakStep(log);
    if |Streak(log)| == 1 {
      EmptyStreak(init);
    } else {
      StreakStopsThere(init);
    }
  }

  /** A streak is the longest run of ready observations close together at the end of the log. */
  lemma {:induction false} StreakIsMaximal(log: seq<Entry>)
    ensures var r := Streak(log);
            var start := |log| - |r|;
            && (forall i :: 0 <= i < |r| ==> r[i] == log[start + i].time && Ready(log[start + i].observation))
            && (forall i :: 0 <= i < |r| - 1 ==> r[i + 1] - r[i] < STALE)
            && (0 < start && r != [] ==> !Ready(log[start - 1].observation) || r[0] - log[start - 1].time >= STALE)
  {
    var r := Streak(log);
    forall i | 0 <= i < |r|
      ensures r[i] == log[|log| - |r| + i].time && Ready(log[|log| - |r| + i].observation)
    {
      StreakIsReady(log, i);
    }
    forall i | 0 <= i < |r| - 1
      ensures r[i + 1] - r[i] < STALE
    {
      StreakIsUnbroken(log, i);
    }
    if |r| < |log| && r != [] {
      StreakStopsThere(log);
    }
  }

  lemma {:induction false} EmptyStreak(log: seq<Entry>)
    requires log != []
    ensures Streak(log) == [] <==> !Ready(log[|log| - 1].observation)
  {
  }

  /** The backoff is reset exactly when the unbroken ready observations, this one included, span a minute. */
  lemma {:induction false} ResetMeansAMinuteReady(log: seq<Entry>, now: Time, o: Observation)
    ensures Resets(Recorded(log), now, o)
            <==> var r := Streak(log + [Entry(now, o)]); r != [] && r[|r| - 1] - r[0] >= HEALTHY
  {
    ObserveRecords(log, now, o);
    EmptyStreak(log + [Entry(now, o)]);
  }

  // ---------------------------------------------------------------- the two threads

  /** Where the supervisor stands in its loop. */
  datatype Supervisor = Top | Cleared | Running | Exited | Cancelled | ClearedAgain | Joined | Waiting | Stopped

  /** Where the monitor of the current attempt stands; it holds the lock while Locked and while Deciding. */
  datatype Monitor = Absent | Testing | Checking | Got(o: Observation) | Locked(o: Observation) | Deciding(o: Observation) | Sleeping | Done

  datatype State = State(
    supervisor: Supervisor, monitor: Monitor,
    parentDone: bool, cancelled: bool,
    health: Health, retries: nat, delays: seq<nat>,
    attempt: nat, owner: nat, log: seq<Entry>)

  const START := State(Top, Absent, false, false, CLEARED, 0, [], 0, 0, [])

  datatype Action =
    | ParentEnds
    | Enter | Clear | Launch | ChildExits | Cancel | ClearAgain | Join | GiveUp | Backoff | Wake
    | Test | NoCheck | CheckReturns(o: Observation) | Lock | Confirm | Record | Timer

  predicate HoldsLock(m: Monitor) { m.Locked? || m.Deciding? }

  /** The attempt's context has ended, by its own cancellation or its parent's. */
  predicate Ended(s: State) { s.cancelled || s.parentDone }

  predicate Enabled(s: State, a: Action) {
    match a
    case ParentEnds => true
    case Enter => s.supervisor.Top?
    case Clear => s.supervisor.Top? && !HoldsLock(s.monitor)
    case Launch => s.supervisor.Cleared?
    case ChildExits => s.supervisor.Running?
    case Cancel => s.supervisor.Exited?
    case ClearAgain => s.supervisor.Cancelled? && !HoldsLock(s.monitor)
    case Join => s.supervisor.ClearedAgain? && s.monitor.Done?
    case GiveUp => s.supervisor.Joined? || s.supervisor.Waiting?
    case Backoff => s.supervisor.Joined?
    case Wake => s.supervisor.Waiting?
    case Test => s.monitor.Testing?
    case NoCheck => s.monitor.Testing?
    case CheckReturns(_) => s.monitor.Checking?
    case Lock => s.monitor.Got?
    case Confirm => s.monitor.Locked?
    case Record => s.monitor.Deciding?
    case Timer => s.monitor.Sleeping?
  }

  function Apply(s: State, a: Action, now: Time): State
    requires Enabled(s, a)
  {
    match a
    case ParentEnds => s.(parentDone := true)
    case Enter => if s.parentDone then s.(supervisor := Stopped) else s
    case Clear => s.(supervisor := Cleared, health := CLEARED, log := [])
    case Launch => s.(supervisor := Running, monitor := Testing, cancelled := false, attempt := s.attempt + 1)
    case ChildExits => s.(supervisor := Exited)
    case Cancel => s.(supervisor := Cancelled, cancelled := true)
    case ClearAgain => s.(supervisor := ClearedAgain, health := CLEARED, log := [])
    case Join => s.(supervisor := Joined, monitor := Absent)
    case GiveUp => s.(supervisor := Stopped)
    case Backoff => s.(supervisor := Waiting, retries := NextRetries(s.retries),
                       delays := s.delays + [Delay(NextRetries(s.retries))])
    case Wake => s.(supervisor := Top)
    case Test => s.(monitor := if Ended(s) then Done else Checking)
    case NoCheck => s.(monitor := Done)
    case CheckReturns(o) => s.(monitor := Got(o))
    case Lock => s.(monitor := Locked(s.monitor.o))
    case Confirm => s.(monitor := if Ended(s) then Sleeping else Deciding(s.monitor.o))
    case Record =>
      var o := s.monitor.o;
      s.(monitor := Sleeping, health := Observe(s.health, now, o), owner := s.attempt,
         retries := if Resets(s.health, now, o) then 0 else s.retries,
         log := s.log + [Entry(now, o)])
    case Timer => s.(monitor := if Ended(s) then Done else Testing)
  }

  /** Between an attempt's launch and the clear after its end. */
  predicate Attempting(s: State) { s.supervisor.Running? || s.supervisor.Exited? || s.supervisor.Cancelled? }

  predicate DelaysOk(delays: seq<nat>) { forall i :: 0 <= i < |delays| ==> 1 <= delays[i] <= MAX_DELAY }

  /** What every interleaving keeps. */
  predicate Invariant(s: State, now: Time) {
    && s.health == Recorded(s.log)
    && (s.log != [] ==> Attempting(s) && s.owner == s.attempt)
    && TimesUpTo(s.log, now)
    && (s.monitor.Absent? || Attempting(s) || s.supervisor.ClearedAgain?)
    && (s.monitor.Deciding? ==> Attempting(s))
    && (s.supervisor.Cancelled? || s.supervisor.ClearedAgain? ==> s.cancelled)
    && s.retries <= MAX_RETRIES && DelaysOk(s.delays)
  }

  lemma {:induction false} DelayBounds(retries: nat)
    ensures 1 <= Delay(NextRetries(retries)) <= MAX_DELAY
  {
  }

  predicate TimesUpTo(log: seq<Entry>, now: Time) { forall i :: 0 <= i < |log| ==> log[i].time <= now }

  lemma {:induction false} TimesLater(log: seq<Entry>, before: Time, now: Time)
    requires TimesUpTo(log, before) && before <= now
    ensures TimesUpTo(log, now)
  {
  }

  lemma {:induction false} RecordKeeps(s: State, before: Time, now: Time)
    requires Invariant(s, before) && before <= now && s.monitor.Deciding?
    ensures Invariant(Apply(s, Record, now), now)
  {
    ObserveRecords(s.log, now, s.monitor.o);
    TimesLater(s.log, before, now);
  }

  lemma {:induction false} BackoffKeeps(s: State, before: Time, now: Time)
    requires Invariant(s, before) && before <= now && s.supervisor.Joined?
    ensures Invariant(Apply(s, Backoff, now), now)
  {
    DelayBounds(s.retries);
    TimesLater(s.log, before, now);
  }

  /** The supervisor's steps that touch neither the health record nor the backoff. */
  lemma {:induction false} SupervisorKeeps(s: State, a: Action, before: Time, now: Time)
    requires Invariant(s, before) && before <= now && Enabled(s, a)
    requires a.ParentEnds? || a.Enter? || a.Launch? || a.ChildExits? || a.Cancel? || a.Join? || a.GiveUp? || a.Wake?
    ensures Invariant(Apply(s, a, now), now)
  {
    TimesLater(s.log, before, now);
  }

  lemma {:induction false} ClearKeeps(s: State, a: Action, before: Time, now: Time)
    requires Invariant(s, before) && before <= now && Enabled(s, a) && (a.Clear? || a.ClearAgain?)
    ensures Invariant(Apply(s, a, now), now)
  {
  }

  /** The monitor's steps up to the one that records. */
  lemma {:induction false} MonitorKeeps(s: State, a: Action, before: Time, now: Time)
    requires Invariant(s, before) && before <= now && Enabled(s, a)
    requires a.Test? || a.NoCheck? || a.CheckReturns? || a.Lock? || a.Confirm? || a.Timer?
    ensures Invariant(Apply(s, a, now), now)
  {
    TimesLater(s.log, before, now);
  }

  /** Every step of either thread keeps the invariant. */
  lemma {:induction false} StepKeeps(s: State, a: Action, before: Time, now: Time)
    requires Invariant(s, before) && before <= now && Enabled(s, a)
    ensures Invariant(Apply(s, a, now), now)
  {
    if a.Record? {
      RecordKeeps(s, before, now);
    } else if a.Backoff? {
      BackoffKeeps(s, before, now);
    } else if a.Clear? || a.ClearAgain? {
      ClearKeeps(s, a, before, now);
    } else if a.Test? || a.NoCheck? || a.CheckReturns? || a.Lock? || a.Confirm? || a.Timer? {
      MonitorKeeps(s, a, before, now);
    } else {
      SupervisorKeeps(s, a, before, now);
    }
  }

  // ---------------------------------------------------------------- runs

  datatype Event = Event(action: Action, now: Time)

  /** The state after a run, if every step of it was enabled. */
  function After(run: seq<Event>): Option<State> {
    if run == [] then Some(START)
    else
      var last := run[|run| - 1];
      match After(run[..|run| - 1])
      case None => None
      case Some(s) => if Enabled(s, last.action) then Some(Apply(s, last.action, last.now)) else None
  }

  predicate ClockRuns(run: seq<Event>) { forall i, j :: 0 <= i < j < |run| ==> run[i].now <= run[j].now }

  lemma {:induction false} RunKeeps(run: seq<Event>, now: Time)
    requires ClockRuns(run) && After(run).Some? && forall i :: 0 <= i < |run| ==> run[i].now <= now
    ensures Invariant(After(run).value, now)
  {
    if run != [] {
      var init, last := run[..|run| - 1], run[|run| - 1];
      RunKeeps(init, last.now);
      StepKeeps(After(init).value, last.action, last.now, last.now);
    }
  }

  /**
   In every interleaving a ready snapshot rests on a ready observation less than ten
   seconds old, made by the monitor of the current attempt, whose end has not been
   followed by its clear.
   */
  lemma {:induction false} ReadyIsCurrent(run: seq<Event>, now: Time)
    requires ClockRuns(run) && After(run).Some? && forall i :: 0 <= i < |run| ==> run[i].now <= now
    requires Ready(Snapshot(After(run).value.health, now))
    ensures var s := After(run).value;
            && Attempting(s) && s.owner == s.attempt && s.log != []
            && var last := s.log[|s.log| - 1]; Ready(last.observation) && 0 <= now - last.time < STALE
  {
    RunKeeps(run, now);
  }

  /** Once an attempt's end is cleared nothing shows as ready until the next attempt observes it. */
  lemma {:induction false} ClearedShowsNothing(run: seq<Event>, now: Time)
    requires ClockRuns(run) && After(run).Some? && forall i :: 0 <= i < |run| ==> run[i].now <= now
    requires !Attempting(After(run).value)
    ensures After(run).value.health == CLEARED && Snapshot(After(run).value.health, now) == UNKNOWN
  {
    RunKeeps(run, now);
  }

  /** Every restart waits between one second and five minutes. */
  lemma {:induction false} DelaysAreBounded(run: seq<Event>, now: Time)
    requires ClockRuns(run) && After(run).Some? && forall i :: 0 <= i < |run| ==> run[i].now <= now
    ensures DelaysOk(After(run).value.delays)
  {
    RunKeeps(run, now);
  }

  /**
   The retry counter falls only when an observation of the current attempt completes a
   minute of unbroken ready observations.
   */
  lemma {:induction false} ResetIsEarned(run: seq<Event>, a: Action, now: Time)
    requires ClockRuns(run) && After(run).Some? && forall i :: 0 <= i < |run| ==> run[i].now <= now
    requires Enabled(After(run).value, a) && Apply(After(run).value, a, now).retries < After(run).value.retries
    ensures var s' := Apply(After(run).value, a, now);
            var r := Streak(s'.log);
            && a.Record? && Attempting(s') && s'.owner == s'.attempt
            && r != [] && r[|r| - 1] == now && now - r[0] >= HEALTHY
  {
    RunKeeps(run, now);
    var s := After(run).value;
    if a.Record? {
      ResetMeansAMinuteReady(s.log, now, s.monitor.o);
    }
  }

  // ---------------------------------------------------------------- the code

  class BackoffCounter {
    var retries: nat

    constructor ()
      ensures retries == 0
    {
      retries := 0;
    }

    method Reset()
      modifies this
      ensures retries == 0
    {
      retries := 0;
    }

    /** The next delay in seconds. */
    method Next() returns (delay: nat)
      modifies this
      ensures retries == NextRetries(old(retries)) && delay == Delay(retries)
    {
      if retries < MAX_RETRIES {
        retries := retries + 1;
      }
      var base := 1;
      for i := 0 to retries - 1
        invariant base == Power2(i)
      {
        base := 2 * base;
      }
      if base > MAX_DELAY {
        base := MAX_DELAY;
      }
      return base;
    }
  }

  class RelayHealth {
    var observation: Observation
    var checked: Option<Time>
    var healthySince: Option<Time>

    ghost function State(): Health
      reads this
    {
      Health(observation, checked, healthySince)
    }

    constructor ()
      ensures State() == CLEARED
    {
      observation, checked, healthySince := UNKNOWN, None, None;
    }

    /** Clears what an attempt left behind. */
    method ClearAll()
      modifies this
      ensures State() == CLEARED && forall now :: Snapshot(State(), now) == UNKNOWN
    {
      observation := UNKNOWN;
      checked, healthySince := None, None;
    }

    /** The end of an attempt: nothing of it shows any more, and the next one waits its turn in the backoff. */
    method EndAttempt(backoff: BackoffCounter) returns (delay: nat)
      modifies this, backoff
      ensures State() == CLEARED && forall now :: Snapshot(State(), now) == UNKNOWN
      ensures backoff.retries == NextRetries(old(backoff.retries)) && delay == Delay(backoff.retries)
      ensures 1 <= delay <= MAX_DELAY
    {
      ClearAll();
      DelayBounds(backoff.retries);
      delay := backoff.Next();
    }

    /** Records an observation of a record that was cleared before its first one. */
    method ObserveLocked(now: Time, o: Observation, backoff: BackoffCounter)
      requires checked.None? ==> healthySince.None?
      modifies this, backoff
      ensures State() == Observe(old(State()), now, o)
      ensures backoff.retries == if Resets(old(State()), now, o) then 0 else old(backoff.retries)
    {
      if !Ready(o) {
        healthySince := None;
      } else {
        if healthySince.None? || now - checked.value >= STALE {
          healthySince := Some(now);
        }
        if now - healthySince.value >= HEALTHY {
          backoff.Reset();
        }
      }
      observation, checked := o, Some(now);
    }

    method Report(now: Time) returns (o: Observation, ready: bool)
      ensures o == Snapshot(State(), now) && ready == Ready(o)
    {
      if checked.None? || now - checked.value >= STALE {
        return UNKNOWN, false;
      }
      return observation, Ready(observation);
    }
  }
}
