/**
 What the lifecycle job of telemetry-receiver/store.go promises over whole runs: days
 are finalised in order and once, a repeated pass changes nothing, and no activity
 record expires before it was counted as lapsed.
 */
module StoreLifecycle {
  import opened Wrappers
  import opened StoreTables
  import opened StoreIngest
  import opened StoreRuns

  // ---------------------------------------------------------------- a second pass

  lemma {:induction false} NothingLeftPending(through: Option<Day>, now: Time)
    ensures PendingDays(Advance(through, PendingDays(through, now)), now) == []
  {
  }

  lemma {:induction false} ExpireTwice(activity: map<Name, Activity>, expiry: int, today: Day)
    ensures Expire(Expire(activity, expiry, today), expiry, today) == Expire(activity, expiry, today)
  {
  }

  lemma {:induction false} SinceTwice<S, M>(t: Table<S, M>, cutoff: Day)
    ensures Since(Since(t, cutoff), cutoff) == Since(t, cutoff)
  {
  }

  lemma {:induction false} RetainPlainTwice(p: Plain, cutoff: Day)
    ensures RetainPlain(RetainPlain(p, cutoff), cutoff) == RetainPlain(p, cutoff)
  {
    SinceTwice(p.version, cutoff);
    SinceTwice(p.fleet, cutoff);
  }

  lemma {:induction false} RetainInstallsTwice(p: Installs, cutoff: Day)
    ensures RetainInstalls(RetainInstalls(p, cutoff), cutoff) == RetainInstalls(p, cutoff)
  {
    SinceTwice(p.dim, cutoff);
    SinceTwice(p.onVersion, cutoff);
    SinceTwice(p.change, cutoff);
  }

  lemma {:induction false} KeepPlainTwice(cfg: Config, p: Plain, today: Day)
    ensures KeepPlain(cfg, KeepPlain(cfg, p, today), today) == KeepPlain(cfg, p, today)
  {
    RetainPlainTwice(p, today - cfg.retention);
  }

  lemma {:induction false} KeepInstallsTwice(cfg: Config, i: Installs, today: Day)
    ensures KeepInstalls(cfg, KeepInstalls(cfg, i, today), today) == KeepInstalls(cfg, i, today)
  {
    RetainInstallsTwice(i, today - cfg.retention);
  }

  lemma {:induction false} NothingToFinalise(s: Tables, now: Time)
    requires PendingDays(s.through, now) == []
    ensures Finalise(s, now) == s.installs && Advance(s.through, PendingDays(s.through, now)) == s.through
  {
  }

  /** A second pass at the same time changes nothing, whatever the store. */
  lemma {:induction false} SecondPassChangesNothing(cfg: Config, s: Tables, now: Time)
    ensures Lifecycle(cfg, Lifecycle(cfg, s, now), now) == Lifecycle(cfg, s, now)
  {
    var s1 := Lifecycle(cfg, s, now);
    NothingLeftPending(s.through, now);
    NothingToFinalise(s1, now);
    ExpireTwice(s.activity, cfg.expiry, DayOf(now));
    KeepPlainTwice(cfg, s.plain, DayOf(now));
    KeepInstallsTwice(cfg, Finalise(s, now), DayOf(now));
  }

  // ---------------------------------------------------------------- finalised days

  /** The day of the last pass of a run. */
  function LastPass(run: seq<Event>): Option<Day> {
    if run == [] then None
    else if run[|run| - 1].Pass? then Some(DayOf(run[|run| - 1].now))
    else LastPass(run[..|run| - 1])
  }

  function FirstPass(run: seq<Event>): Option<Day> {
    if run == [] then None
    else
      var before := FirstPass(run[..|run| - 1]);
      if before.None? && run[|run| - 1].Pass? then Some(DayOf(run[|run| - 1].now)) else before
  }

  /** Every pass comes at most 400 days after the one before it. */
  predicate GapsOk(run: seq<Event>) {
    run == [] || (
      var init, last := run[..|run| - 1], run[|run| - 1];
      GapsOk(init) && (last.Pass? && LastPass(init).Some? ==> DayOf(last.now) - LastPass(init).value <= 400))
  }

  /** The days a run finalised, in the order it did. */
  function Finalised(cfg: Config, run: seq<Event>): seq<Day> {
    if run == [] then []
    else
      var init, last := run[..|run| - 1], run[|run| - 1];
      Finalised(cfg, init) + if last.Pass? then PendingDays(After(cfg, init).through, last.now) else []
  }

  predicate Consecutive(days: seq<Day>) { forall i :: 0 <= i < |days| - 1 ==> days[i + 1] == days[i] + 1 }

  lemma {:induction false} StepThrough(cfg: Config, s: Tables, ev: Event)
    requires !ev.Pass?
    ensures Step(cfg, s, ev).through == s.through
  {
    if ev.SignedReport? {
      RefusedExactly(cfg, s, ev.now, ev.signed, ev.report, ev.ext);
      if !OutcomeIn(cfg, s, ev).Refused? {
        AcceptedIsRemembered(cfg, s, ev.now, ev.signed, ev.report, ev.ext);
      }
    }
  }

  lemma {:induction false} LastPassIsPast(run: seq<Event>, now: Time)
    requires LastPass(run).Some? && forall i :: 0 <= i < |run| ==> run[i].now <= now
    ensures LastPass(run).value <= DayOf(now)
  {
    var last := run[|run| - 1];
    if last.Pass? {
      DaysRun(last.now, now);
    } else {
      LastPassIsPast(run[..|run| - 1], now);
    }
  }

  function Before(day: Option<Day>): Option<Day> { if day.None? then None else Some(day.value - 1) }

  /** The marker is always the day before the last pass. */
  lemma {:induction false} MarkerFollowsPasses(cfg: Config, run: seq<Event>)
    requires ClockRuns(run)
    ensures After(cfg, run).through == Before(LastPass(run))
  {
    if run != [] {
      var init, last := run[..|run| - 1], run[|run| - 1];
      MarkerFollowsPasses(cfg, init);
      if last.Pass? {
        if LastPass(init).Some? {
          LastPassIsPast(init, last.now);
        }
        assert After(cfg, run).through == Advance(Before(LastPass(init)), PendingDays(Before(LastPass(init)), last.now));
      } else {
        StepThrough(cfg, After(cfg, init), last);
      }
    }
  }

  /** What a pass finalises, by the day of the pass before it. */
  lemma {:induction false} PassFinalises(cfg: Config, run: seq<Event>)
    requires ClockRuns(run) && run != [] && run[|run| - 1].Pass?
    ensures var init, day := run[..|run| - 1], DayOf(run[|run| - 1].now);
            && PendingDays(After(cfg, init).through, run[|run| - 1].now)
               == Range(if LastPass(init).None? then day - 1 else Max(LastPass(init).value, day - MAX_CATCHUP), day - 1)
            && (LastPass(init).Some? ==> LastPass(init).value <= day)
  {
    var init := run[..|run| - 1];
    MarkerFollowsPasses(cfg, init);
    if LastPass(init).Some? {
      LastPassIsPast(init, run[|run| - 1].now);
    }
  }

  /** Something was finalised exactly when a pass ran, and the last finalised day is the day before the last pass. */
  lemma {:induction false} FinalisedEnds(cfg: Config, run: seq<Event>)
    requires ClockRuns(run)
    ensures var f := Finalised(cfg, run);
            if LastPass(run).None? then f == [] && FirstPass(run).None?
            else f != [] && f[|f| - 1] == LastPass(run).value - 1
                 && FirstPass(run).Some? && f[0] == FirstPass(run).value - 1
  {
    if run != [] {
      FinalisedEnds(cfg, run[..|run| - 1]);
      if run[|run| - 1].Pass? {
        PassFinalises(cfg, run);
      }
    }
  }

  lemma {:induction false} ConsecutiveAppend(a: seq<Day>, b: seq<Day>)
    requires a != [] && Consecutive(b)
    ensures Consecutive(a + b) <==> Consecutive(a) && (b == [] || b[0] == a[|a| - 1] + 1)
  {
    var c := a + b;
    if Consecutive(c) {
      forall i | 0 <= i < |a| - 1
        ensures a[i + 1] == a[i] + 1
      {
        assert c[i + 1] == c[i] + 1;
      }
      assert b != [] ==> c[|a| - 1 + 1] == c[|a| - 1] + 1;
    }
    if Consecutive(a) && (b == [] || b[0] == a[|a| - 1] + 1) {
      forall i | 0 <= i < |c| - 1
        ensures c[i + 1] == c[i] + 1
      {
        if i >= |a| {
          assert b[i - |a| + 1] == b[i - |a|] + 1;
        }
      }
    }
  }

  /** The finalised days are consecutive, with no gap or repeat, exactly when no two passes are over 400 days apart. */
  lemma {:induction false} FinalisedConsecutively(cfg: Config, run: seq<Event>)
    requires ClockRuns(run)
    ensures Consecutive(Finalised(cfg, run)) <==> GapsOk(run)
  {
    if run != [] {
      var init, last := run[..|run| - 1], run[|run| - 1];
      FinalisedConsecutively(cfg, init);
      FinalisedEnds(cfg, init);
      if last.Pass? {
        PassFinalises(cfg, run);
        var pending := PendingDays(After(cfg, init).through, last.now);
        if LastPass(init).Some? {
          ConsecutiveAppend(Finalised(cfg, init), pending);
        } else {
          assert Finalised(cfg, run) == pending;
        }
      } else {
        assert Finalised(cfg, run) == Finalised(cfg, init);
      }
    }
  }

  lemma {:induction false} ConsecutiveAt(days: seq<Day>, i: nat)
    requires Consecutive(days) && i < |days|
    ensures days[i] == days[0] + i
  {
    if i > 0 {
      ConsecutiveAt(days, i - 1);
      assert days[i - 1 + 1] == days[i - 1] + 1;
    }
  }

  /** Then every day from the one before the first pass to the one before the last is finalised. */
  lemma {:induction false} FinalisedCovers(cfg: Config, run: seq<Event>, d: Day)
    requires ClockRuns(run) && GapsOk(run) && FirstPass(run).Some? && LastPass(run).Some?
    ensures d in Finalised(cfg, run) <==> FirstPass(run).value - 1 <= d <= LastPass(run).value - 1
  {
    var f := Finalised(cfg, run);
    FinalisedConsecutively(cfg, run);
    FinalisedEnds(cfg, run);
    ConsecutiveAt(f, |f| - 1);
    if d in f {
      var i :| 0 <= i < |f| && f[i] == d;
      ConsecutiveAt(f, i);
    }
    if FirstPass(run).value - 1 <= d <= LastPass(run).value - 1 {
      ConsecutiveAt(f, d - f[0]);
    }
  }

  // ---------------------------------------------------------------- lapsed before expired

  /** Pass `q` counts the install as lapsed on `day`. */
  predicate CountsLapsed(cfg: Config, run: seq<Event>, q: nat, id: Name, day: Day)
    requires q < |run|
  {
    var s := After(cfg, run[..q]);
    && run[q].Pass? && day in PendingDays(s.through, run[q].now)
    && SeenOn(s, id, day - LAPSED_WINDOW)
  }

  lemma {:induction false} FinalisedByPass(cfg: Config, run: seq<Event>, n: nat, d: Day) returns (q: nat)
    requires n <= |run| && d in Finalised(cfg, run[..n])
    ensures q < n && run[q].Pass? && d in PendingDays(After(cfg, run[..q]).through, run[q].now)
  {
    assert run[..n][..n - 1] == run[..n - 1];
    if d in Finalised(cfg, run[..n - 1]) {
      q := FinalisedByPass(cfg, run, n - 1, d);
    } else {
      q := n - 1;
    }
  }

  predicate SeenOn(s: Tables, id: Name, day: Day) { id in s.activity && s.activity[id].lastSeen == day }

  lemma {:induction false} RecordStood(cfg: Config, s: Tables, ev: Event, id: Name, seen: Day)
    requires SeenOn(Step(cfg, s, ev), id, seen) && seen < DayOf(ev.now)
    ensures SeenOn(s, id, seen)
  {
    RecordStep(cfg, s, ev, id);
  }

  /** A record last seen before event `q` stands unchanged since `q`. */
  lemma {:induction false} RecordStoodAt(cfg: Config, run: seq<Event>, q: nat, p: nat, id: Name, seen: Day, past: Tables, now: Tables)
    requires ClockRuns(run) && q <= p < |run| && seen < DayOf(run[q].now)
    requires past == After(cfg, run[..q]) && now == After(cfg, run[..p]) && SeenOn(now, id, seen)
    ensures SeenOn(past, id, seen)
    decreases p
  {
    if q < p {
      var before := After(cfg, run[..p - 1]);
      DaysRun(run[q].now, run[p - 1].now);
      RecordStoodOnce(cfg, run, p - 1, id, seen, before, now);
      RecordStoodAt(cfg, run, q, p - 1, id, seen, past, before);
    }
  }

  lemma {:induction false} RecordStoodOnce(cfg: Config, run: seq<Event>, n: nat, id: Name, seen: Day, past: Tables, now: Tables)
    requires n < |run| && seen < DayOf(run[n].now)
    requires past == After(cfg, run[..n]) && now == After(cfg, run[..n + 1]) && SeenOn(now, id, seen)
    ensures SeenOn(past, id, seen)
  {
    AfterStep(cfg, run, n);
    RecordStood(cfg, past, run[n], id, seen);
  }

  lemma {:induction false} FirstPassOfPrefix(run: seq<Event>, n: nat)
    requires n <= |run| && FirstPass(run[..n]).Some?
    ensures FirstPass(run) == FirstPass(run[..n])
  {
    if n < |run| {
      assert run[..n] == run[..|run| - 1][..n];
      FirstPassOfPrefix(run[..|run| - 1], n);
    } else {
      assert run[..n] == run;
    }
  }

  lemma {:induction false} GapsOfPrefix(run: seq<Event>, n: nat)
    requires n <= |run| && GapsOk(run)
    ensures GapsOk(run[..n])
  {
    if n < |run| {
      assert run[..n] == run[..|run| - 1][..n];
      GapsOfPrefix(run[..|run| - 1], n);
    } else {
      assert run[..n] == run;
    }
  }

  /** Deleted by the pass at `p`. */
  predicate ExpiredAt(cfg: Config, run: seq<Event>, p: nat, id: Name)
    requires p < |run|
  {
    run[p].Pass? && id in After(cfg, run[..p]).activity && id !in After(cfg, run[..p + 1]).activity
  }

  lemma {:induction false} ExpiredIsOld(cfg: Config, run: seq<Event>, p: nat, id: Name)
    requires p < |run| && ExpiredAt(cfg, run, p, id)
    ensures cfg.expiry > 0 && After(cfg, run[..p]).activity[id].lastSeen < DayOf(run[p].now) - cfg.expiry
  {
    AfterStep(cfg, run, p);
    RecordStep(cfg, After(cfg, run[..p]), run[p], id);
  }

  lemma {:induction false} PassesUpTo(run: seq<Event>, p: nat)
    requires p < |run| && run[p].Pass?
    ensures LastPass(run[..p + 1]) == Some(DayOf(run[p].now)) && FirstPass(run[..p + 1]).Some?
  {
  }

  lemma {:induction false} PendingIsPast(through: Option<Day>, now: Time, d: Day)
    requires d in PendingDays(through, now)
    ensures d < DayOf(now)
  {
  }

  /** The install was last seen on `seen` when the pass at `p` deleted its record. */
  predicate ExpiredAfter(cfg: Config, run: seq<Event>, p: nat, id: Name, seen: Day)
    requires p < |run|
  {
    ExpiredAt(cfg, run, p, id) && SeenOn(After(cfg, run[..p]), id, seen)
  }

  /** An install counted as lapsed on a day the run had finalised; whoever counts a day finalises it. */
  lemma {:induction false} CountedIsFinalised(cfg: Config, run: seq<Event>, q: nat, n: nat, id: Name, day: Day)
    requires q < n <= |run| && CountsLapsed(cfg, run, q, id, day)
    ensures day in Finalised(cfg, run[..n])
  {
    assert run[..n][..n - 1] == run[..n - 1];
    if q < n - 1 {
      CountedIsFinalised(cfg, run, q, n - 1, id, day);
    }
  }

  lemma {:induction false} CountedWhenFinalised(cfg: Config, run: seq<Event>, q: nat, p: nat, id: Name, seen: Day, past: Tables, now: Tables)
    requires ClockRuns(run) && q <= p < |run| && run[q].Pass?
    requires past == After(cfg, run[..q]) && now == After(cfg, run[..p]) && SeenOn(now, id, seen)
    requires seen + LAPSED_WINDOW in PendingDays(past.through, run[q].now)
    ensures SeenOn(past, id, seen)
  {
    PendingIsPast(past.through, run[q].now, seen + LAPSED_WINDOW);
    RecordStoodAt(cfg, run, q, p, id, seen, past, now);
  }

  ghost predicate WasCounted(cfg: Config, run: seq<Event>, p: nat, id: Name, day: Day)
    requires p < |run|
  {
    exists q :: 0 <= q <= p && CountsLapsed(cfg, run, q, id, day)
  }

  /** Whatever the gaps and the expiry: the record was counted exactly when its lapsed day was finalised by then. */
  lemma {:induction false} CountedExactlyWhenFinalised(cfg: Config, run: seq<Event>, p: nat, id: Name, seen: Day)
    requires ClockRuns(run) && p < |run| && ExpiredAfter(cfg, run, p, id, seen)
    ensures WasCounted(cfg, run, p, id, seen + LAPSED_WINDOW) <==> seen + LAPSED_WINDOW in Finalised(cfg, run[..p + 1])
  {
    var day := seen + LAPSED_WINDOW;
    if WasCounted(cfg, run, p, id, day) {
      var q :| 0 <= q <= p && CountsLapsed(cfg, run, q, id, day);
      CountedIsFinalised(cfg, run, q, p + 1, id, day);
    }
    if day in Finalised(cfg, run[..p + 1]) {
      var q := FinalisedByPass(cfg, run, p + 1, day);
      CountedWhenFinalised(cfg, run, q, p, id, seen, After(cfg, run[..q]), After(cfg, run[..p]));
      assert CountsLapsed(cfg, run, q, id, day);
    }
  }

  lemma {:induction false} FinalisedUpTo(cfg: Config, run: seq<Event>, p: nat, d: Day)
    requires ClockRuns(run) && GapsOk(run) && p < |run| && run[p].Pass?
    ensures FirstPass(run).Some?
    ensures d in Finalised(cfg, run[..p + 1]) <==> FirstPass(run).value - 1 <= d < DayOf(run[p].now)
  {
    PassesUpTo(run, p);
    FirstPassOfPrefix(run, p + 1);
    GapsOfPrefix(run, p + 1);
    FinalisedCovers(cfg, run[..p + 1], d);
  }

  /**
   An activity record deleted by an expiry of at least 30 days (the receiver demands 31)
   was counted in lapsed_installs for the day 30 days after it was last seen, in that pass
   or an earlier one, exactly when the first pass of the run came no later than the day
   after that; passes at most 400 days apart.
   */
  lemma {:induction false} ExpiredWasLapsed(cfg: Config, run: seq<Event>, p: nat, id: Name, seen: Day)
    requires cfg.expiry >= 30 && ClockRuns(run) && GapsOk(run) && p < |run| && ExpiredAfter(cfg, run, p, id, seen)
    ensures FirstPass(run).Some?
    ensures WasCounted(cfg, run, p, id, seen + 30) <==> FirstPass(run).value <= seen + 31
  {
    ExpiredIsOld(cfg, run, p, id);
    FinalisedUpTo(cfg, run, p, seen + LAPSED_WINDOW);
    CountedExactlyWhenFinalised(cfg, run, p, id, seen);
  }

  /** An accepted first report, and the first pass only when its record has both lapsed and expired. */
  predicate LateRun(cfg: Config, run: seq<Event>, day: Day) {
    && |run| == 2 && ClockRuns(run) && run[0].SignedReport? && run[1].Pass?
    && DayOf(run[0].now) == day && run[0].signed && InWindow(run[0].now, run[0].ext.sentAt)
    && day + LAPSED_WINDOW + 1 < DayOf(run[1].now) && day + cfg.expiry < DayOf(run[1].now)
  }

  /** The condition is needed: when passes fail for a month, the first one deletes a record nobody counted. */
  lemma {:induction false} LateFirstPassLosesLapsed(cfg: Config, run: seq<Event>, day: Day)
    requires cfg.expiry >= 30 && LateRun(cfg, run, day)
    ensures GapsOk(run) && ExpiredAfter(cfg, run, 1, run[0].ext.id, day)
    ensures !WasCounted(cfg, run, 1, run[0].ext.id, day + LAPSED_WINDOW)
  {
    var one := run[..1];
    PassesGrow([], one);
    PassesGrow(one, run);
    LateRunExpires(cfg, run, day);
    ExpiredWasLapsed(cfg, run, 1, run[0].ext.id, day);
  }

  lemma {:induction false} LateRunExpires(cfg: Config, run: seq<Event>, day: Day)
    requires cfg.expiry >= 30 && LateRun(cfg, run, day)
    ensures ExpiredAfter(cfg, run, 1, run[0].ext.id, day)
  {
    assert run[..0] == [];
    AfterStep(cfg, run, 0);
    AfterStep(cfg, run, 1);
    SeenThenExpired(cfg, EMPTY, run[0], run[1].now);
  }

  // ---------------------------------------------------------------- what a pass stores

  /** A day that no pass has finalised yet has no lapsed installs. */
  ghost predicate NoneLapsedYet(s: Tables) {
    forall d :: (s.through.None? || d > s.through.value) ==> ExtOf(s.installs, d).lapsed == 0
  }

  lemma {:induction false} ReportKeepsLapsed(cfg: Config, s: Tables, ev: Event, d: Day)
    requires !ev.Pass?
    ensures ExtOf(Step(cfg, s, ev).installs, d).lapsed == ExtOf(s.installs, d).lapsed
  {
  }

  lemma {:induction false} OnlyPendingLapse(ext: map<Day, Ext>, activity: map<Name, Activity>, days: seq<Day>, p: Installs, d: Day)
    requires d !in days
    ensures ExtOf(p.(ext := RecordAllLapsed(ext, activity, days)), d).lapsed == ExtOf(p.(ext := ext), d).lapsed
  {
    if days != [] {
      var last := |days| - 1;
      assert days == days[..last] + [days[last]];
      OnlyPendingLapse(ext, activity, days[..last], p, d);
    }
  }

  lemma {:induction false} PassKeepsUnlapsed(cfg: Config, s: Tables, now: Time, d: Day)
    requires NoneLapsedYet(s) && (Lifecycle(cfg, s, now).through.None? || d > Lifecycle(cfg, s, now).through.value)
    ensures ExtOf(Lifecycle(cfg, s, now).installs, d).lapsed == 0
  {
    UnlapsedWhenFinalised(s, now, d);
    SweepAddsNoLapse(cfg, Finalise(s, now), DayOf(now), d);
  }

  lemma {:induction false} UnlapsedWhenFinalised(s: Tables, now: Time, d: Day)
    requires NoneLapsedYet(s)
    requires var through := Advance(s.through, PendingDays(s.through, now)); through.None? || d > through.value
    ensures ExtOf(Finalise(s, now), d).lapsed == 0
  {
    OnlyPendingLapse(s.installs.ext, s.activity, PendingDays(s.through, now), s.installs, d);
    assert s.installs.(ext := s.installs.ext) == s.installs;
  }

  lemma {:induction false} SweepAddsNoLapse(cfg: Config, i: Installs, today: Day, d: Day)
    ensures ExtOf(KeepInstalls(cfg, i, today), d).lapsed <= ExtOf(i, d).lapsed
  {
  }

  lemma {:induction false} RunNoneLapsedYet(cfg: Config, run: seq<Event>)
    ensures NoneLapsedYet(After(cfg, run))
  {
    if run != [] {
      var init, last := run[..|run| - 1], run[|run| - 1];
      RunNoneLapsedYet(cfg, init);
      StepNoneLapsedYet(cfg, After(cfg, init), last);
    }
  }

  lemma {:induction false} StepNoneLapsedYet(cfg: Config, s: Tables, ev: Event)
    requires NoneLapsedYet(s)
    ensures NoneLapsedYet(Step(cfg, s, ev))
  {
    var s' := Step(cfg, s, ev);
    forall d | s'.through.None? || d > s'.through.value
      ensures ExtOf(s'.installs, d).lapsed == 0
    {
      if ev.Pass? {
        PassKeepsUnlapsed(cfg, s, ev.now, d);
      } else {
        StepThrough(cfg, s, ev);
        ReportKeepsLapsed(cfg, s, ev, d);
      }
    }
  }

  /**
   On every run a pass stores, for each day it finalises, the number of installs last seen
   30 days before it, 0 included, and the number stands until a pass sweeps the day.
   */
  lemma {:induction false} LapsedIsStored(cfg: Config, run: seq<Event>, q: nat, n: nat, day: Day)
    requires q < n <= |run| && run[q].Pass? && day in PendingDays(After(cfg, run[..q]).through, run[q].now)
    requires forall k :: q <= k < n ==> !Sweeps(cfg, run[k], day)
    ensures var activity := After(cfg, run[..q]).activity;
            ExtOf(After(cfg, run[..n]).installs, day).lapsed == |set id | id in activity && activity[id].lastSeen == day - 30|
  {
    AfterStep(cfg, run, q);
    RunNoneLapsedYet(cfg, run[..q]);
    PassStores(cfg, After(cfg, run[..q]), run[q].now, day);
    LapsedStands(cfg, run, q + 1, n, day, After(cfg, run[..q + 1]), After(cfg, run[..n]));
  }

  /** The day is finalised. */
  predicate Done(s: Tables, day: Day) { s.through.Some? && day <= s.through.value }

  /** A finalised day keeps its lapsed count through every event that does not sweep it. */
  lemma {:induction false} StepKeepsLapsed(cfg: Config, s: Tables, ev: Event, day: Day)
    requires Done(s, day) && !Sweeps(cfg, ev, day)
    ensures Done(Step(cfg, s, ev), day)
    ensures ExtOf(Step(cfg, s, ev).installs, day).lapsed == ExtOf(s.installs, day).lapsed
  {
    if ev.Pass? {
      OnlyPendingLapse(s.installs.ext, s.activity, PendingDays(s.through, ev.now), s.installs, day);
      assert s.installs.(ext := s.installs.ext) == s.installs;
      UnsweptStays(cfg, Finalise(s, ev.now), ev.now, day);
    } else {
      StepThrough(cfg, s, ev);
      ReportKeepsLapsed(cfg, s, ev, day);
    }
  }

  lemma {:induction false} LapsedStands(cfg: Config, run: seq<Event>, m: nat, n: nat, day: Day, first: Tables, s: Tables)
    requires m <= n <= |run| && first == After(cfg, run[..m]) && s == After(cfg, run[..n]) && Done(first, day)
    requires forall k :: m <= k < n ==> !Sweeps(cfg, run[k], day)
    ensures Done(s, day) && ExtOf(s.installs, day).lapsed == ExtOf(first.installs, day).lapsed
    decreases n
  {
    if m < n {
      var before := After(cfg, run[..n - 1]);
      LapsedStands(cfg, run, m, n - 1, day, first, before);
      AfterStep(cfg, run, n - 1);
      StepKeepsLapsed(cfg, before, run[n - 1], day);
    }
  }

  lemma {:induction false} PassStores(cfg: Config, s: Tables, now: Time, day: Day)
    requires NoneLapsedYet(s) && day in PendingDays(s.through, now) && !Sweeps(cfg, Pass(now), day)
    ensures ExtOf(Lifecycle(cfg, s, now).installs, day).lapsed == |LastSeenOn(s.activity, day - LAPSED_WINDOW)|
    ensures Done(Lifecycle(cfg, s, now), day)
  {
    FinaliseStores(s, now, day);
    UnsweptStays(cfg, Finalise(s, now), now, day);
  }

  lemma {:induction false} FinaliseStores(s: Tables, now: Time, day: Day)
    requires NoneLapsedYet(s) && day in PendingDays(s.through, now)
    ensures ExtOf(Finalise(s, now), day).lapsed == |LastSeenOn(s.activity, day - LAPSED_WINDOW)|
  {
    assert s.installs.(ext := s.installs.ext) == s.installs;
    PendingIsUnlapsed(s, now, day);
    LapsedRow(s.installs.ext, s.activity, PendingDays(s.through, now), s.installs, day);
  }

  lemma {:induction false} PendingIsUnlapsed(s: Tables, now: Time, day: Day)
    requires NoneLapsedYet(s) && day in PendingDays(s.through, now)
    ensures ExtOf(s.installs, day).lapsed == 0
  {
  }

  lemma {:induction false} UnsweptStays(cfg: Config, i: Installs, now: Time, day: Day)
    requires !Sweeps(cfg, Pass(now), day)
    ensures ExtOf(KeepInstalls(cfg, i, DayOf(now)), day) == ExtOf(i, day)
  {
  }

  lemma {:induction false} LapsedRow(ext: map<Day, Ext>, activity: map<Name, Activity>, days: seq<Day>, p: Installs, day: Day)
    requires day in days && ExtOf(p.(ext := ext), day).lapsed == 0
    ensures ExtOf(p.(ext := RecordAllLapsed(ext, activity, days)), day).lapsed == |LastSeenOn(activity, day - LAPSED_WINDOW)|
  {
    var last := |days| - 1;
    assert days == days[..last] + [days[last]];
    if day in days[..last] {
      LapsedRow(ext, activity, days[..last], p, day);
    } else {
      OnlyPendingLapse(ext, activity, days[..last], p, day);
    }
  }

  /** A pass and an accepted first report on one day, and the next pass 30 days later. */
  predicate EarlyRun(run: seq<Event>, day: Day) {
    && |run| == 3 && ClockRuns(run) && run[0].Pass? && run[1].SignedReport? && run[2].Pass?
    && DayOf(run[0].now) == day && DayOf(run[1].now) == day && DayOf(run[2].now) == day + LAPSED_WINDOW
    && run[1].signed && InWindow(run[1].now, run[1].ext.sentAt)
  }

  /** With any expiry under 30 days a record is deleted before it could be counted as lapsed. */
  lemma {:induction false} ShorterExpiryLosesLapsed(cfg: Config, run: seq<Event>, day: Day)
    requires 1 <= cfg.expiry <= 29 && EarlyRun(run, day)
    ensures GapsOk(run) && ExpiredAfter(cfg, run, 2, run[1].ext.id, day)
    ensures FirstPass(run).Some? && FirstPass(run).value <= day && !WasCounted(cfg, run, 2, run[1].ext.id, day + LAPSED_WINDOW)
  {
    EarlyRunGaps(run, day);
    EarlyRunExpires(cfg, run, day);
    FinalisedUpTo(cfg, run, 2, day + LAPSED_WINDOW);
    CountedExactlyWhenFinalised(cfg, run, 2, run[1].ext.id, day);
  }

  lemma {:induction false} EarlyRunExpires(cfg: Config, run: seq<Event>, day: Day)
    requires 1 <= cfg.expiry <= 29 && EarlyRun(run, day)
    ensures ExpiredAfter(cfg, run, 2, run[1].ext.id, day)
  {
    ThreeSteps(cfg, run);
    SeenThenExpired(cfg, Step(cfg, EMPTY, run[0]), run[1], run[2].now);
  }

  lemma {:induction false} ThreeSteps(cfg: Config, run: seq<Event>)
    requires |run| == 3
    ensures After(cfg, run[..2]) == Step(cfg, Step(cfg, EMPTY, run[0]), run[1])
    ensures After(cfg, run[..3]) == Step(cfg, After(cfg, run[..2]), run[2])
  {
    assert run[..0] == [];
    AfterStep(cfg, run, 0);
    AfterStep(cfg, run, 1);
    AfterStep(cfg, run, 2);
  }

  lemma {:induction false} SeenThenExpired(cfg: Config, s: Tables, ev: Event, later: Time)
    requires s.activity == map[] && cfg.expiry > 0 && ev.SignedReport? && ev.signed && InWindow(ev.now, ev.ext.sentAt)
    requires DayOf(ev.now) + cfg.expiry < DayOf(later)
    ensures SeenOn(Step(cfg, s, ev), ev.ext.id, DayOf(ev.now))
    ensures ev.ext.id !in Step(cfg, Step(cfg, s, ev), Pass(later)).activity
  {
    AcceptedWhenUnknown(cfg, s, ev);
    RecordStep(cfg, s, ev, ev.ext.id);
    ForgottenByPass(cfg, Step(cfg, s, ev), ev.ext.id, later);
  }

  lemma {:induction false} EarlyRunGaps(run: seq<Event>, day: Day)
    requires EarlyRun(run, day)
    ensures GapsOk(run) && FirstPass(run).Some? && FirstPass(run).value == day
  {
    var one, two := run[..1], run[..2];
    PassesGrow([], one);
    PassesGrow(one, two);
    PassesGrow(two, run);
  }

  lemma {:induction false} PassesGrow(init: seq<Event>, run: seq<Event>)
    requires |run| == |init| + 1 && run[..|init|] == init
    ensures var last := run[|init|];
            && LastPass(run) == (if last.Pass? then Some(DayOf(last.now)) else LastPass(init))
            && FirstPass(run) == (if FirstPass(init).None? && last.Pass? then Some(DayOf(last.now)) else FirstPass(init))
            && (GapsOk(run) <==>
                GapsOk(init) && (last.Pass? && LastPass(init).Some? ==> DayOf(last.now) - LastPass(init).value <= MAX_CATCHUP))
  {
  }
}
