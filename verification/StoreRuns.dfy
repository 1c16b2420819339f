/**
 The lifecycle job of telemetry-receiver/store.go and whole runs of the store: any
 sequence of reports and lifecycle passes, each one transaction.
 */
module StoreRuns {
  import opened Wrappers
  import opened StoreTables
  import opened StoreIngest

  const MAX_CATCHUP: int := 400
  const LAPSED_WINDOW: int := 30

  // ---------------------------------------------------------------- the lifecycle pass

  function Max(a: int, b: int): int { if a >= b then a else b }

  /** The days from `first` to `last`, both included. */
  function Range(first: Day, last: Day): (r: seq<Day>)
    ensures |r| == if first > last then 0 else last - first + 1
    ensures forall i :: 0 <= i < |r| ==> r[i] == first + i
    decreases last - first
  {
    if first > last then [] else Range(first, last - 1) + [last]
  }

  function FirstPending(through: Option<Day>, now: Time): Day {
    if through.None? then DayOf(now) - 1 else Max(through.value + 1, DayOf(now) - MAX_CATCHUP)
  }

  /** The completed days after `through`, oldest first, at most the last 400 of them. */
  function PendingDays(through: Option<Day>, now: Time): seq<Day> { Range(FirstPending(through, now), DayOf(now) - 1) }

  function LastSeenOn(activity: map<Name, Activity>, day: Day): set<Name> {
    set id | id in activity && activity[id].lastSeen == day
  }

  function RecordLapsed(ext: map<Day, Ext>, activity: map<Name, Activity>, day: Day): map<Day, Ext> {
    var n := |LastSeenOn(activity, day - LAPSED_WINDOW)|;
    if n == 0 then ext
    else ext[day := (if day in ext then ext[day] else Ext(0, 0, 0, 0)).(lapsed := n)]
  }

  function RecordAllLapsed(ext: map<Day, Ext>, activity: map<Name, Activity>, days: seq<Day>): map<Day, Ext> {
    if days == [] then ext
    else RecordLapsed(RecordAllLapsed(ext, activity, days[..|days| - 1]), activity, days[|days| - 1])
  }

  /** The marker only moves forward. */
  function Advance(through: Option<Day>, days: seq<Day>): Option<Day> {
    if days == [] then through
    else if through.None? then Some(days[|days| - 1])
    else Some(Max(through.value, days[|days| - 1]))
  }

  function Expire(activity: map<Name, Activity>, expiry: int, today: Day): map<Name, Activity> {
    if expiry <= 0 then activity
    else map id | id in activity && activity[id].lastSeen >= today - expiry :: activity[id]
  }

  function RetainPlain(p: Plain, cutoff: Day): Plain {
    p.(basic := map d | d in p.basic && d >= cutoff :: p.basic[d],
       version := Since(p.version, cutoff), fleet := Since(p.fleet, cutoff))
  }

  function RetainInstalls(p: Installs, cutoff: Day): Installs {
    Installs(map d | d in p.ext && d >= cutoff :: p.ext[d], Since(p.dim, cutoff),
             map k | k in p.game && k.day >= cutoff :: p.game[k],
             Since(p.onVersion, cutoff), Since(p.change, cutoff))
  }

  /** A retention of zero or less keeps everything. */
  function KeepPlain(cfg: Config, p: Plain, today: Day): Plain {
    if cfg.retention <= 0 then p else RetainPlain(p, today - cfg.retention)
  }

  function KeepInstalls(cfg: Config, p: Installs, today: Day): Installs {
    if cfg.retention <= 0 then p else RetainInstalls(p, today - cfg.retention)
  }

  function Finalise(s: Tables, now: Time): Installs {
    s.installs.(ext := RecordAllLapsed(s.installs.ext, s.activity, PendingDays(s.through, now)))
  }

  /** One pass: finalise the pending days, expire old activity records, sweep old rows. */
  function Lifecycle(cfg: Config, s: Tables, now: Time): Tables {
    var activity := Expire(s.activity, cfg.expiry, DayOf(now));
    var through := Advance(s.through, PendingDays(s.through, now));
    Tables(KeepPlain(cfg, s.plain, DayOf(now)), KeepInstalls(cfg, Finalise(s, now), DayOf(now)), activity, through)
  }

  // ---------------------------------------------------------------- runs

  /** One transaction, or a request that stored nothing (rate limited, failed or rolled back). */
  datatype Event =
    | BasicReport(now: Time, report: Report)
    | SignedReport(now: Time, signed: bool, report: Report, ext: Extended)
    | Pass(now: Time)
    | NoCommit(now: Time)

  function Step(cfg: Config, s: Tables, ev: Event): Tables {
    match ev
    case BasicReport(now, r) => s.(plain := WriteBasic(s.plain, DayOf(now), r))
    case SignedReport(now, signed, r, e) => IngestExtended(cfg, s, now, signed, r, e).0
    case Pass(now) => Lifecycle(cfg, s, now)
    case NoCommit(_) => s
  }

  /** The tables after a run; the last step is a function of its own, so that proofs open it only when they need it. */
  function After(cfg: Config, run: seq<Event>): Tables
    decreases |run|, 1
  {
    if run == [] then EMPTY else AfterLast(cfg, run)
  }

  function AfterLast(cfg: Config, run: seq<Event>): Tables
    requires run != []
    decreases |run|, 0
  {
    Step(cfg, After(cfg, run[..|run| - 1]), run[|run| - 1])
  }

  function OutcomeIn(cfg: Config, s: Tables, ev: Event): Outcome
    requires ev.SignedReport?
  {
    IngestExtended(cfg, s, ev.now, ev.signed, ev.report, ev.ext).1
  }

  predicate ClockRuns(run: seq<Event>) { forall i, j :: 0 <= i < j < |run| ==> run[i].now <= run[j].now }

  predicate ReportsOk(run: seq<Event>) { forall i :: 0 <= i < |run| && run[i].SignedReport? ==> ReportOk(run[i].ext) }

  lemma {:induction false} AfterStep(cfg: Config, run: seq<Event>, n: nat)
    requires n < |run|
    ensures After(cfg, run[..n + 1]) == Step(cfg, After(cfg, run[..n]), run[n])
  {
    assert run[..n + 1][..n] == run[..n];
  }

  // ---------------------------------------------------------------- conservation

  lemma {:induction false} LapsedKeeps(ext: map<Day, Ext>, activity: map<Name, Activity>, days: seq<Day>, p: Installs, d: Day)
    ensures var x := ExtOf(p.(ext := ext), d);
            var x' := ExtOf(p.(ext := RecordAllLapsed(ext, activity, days)), d);
            x' == x.(lapsed := x'.lapsed)
  {
    if days != [] {
      LapsedKeeps(ext, activity, days[..|days| - 1], p, d);
    }
  }

  lemma {:induction false} LapsedConserves(p: Installs, activity: map<Name, Activity>, days: seq<Day>, d: Day)
    requires ExtConserved(p, d)
    ensures var p' := p.(ext := RecordAllLapsed(p.ext, activity, days));
            ExtConserved(p', d) && ExtOf(p', d).reports == ExtOf(p, d).reports
  {
    LapsedKeeps(p.ext, activity, days, p, d);
    assert p.(ext := p.ext) == p;
  }

  lemma {:induction false} RetainPlainConserves(p: Plain, cutoff: Day, d: Day)
    requires BasicConserved(p, d)
    ensures BasicConserved(RetainPlain(p, cutoff), d)
    ensures BasicOf(RetainPlain(p, cutoff), d).reports == if d >= cutoff then BasicOf(p, d).reports else 0
  {
    SinceTotal(p.version, cutoff, d, Whole);
    SinceTotal(p.fleet, cutoff, d, Servers);
    SinceTotal(p.fleet, cutoff, d, Templates);
  }

  lemma {:induction false} RetainInstallsConserves(p: Installs, cutoff: Day, d: Day)
    requires ExtConserved(p, d)
    ensures ExtConserved(RetainInstalls(p, cutoff), d)
    ensures ExtOf(RetainInstalls(p, cutoff), d).reports == if d >= cutoff then ExtOf(p, d).reports else 0
  {
    SinceTotal(p.onVersion, cutoff, d, Whole);
    SinceTotal(p.change, cutoff, d, Whole);
    forall x | x in SINGLE
      ensures Total(Since(p.dim, cutoff), d, x) == if d >= cutoff then Total(p.dim, d, x) else 0
    {
      SinceTotal(p.dim, cutoff, d, x);
    }
  }

  function Sweeps(cfg: Config, ev: Event, d: Day): bool {
    ev.Pass? && cfg.retention > 0 && d < DayOf(ev.now) - cfg.retention
  }

  lemma {:induction false} PassConserves(cfg: Config, s: Tables, now: Time, d: Day)
    requires Conserved(s, d)
    ensures Conserved(Lifecycle(cfg, s, now), d)
    ensures ExtOf(Lifecycle(cfg, s, now).installs, d).reports
            == if Sweeps(cfg, Pass(now), d) then 0 else ExtOf(s.installs, d).reports
    ensures Lifecycle(cfg, s, now).plain.total == s.plain.total
  {
    var lapsed := Finalise(s, now);
    LapsedConserves(s.installs, s.activity, PendingDays(s.through, now), d);
    RetainPlainConserves(s.plain, DayOf(now) - cfg.retention, d);
    RetainInstallsConserves(lapsed, DayOf(now) - cfg.retention, d);
  }

  /** What one event adds to a day's extended reports. */
  function Adds(cfg: Config, s: Tables, ev: Event, d: Day): bool {
    ev.SignedReport? && Counted(OutcomeIn(cfg, s, ev)) && DayOf(ev.now) == d
  }

  lemma {:induction false} StepConserves(cfg: Config, s: Tables, ev: Event, d: Day)
    requires Conserved(s, d) && (ev.SignedReport? ==> ReportOk(ev.ext))
    ensures Conserved(Step(cfg, s, ev), d)
    ensures ExtOf(Step(cfg, s, ev).installs, d).reports
            == if Sweeps(cfg, ev, d) then 0 else ExtOf(s.installs, d).reports + One(Adds(cfg, s, ev, d))
  {
    match ev
    case BasicReport(now, r) => WriteBasicConserves(s.plain, DayOf(now), r, d);
    case SignedReport(now, signed, r, e) => IngestConserves(cfg, s, now, signed, r, e, d);
    case Pass(now) => PassConserves(cfg, s, now, d);
    case NoCommit(_) =>
  }

  /** On every run, every day's tables agree. */
  lemma {:induction false} Conservation(cfg: Config, run: seq<Event>, d: Day)
    requires ReportsOk(run)
    ensures Conserved(After(cfg, run), d)
  {
    if run != [] {
      Conservation(cfg, run[..|run| - 1], d);
      StepConserves(cfg, After(cfg, run[..|run| - 1]), run[|run| - 1], d);
    }
  }

  // ---------------------------------------------------------------- distinct installs

  /** The installs whose report was counted on a day. */
  function CountedOn(cfg: Config, run: seq<Event>, d: Day): set<Name> {
    if run == [] then {}
    else
      var init, last := run[..|run| - 1], run[|run| - 1];
      CountedOn(cfg, init, d) + if Adds(cfg, After(cfg, init), last, d) then {last.ext.id} else {}
  }

  predicate Swept(cfg: Config, run: seq<Event>, d: Day) { exists i :: 0 <= i < |run| && Sweeps(cfg, run[i], d) }

  /** Activity records change by the install's own accepted reports and by expiry only. */
  lemma {:induction false} RecordStep(cfg: Config, s: Tables, ev: Event, id: Name)
    ensures var s' := Step(cfg, s, ev);
            if ev.SignedReport? && ev.ext.id == id && !OutcomeIn(cfg, s, ev).Refused? then
              && id in s'.activity && s'.activity[id].lastSent == ev.ext.sentAt
              && s'.activity[id].lastSeen == LaterSeen(s, id, DayOf(ev.now))
            else
              && (id in s'.activity ==> id in s.activity && s'.activity[id] == s.activity[id])
              && (id in s.activity ==>
                    (id !in s'.activity <==> ev.Pass? && cfg.expiry > 0 && s.activity[id].lastSeen < DayOf(ev.now) - cfg.expiry))
  {
    if ev.SignedReport? {
      RefusedExactly(cfg, s, ev.now, ev.signed, ev.report, ev.ext);
      if !OutcomeIn(cfg, s, ev).Refused? {
        AcceptedIsRemembered(cfg, s, ev.now, ev.signed, ev.report, ev.ext);
      }
    }
  }

  /** An install counted on a day keeps its record for the rest of that day. */
  lemma {:induction false} SeenToday(cfg: Config, run: seq<Event>, d: Day, id: Name)
    requires ClockRuns(run) && id in CountedOn(cfg, run, d) && DayOf(run[|run| - 1].now) <= d
    ensures id in After(cfg, run).activity && After(cfg, run).activity[id].lastSeen >= d
  {
    var init, last := run[..|run| - 1], run[|run| - 1];
    RecordStep(cfg, After(cfg, init), last, id);
    if id in CountedOn(cfg, init, d) {
      assert init[|init| - 1].now <= last.now;
      DaysRun(init[|init| - 1].now, last.now);
      SeenToday(cfg, init, d, id);
    }
  }

  lemma {:induction false} DaysRun(a: Time, b: Time)
    requires a <= b
    ensures DayOf(a) <= DayOf(b)
  {
  }

  /** A report is not counted twice on a day. */
  lemma {:induction false} CountedOnce(cfg: Config, run: seq<Event>, d: Day)
    requires ClockRuns(run) && run != [] && Adds(cfg, After(cfg, run[..|run| - 1]), run[|run| - 1], d)
    ensures run[|run| - 1].ext.id !in CountedOn(cfg, run[..|run| - 1], d)
  {
    var init, last := run[..|run| - 1], run[|run| - 1];
    if last.ext.id in CountedOn(cfg, init, d) {
      DaysRun(init[|init| - 1].now, last.now);
      SeenToday(cfg, init, d, last.ext.id);
      assert false;
    }
  }

  lemma {:induction false} SweptSplits(cfg: Config, run: seq<Event>, d: Day)
    requires run != []
    ensures Swept(cfg, run, d) <==> Swept(cfg, run[..|run| - 1], d) || Sweeps(cfg, run[|run| - 1], d)
  {
    var init := run[..|run| - 1];
    if Swept(cfg, init, d) {
      var i :| 0 <= i < |init| && Sweeps(cfg, init[i], d);
      assert Sweeps(cfg, run[i], d);
    }
    if Swept(cfg, run, d) {
      var i :| 0 <= i < |run| && Sweeps(cfg, run[i], d);
      assert i < |init| ==> Sweeps(cfg, init[i], d);
    }
  }

  lemma {:induction false} SweptIsPast(cfg: Config, run: seq<Event>, d: Day, now: Time)
    requires Swept(cfg, run, d) && forall i :: 0 <= i < |run| ==> run[i].now <= now
    ensures d < DayOf(now)
  {
    var i :| 0 <= i < |run| && Sweeps(cfg, run[i], d);
    DaysRun(run[i].now, now);
  }

  /**
   A day's extended reports are the distinct installs counted on it, until retention
   sweeps the day and leaves none of its rows.
   */
  lemma {:induction false} ExtReportsAreDistinctInstalls(cfg: Config, run: seq<Event>, d: Day)
    requires ReportsOk(run) && ClockRuns(run)
    ensures ExtOf(After(cfg, run).installs, d).reports == if Swept(cfg, run, d) then 0 else |CountedOn(cfg, run, d)|
  {
    if run != [] {
      var init, last := run[..|run| - 1], run[|run| - 1];
      ExtReportsAreDistinctInstalls(cfg, init, d);
      Conservation(cfg, init, d);
      StepConserves(cfg, After(cfg, init), last, d);
      SweptSplits(cfg, run, d);
      if Adds(cfg, After(cfg, init), last, d) {
        CountedOnce(cfg, run, d);
        if Swept(cfg, init, d) {
          SweptIsPast(cfg, init, d, last.now);
        }
      }
    }
  }

  // ---------------------------------------------------------------- replay

  predicate Accepted(cfg: Config, run: seq<Event>, i: nat)
    requires i < |run|
  {
    run[i].SignedReport? && !OutcomeIn(cfg, After(cfg, run[..i]), run[i]).Refused?
  }

  lemma {:induction false} DayEnds(now: Time)
    ensures DayOf(now) * DAY <= now < (DayOf(now) + 1) * DAY
  {
  }

  /** A record last seen on `seen` cannot expire before `sent` has left the window. */
  predicate Sealed(cfg: Config, seen: Day, sent: Time) {
    cfg.expiry <= 0 || sent < (seen + cfg.expiry + 1) * DAY - WINDOW_PAST
  }

  /** Either a record seen on that day or later still bounds the send time, or the window has moved past it. */
  predicate Guarded(s: Tables, id: Name, sent: Time, seen: Day, now: Time) {
    || (id in s.activity && sent <= s.activity[id].lastSent && seen <= s.activity[id].lastSeen)
    || sent < now - WINDOW_PAST
  }

  lemma {:induction false} GuardedStep(cfg: Config, s: Tables, ev: Event, id: Name, sent: Time, seen: Day, before: Time)
    requires Sealed(cfg, seen, sent) && before <= ev.now && Guarded(s, id, sent, seen, before)
    ensures Guarded(Step(cfg, s, ev), id, sent, seen, ev.now)
    ensures ev.SignedReport? && ev.ext.id == id && !OutcomeIn(cfg, s, ev).Refused? ==> sent < ev.ext.sentAt
  {
    RecordStep(cfg, s, ev, id);
    if ev.SignedReport? && ev.ext.id == id {
      RefusedExactly(cfg, s, ev.now, ev.signed, ev.report, ev.ext);
    }
    DayEnds(ev.now);
  }

  lemma {:induction false} GuardedStart(cfg: Config, s: Tables, ev: Event)
    requires ev.SignedReport? && !OutcomeIn(cfg, s, ev).Refused?
    ensures Guarded(Step(cfg, s, ev), ev.ext.id, ev.ext.sentAt, DayOf(ev.now), ev.now)
  {
    RecordStep(cfg, s, ev, ev.ext.id);
  }

  lemma {:induction false} GuardedNext(cfg: Config, run: seq<Event>, n: nat, id: Name, sent: Time, seen: Day, s: Tables, next: Tables)
    requires Sealed(cfg, seen, sent) && ClockRuns(run) && 0 < n < |run|
    requires s == After(cfg, run[..n]) && next == After(cfg, run[..n + 1]) && Guarded(s, id, sent, seen, run[n - 1].now)
    ensures Guarded(next, id, sent, seen, run[n].now)
    ensures Accepted(cfg, run, n) && run[n].ext.id == id ==> sent < run[n].ext.sentAt
  {
    AfterStep(cfg, run, n);
    GuardedStep(cfg, s, run[n], id, sent, seen, run[n - 1].now);
  }

  lemma {:induction false} StaysGuarded(cfg: Config, run: seq<Event>, m: nat, n: nat, id: Name, sent: Time, seen: Day, first: Tables, s: Tables)
    requires Sealed(cfg, seen, sent) && ClockRuns(run) && 0 < m <= n <= |run|
    requires first == After(cfg, run[..m]) && s == After(cfg, run[..n]) && Guarded(first, id, sent, seen, run[m - 1].now)
    ensures Guarded(s, id, sent, seen, run[n - 1].now)
    decreases n
  {
    if m < n {
      var before := After(cfg, run[..n - 1]);
      StaysGuarded(cfg, run, m, n - 1, id, sent, seen, first, before);
      GuardedNext(cfg, run, n - 1, id, sent, seen, before, s);
    }
  }

  /** After a sealed report every accepted report of the install was sent later, through expiry and re-creation of its record. */
  lemma {:induction false} SealedIsNotReplayed(cfg: Config, run: seq<Event>, i: nat, j: nat)
    requires ClockRuns(run) && i < j < |run| && Accepted(cfg, run, i) && Accepted(cfg, run, j)
    requires run[i].ext.id == run[j].ext.id && Sealed(cfg, DayOf(run[i].now), run[i].ext.sentAt)
    ensures run[i].ext.sentAt < run[j].ext.sentAt
  {
    var id, sent, seen := run[i].ext.id, run[i].ext.sentAt, DayOf(run[i].now);
    AfterStep(cfg, run, i);
    GuardedStart(cfg, After(cfg, run[..i]), run[i]);
    var s := After(cfg, run[..j]);
    StaysGuarded(cfg, run, i + 1, j, id, sent, seen, After(cfg, run[..i + 1]), s);
    GuardedNext(cfg, run, j, id, sent, seen, s, After(cfg, run[..j + 1]));
  }

  lemma {:induction false} AcceptedIsInWindow(cfg: Config, run: seq<Event>, i: nat)
    requires i < |run| && Accepted(cfg, run, i)
    ensures run[i].signed && InWindow(run[i].now, run[i].ext.sentAt)
  {
    RefusedExactly(cfg, After(cfg, run[..i]), run[i].now, run[i].signed, run[i].report, run[i].ext);
  }

  /**
   The send times of one install's accepted reports strictly increase over the whole
   run, through expiry and re-creation of its record, when records are kept for two
   days or more (the receiver demands 31) or never expire.
   */
  lemma {:induction false} SendTimesIncrease(cfg: Config, run: seq<Event>, i: nat, j: nat)
    requires cfg.expiry <= 0 || cfg.expiry >= 2
    requires ClockRuns(run) && i < j < |run| && Accepted(cfg, run, i) && Accepted(cfg, run, j)
    requires run[i].ext.id == run[j].ext.id
    ensures run[i].ext.sentAt < run[j].ext.sentAt
  {
    AcceptedIsInWindow(cfg, run, i);
    DayEnds(run[i].now);
    SealedIsNotReplayed(cfg, run, i, j);
  }

  /** A continuation of the run in which a report of the last one's install, sent no later, is accepted. */
  predicate Replays(cfg: Config, run: seq<Event>, more: seq<Event>, j: nat) {
    && run != [] && run[|run| - 1].SignedReport? && ClockRuns(run + more) && |run| <= j < |run + more|
    && Accepted(cfg, run + more, j) && (run + more)[j].ext.id == run[|run| - 1].ext.id
    && (run + more)[j].ext.sentAt <= run[|run| - 1].ext.sentAt
  }

  /**
   An accepted report can be replayed exactly when records expire and it was sent in the
   36 hours before the first time its record can be deleted. With an expiry of one day those
   begin at noon of the day it was accepted on; with two days or more no report is in them.
   */
  lemma {:induction false} ReplayableExactly(cfg: Config, run: seq<Event>)
    requires run != [] && ClockRuns(run) && Accepted(cfg, run, |run| - 1)
    ensures var last := run[|run| - 1];
            (exists more: seq<Event>, j: nat :: Replays(cfg, run, more, j)) <==> !Sealed(cfg, DayOf(last.now), last.ext.sentAt)
  {
    var i := |run| - 1;
    var last := run[i];
    if Sealed(cfg, DayOf(last.now), last.ext.sentAt) {
      forall more: seq<Event>, j: nat | Replays(cfg, run, more, j)
        ensures false
      {
        assert (run + more)[..i] == run[..i] && (run + more)[i] == last;
        SealedIsNotReplayed(cfg, run + more, i, j);
      }
    } else {
      var t := ReplayTime(cfg, last.now);
      ReplayedAfterPass(cfg, run, last, t, [Pass(t), SignedReport(t, true, last.report, last.ext)]);
    }
  }

  /** The first time at which a pass deletes a record last seen at `now`. */
  function ReplayTime(cfg: Config, now: Time): Time { (DayOf(now) + cfg.expiry + 1) * DAY }

  lemma {:induction false} ReplayTimes(cfg: Config, now: Time, sent: Time, t: Time)
    requires cfg.expiry > 0 && t == ReplayTime(cfg, now) && InWindow(now, sent) && !Sealed(cfg, DayOf(now), sent)
    ensures now <= t && InWindow(t, sent) && DayOf(t) == DayOf(now) + cfg.expiry + 1
  {
    DayEnds(now);
  }

  /** A pass that deletes the record, and the same report again. */
  lemma {:induction false} ReplayedAfterPass(cfg: Config, run: seq<Event>, last: Event, t: Time, more: seq<Event>)
    requires run != [] && ClockRuns(run) && Accepted(cfg, run, |run| - 1) && last == run[|run| - 1] && t == ReplayTime(cfg, last.now)
    requires !Sealed(cfg, DayOf(last.now), last.ext.sentAt) && more == [Pass(t), SignedReport(t, true, last.report, last.ext)]
    ensures Replays(cfg, run, more, |run| + 1)
  {
    AcceptedIsInWindow(cfg, run, |run| - 1);
    ReplayTimes(cfg, last.now, last.ext.sentAt, t);
    ClockGoesOn(run, more, t);
    NoneSeenLater(cfg, run, DayOf(last.now));
    AcceptedAgain(cfg, run, run + more, last.ext, t);
  }

  lemma {:induction false} ClockGoesOn(run: seq<Event>, more: seq<Event>, t: Time)
    requires run != [] && ClockRuns(run) && run[|run| - 1].now <= t && forall i :: 0 <= i < |more| ==> more[i].now == t
    ensures ClockRuns(run + more)
  {
    var all := run + more;
    forall i, j | 0 <= i < j < |all|
      ensures all[i].now <= all[j].now
    {
      assert i < |run| ==> all[i].now <= run[|run| - 1].now;
    }
  }

  lemma {:induction false} AcceptedAgain(cfg: Config, run: seq<Event>, all: seq<Event>, e: Extended, t: Time)
    requires |all| == |run| + 2 && all[..|run|] == run && all[|run|] == Pass(t)
    requires all[|run| + 1].SignedReport? && all[|run| + 1].now == t && all[|run| + 1].signed && all[|run| + 1].ext == e
    requires InWindow(t, e.sentAt) && cfg.expiry > 0
    requires forall id :: id in After(cfg, run).activity ==> After(cfg, run).activity[id].lastSeen < DayOf(t) - cfg.expiry
    ensures Accepted(cfg, all, |run| + 1)
  {
    ForgottenByPass(cfg, After(cfg, run), e.id, t);
    AfterStep(cfg, all, |run|);
    UnknownIsAccepted(cfg, all, |run| + 1);
  }

  /** With a clock that does not go back no record was seen later than the last event. */
  lemma {:induction false} NoneSeenLater(cfg: Config, run: seq<Event>, today: Day)
    requires ClockRuns(run) && (run != [] ==> DayOf(run[|run| - 1].now) <= today)
    ensures forall id :: id in After(cfg, run).activity ==> After(cfg, run).activity[id].lastSeen <= today
  {
    if run != [] {
      var init, last := run[..|run| - 1], run[|run| - 1];
      if init != [] {
        DaysRun(init[|init| - 1].now, last.now);
      }
      NoneSeenLater(cfg, init, today);
      forall id | id in After(cfg, run).activity
        ensures After(cfg, run).activity[id].lastSeen <= today
      {
        RecordStep(cfg, After(cfg, init), last, id);
      }
    }
  }

  lemma {:induction false} UnknownIsAccepted(cfg: Config, run: seq<Event>, i: nat)
    requires i < |run| && run[i].SignedReport? && run[i].signed && InWindow(run[i].now, run[i].ext.sentAt)
    requires run[i].ext.id !in After(cfg, run[..i]).activity
    ensures Accepted(cfg, run, i)
  {
    AcceptedWhenUnknown(cfg, After(cfg, run[..i]), run[i]);
  }

  lemma {:induction false} AcceptedWhenUnknown(cfg: Config, s: Tables, ev: Event)
    requires ev.SignedReport? && ev.signed && InWindow(ev.now, ev.ext.sentAt) && ev.ext.id !in s.activity
    ensures !OutcomeIn(cfg, s, ev).Refused?
  {
  }

  lemma {:induction false} ForgottenByPass(cfg: Config, s: Tables, id: Name, now: Time)
    requires cfg.expiry > 0 && (id in s.activity ==> s.activity[id].lastSeen < DayOf(now) - cfg.expiry)
    ensures id !in Lifecycle(cfg, s, now).activity
  {
  }
}
