/**
 What every row of the telemetry store counts, over every run: each cell of each daily
 table is the number, or the sum, of the reports that belong in it, until retention
 sweeps the day.
 */
module StoreCells {
  import opened Wrappers
  import opened Basics
  import opened StoreTables
  import opened StoreIngest
  import opened StoreRuns

  // ---------------------------------------------------------------- tallies

  type Amount = (Tables, Event) -> nat
  type Property = (Tables, Event) -> bool

  /** The sum over a run of what each event brings, given the tables it meets. */
  function Tally(cfg: Config, run: seq<Event>, amount: Amount): nat {
    if run == [] then 0
    else Tally(cfg, run[..|run| - 1], amount) + amount(After(cfg, run[..|run| - 1]), run[|run| - 1])
  }

  predicate EventOk(ev: Event) { ev.SignedReport? ==> ReportOk(ev.ext) }

  /** A cell of day `d` starts at zero, grows by the amounts of the events and is cleared by the day's sweep. */
  ghost predicate Follows(cfg: Config, d: Day, cell: Tables -> nat, amount: Amount) {
    && cell(EMPTY) == 0
    && forall s: Tables, ev: Event :: EventOk(ev) ==>
         cell(Step(cfg, s, ev)) == if Sweeps(cfg, ev, d) then 0 else cell(s) + amount(s, ev)
  }

  /** Only events of day `d` bring anything. */
  ghost predicate OfDay(d: Day, amount: Amount) {
    forall s: Tables, ev: Event :: amount(s, ev) > 0 ==> DayOf(ev.now) == d
  }

  lemma {:induction false} CellIsTally(cfg: Config, run: seq<Event>, d: Day, cell: Tables -> nat, amount: Amount)
    requires Follows(cfg, d, cell, amount) && OfDay(d, amount) && ReportsOk(run) && ClockRuns(run)
    ensures cell(After(cfg, run)) == if Swept(cfg, run, d) then 0 else Tally(cfg, run, amount)
  {
    if run != [] {
      var init, last := run[..|run| - 1], run[|run| - 1];
      CellIsTally(cfg, init, d, cell, amount);
      SweptSplits(cfg, run, d);
      AfterStepLast(cfg, run);
      assert EventOk(last);
      if Swept(cfg, init, d) && amount(After(cfg, init), last) > 0 {
        SweptIsPast(cfg, init, d, last.now);
        assert false;
      }
    }
  }

  lemma {:induction false} AfterStepLast(cfg: Config, run: seq<Event>)
    requires run != []
    ensures After(cfg, run) == Step(cfg, After(cfg, run[..|run| - 1]), run[|run| - 1])
  {
    AfterStep(cfg, run, |run| - 1);
    assert run[..|run|] == run;
  }

  /** What an event adds to the installs counted on day `d` by events with the property. */
  function Brings(cfg: Config, s: Tables, ev: Event, d: Day, has: Property): set<Name> {
    if Adds(cfg, s, ev, d) && has(s, ev) then {ev.ext.id} else {}
  }

  /** The installs counted on day `d` by an event with the property. */
  function InstallsWith(cfg: Config, run: seq<Event>, d: Day, has: Property): set<Name> {
    if run == [] then {}
    else InstallsWith(cfg, run[..|run| - 1], d, has) + Brings(cfg, After(cfg, run[..|run| - 1]), run[|run| - 1], d, has)
  }

  function OnePerInstall(cfg: Config, d: Day, has: Property): Amount {
    (s: Tables, ev: Event) => |Brings(cfg, s, ev, d, has)|
  }

  lemma {:induction false} WithIsCounted(cfg: Config, run: seq<Event>, d: Day, has: Property)
    ensures InstallsWith(cfg, run, d, has) <= CountedOn(cfg, run, d)
  {
    if run != [] {
      WithIsCounted(cfg, run[..|run| - 1], d, has);
    }
  }

  /** Counting events once each is counting installs, since none counts twice on a day. */
  lemma {:induction false} TallyOfInstalls(cfg: Config, run: seq<Event>, d: Day, has: Property)
    requires ClockRuns(run)
    ensures Tally(cfg, run, OnePerInstall(cfg, d, has)) == |InstallsWith(cfg, run, d, has)|
  {
    if run != [] {
      TallyOfInstalls(cfg, run[..|run| - 1], d, has);
      NewlyBrought(cfg, run, d, has);
    }
  }

  lemma {:induction false} NewlyBrought(cfg: Config, run: seq<Event>, d: Day, has: Property)
    requires ClockRuns(run) && run != []
    ensures var init, last := run[..|run| - 1], run[|run| - 1];
            |InstallsWith(cfg, run, d, has)| == |InstallsWith(cfg, init, d, has)| + |Brings(cfg, After(cfg, init), last, d, has)|
  {
    var init, last := run[..|run| - 1], run[|run| - 1];
    if Adds(cfg, After(cfg, init), last, d) {
      CountedOnce(cfg, run, d);
      WithIsCounted(cfg, init, d, has);
    }
  }

  /** A cell that follows its installs counts them. */
  lemma {:induction false} CellIsInstalls(cfg: Config, run: seq<Event>, d: Day, cell: Tables -> nat, has: Property)
    requires Follows(cfg, d, cell, OnePerInstall(cfg, d, has)) && ReportsOk(run) && ClockRuns(run)
    ensures cell(After(cfg, run)) == if Swept(cfg, run, d) then 0 else |InstallsWith(cfg, run, d, has)|
  {
    assert OfDay(d, OnePerInstall(cfg, d, has));
    CellIsTally(cfg, run, d, cell, OnePerInstall(cfg, d, has));
    TallyOfInstalls(cfg, run, d, has);
  }

  // ---------------------------------------------------------------- what a sweep does to the rows of a day

  /** What retention leaves of a daily table. */
  function KeptRows<S, M>(cfg: Config, t: Table<S, M>, today: Day): Table<S, M> {
    if cfg.retention <= 0 then t else Since(t, today - cfg.retention)
  }

  /** A sweep leaves no row of its days, and every other row as it was. */
  lemma {:induction false} SweepOfRow<S, M>(cfg: Config, t: Table<S, M>, now: Time, k: Key<S, M>)
    ensures var t' := KeptRows(cfg, t, DayOf(now));
            if Sweeps(cfg, Pass(now), k.day) then k !in t' else (k in t' <==> k in t) && Cell(t', k) == Cell(t, k)
  {
  }

  /** So it is for the five tables of counters. */
  lemma {:induction false} PassKeepsRows(cfg: Config, s: Tables, now: Time)
    ensures var s', today := Lifecycle(cfg, s, now), DayOf(now);
            && s'.plain.version == KeptRows(cfg, s.plain.version, today) && s'.plain.fleet == KeptRows(cfg, s.plain.fleet, today)
            && s'.installs.dim == KeptRows(cfg, s.installs.dim, today)
            && s'.installs.onVersion == KeptRows(cfg, s.installs.onVersion, today)
            && s'.installs.change == KeptRows(cfg, s.installs.change, today)
  {
  }

  lemma {:induction false} SweepOfBasic(cfg: Config, s: Tables, now: Time, d: Day)
    ensures var p := Lifecycle(cfg, s, now).plain;
            if Sweeps(cfg, Pass(now), d) then d !in p.basic else BasicOf(p, d) == BasicOf(s.plain, d)
  {
  }

  lemma {:induction false} SweepOfGame(cfg: Config, s: Tables, now: Time, k: Key<Whole, Name>)
    ensures var t := Lifecycle(cfg, s, now).installs.game;
            if Sweeps(cfg, Pass(now), k.day) then k !in t else GameOf(t, k) == GameOf(s.installs.game, k)
  {
  }

  /** The lapsed count is what the pass itself may store. */
  lemma {:induction false} SweepOfExt(cfg: Config, s: Tables, now: Time, d: Day)
    ensures var p := Lifecycle(cfg, s, now).installs;
            if Sweeps(cfg, Pass(now), d) then d !in p.ext
            else ExtOf(p, d) == ExtOf(s.installs, d).(lapsed := ExtOf(p, d).lapsed)
  {
    LapsedKeeps(s.installs.ext, s.activity, PendingDays(s.through, now), s.installs, d);
    assert s.installs.(ext := s.installs.ext) == s.installs;
  }

  // ---------------------------------------------------------------- what a report does to the tables

  function PreviousVersion(s: Tables, id: Name): Option<Name> { if id in s.activity then Some(s.activity[id].version) else None }

  /** The version the install was on, and the tables after a counted report; any other leaves the installs alone. */
  lemma {:induction false} StepOfReport(cfg: Config, s: Tables, ev: Event, s': Tables, day: Day)
    requires ev.SignedReport? && s' == Step(cfg, s, ev) && day == DayOf(ev.now)
    ensures var out, prev := OutcomeIn(cfg, s, ev), PreviousVersion(s, ev.ext.id);
            if Counted(out) then
              && s'.plain == WriteBasic(s.plain, day, ev.report)
              && s'.installs == WriteVersionTrend(cfg, WriteExtendedAggregates(s.installs, day, ev.ext, prev.None?), day, prev, ev.report.version)
            else s'.installs == s.installs && s'.plain == if out.Duplicate? then CountDuplicate(s.plain, day) else s.plain
  {
  }

  // ---------------------------------------------------------------- dimensions

  function DimHas(x: Dim, v: Name): Property { (s: Tables, ev: Event) => ev.SignedReport? && HasDim(ev.ext, x, v) }

  function DimCell(d: Day, x: Dim, v: Name): Tables -> nat { (s: Tables) => Cell(s.installs.dim, Key(d, x, v)) }

  lemma {:induction false} DimStep(cfg: Config, s: Tables, ev: Event, d: Day, x: Dim, v: Name, s': Tables, k: Key<Dim, Name>)
    requires EventOk(ev) && s' == Step(cfg, s, ev) && k == Key(d, x, v)
    ensures Cell(s'.installs.dim, k)
            == if Sweeps(cfg, ev, d) then 0 else Cell(s.installs.dim, k) + |Brings(cfg, s, ev, d, DimHas(x, v))|
  {
    if ev.SignedReport? {
      StepOfReport(cfg, s, ev, s', DayOf(ev.now));
      DimWritten(s.installs.dim, DayOf(ev.now), ev.ext, d, x, v, k);
    } else if ev.Pass? {
      PassKeepsRows(cfg, s, ev.now);
      SweepOfRow(cfg, s.installs.dim, ev.now, k);
    }
  }

  lemma {:induction false} DimWritten(t: Table<Dim, Name>, day: Day, e: Extended, d: Day, x: Dim, v: Name, k: Key<Dim, Name>)
    requires ReportOk(e) && k == Key(d, x, v)
    ensures Cell(BumpAll(t, day, Dims(e)), k) == Cell(t, k) + One(day == d && HasDim(e, x, v))
  {
    BumpAllCell(t, day, Dims(e), k);
    CountsWhatItHas(e, x, v);
  }

  /**
   Until its day is swept, a row of a dimension is the number of installs counted on that
   day whose counted report had the row's value in that dimension.
   */
  lemma {:induction false} DimRowsCount(cfg: Config, run: seq<Event>, d: Day, x: Dim, v: Name)
    requires ReportsOk(run) && ClockRuns(run)
    ensures Cell(After(cfg, run).installs.dim, Key(d, x, v))
            == if Swept(cfg, run, d) then 0 else |InstallsWith(cfg, run, d, DimHas(x, v))|
  {
    forall s: Tables, ev: Event | EventOk(ev)
      ensures DimCell(d, x, v)(Step(cfg, s, ev))
              == if Sweeps(cfg, ev, d) then 0 else DimCell(d, x, v)(s) + OnePerInstall(cfg, d, DimHas(x, v))(s, ev)
    {
      DimStep(cfg, s, ev, d, x, v, Step(cfg, s, ev), Key(d, x, v));
    }
    CellIsInstalls(cfg, run, d, DimCell(d, x, v), DimHas(x, v));
  }

  // ---------------------------------------------------------------- versions of the installs

  function OnVersionHas(v: Name): Property { (s: Tables, ev: Event) => ev.SignedReport? && ev.report.version == v }

  function OnVersionCell(d: Day, v: Name): Tables -> nat { (s: Tables) => Cell(s.installs.onVersion, Key(d, Whole, v)) }

  lemma {:induction false} OnVersionStep(cfg: Config, s: Tables, ev: Event, d: Day, v: Name, s': Tables)
    requires EventOk(ev) && s' == Step(cfg, s, ev)
    ensures Cell(s'.installs.onVersion, Key(d, Whole, v))
            == if Sweeps(cfg, ev, d) then 0 else Cell(s.installs.onVersion, Key(d, Whole, v)) + |Brings(cfg, s, ev, d, OnVersionHas(v))|
  {
    if ev.SignedReport? {
      StepOfReport(cfg, s, ev, s', DayOf(ev.now));
      BumpedCell(s.installs.onVersion, Key(DayOf(ev.now), Whole, ev.report.version), Key(d, Whole, v));
    } else if ev.Pass? {
      PassKeepsRows(cfg, s, ev.now);
      SweepOfRow(cfg, s.installs.onVersion, ev.now, Key(d, Whole, v));
    }
  }

  lemma {:induction false} BumpedCell<S, M>(t: Table<S, M>, k: Key<S, M>, q: Key<S, M>)
    ensures Cell(Bump(t, k), q) == Cell(t, q) + One(k == q)
  {
  }

  /**
   The installs on a version on a day are those counted on that day with a report of that version.
   */
  lemma {:induction false} OnVersionRowsCount(cfg: Config, run: seq<Event>, d: Day, v: Name)
    requires ReportsOk(run) && ClockRuns(run)
    ensures Cell(After(cfg, run).installs.onVersion, Key(d, Whole, v))
            == if Swept(cfg, run, d) then 0 else |InstallsWith(cfg, run, d, OnVersionHas(v))|
  {
    forall s: Tables, ev: Event | EventOk(ev)
      ensures OnVersionCell(d, v)(Step(cfg, s, ev))
              == if Sweeps(cfg, ev, d) then 0 else OnVersionCell(d, v)(s) + OnePerInstall(cfg, d, OnVersionHas(v))(s, ev)
    {
      OnVersionStep(cfg, s, ev, d, v, Step(cfg, s, ev));
    }
    CellIsInstalls(cfg, run, d, OnVersionCell(d, v), OnVersionHas(v));
  }

  // ---------------------------------------------------------------- version changes

  /** The install was known, and its last counted version and this one make a change of the kind `c`. */
  predicate Changes(cfg: Config, s: Tables, ev: Event, c: Name) {
    ev.SignedReport? && ev.ext.id in s.activity && cfg.classify(s.activity[ev.ext.id].version, ev.report.version) == Some(c)
  }

  function ChangeHas(cfg: Config, c: Name): Property { (s: Tables, ev: Event) => Changes(cfg, s, ev, c) }

  function ChangeCell(d: Day, c: Name): Tables -> nat { (s: Tables) => Cell(s.installs.change, Key(d, Whole, c)) }

  lemma {:induction false} ChangeStep(cfg: Config, s: Tables, ev: Event, d: Day, c: Name, s': Tables)
    requires EventOk(ev) && s' == Step(cfg, s, ev)
    ensures Cell(s'.installs.change, Key(d, Whole, c))
            == if Sweeps(cfg, ev, d) then 0 else Cell(s.installs.change, Key(d, Whole, c)) + |Brings(cfg, s, ev, d, ChangeHas(cfg, c))|
  {
    if ev.SignedReport? {
      StepOfReport(cfg, s, ev, s', DayOf(ev.now));
      ChangeWritten(cfg, s.installs.change, DayOf(ev.now), PreviousVersion(s, ev.ext.id), ev.report.version, d, c);
    } else if ev.Pass? {
      PassKeepsRows(cfg, s, ev.now);
      SweepOfRow(cfg, s.installs.change, ev.now, Key(d, Whole, c));
    }
  }

  lemma {:induction false} ChangeWritten(cfg: Config, t: Table<Whole, Name>, day: Day, prev: Option<Name>, next: Name, d: Day, c: Name)
    ensures Cell(AddChange(cfg, t, day, prev, next), Key(d, Whole, c))
            == Cell(t, Key(d, Whole, c)) + One(day == d && prev.Some? && cfg.classify(prev.value, next) == Some(c))
  {
  }

  /**
   The changes of a kind on a day are the installs that were known when counted on that day and whose
   version then changed in that way.
   */
  lemma {:induction false} ChangeRowsCount(cfg: Config, run: seq<Event>, d: Day, c: Name)
    requires ReportsOk(run) && ClockRuns(run)
    ensures Cell(After(cfg, run).installs.change, Key(d, Whole, c))
            == if Swept(cfg, run, d) then 0 else |InstallsWith(cfg, run, d, ChangeHas(cfg, c))|
  {
    forall s: Tables, ev: Event | EventOk(ev)
      ensures ChangeCell(d, c)(Step(cfg, s, ev))
              == if Sweeps(cfg, ev, d) then 0 else ChangeCell(d, c)(s) + OnePerInstall(cfg, d, ChangeHas(cfg, c))(s, ev)
    {
      ChangeStep(cfg, s, ev, d, c, Step(cfg, s, ev));
    }
    CellIsInstalls(cfg, run, d, ChangeCell(d, c), ChangeHas(cfg, c));
  }

  // ---------------------------------------------------------------- new installs

  function NewHas(): Property { (s: Tables, ev: Event) => ev.SignedReport? && ev.ext.id !in s.activity }

  function NewCell(d: Day): Tables -> nat { (s: Tables) => ExtOf(s.installs, d).newly }

  lemma {:induction false} NewStep(cfg: Config, s: Tables, ev: Event, d: Day, s': Tables)
    requires EventOk(ev) && s' == Step(cfg, s, ev)
    ensures ExtOf(s'.installs, d).newly
            == if Sweeps(cfg, ev, d) then 0 else ExtOf(s.installs, d).newly + |Brings(cfg, s, ev, d, NewHas())|
  {
    if ev.SignedReport? {
      StepOfReport(cfg, s, ev, s', DayOf(ev.now));
      OutcomeExactly(cfg, s, ev.now, ev.signed, ev.report, ev.ext);
    } else if ev.Pass? {
      SweepOfExt(cfg, s, ev.now, d);
    }
  }

  /**
   The new installs of a day are those counted on that day that had no record then.
   */
  lemma {:induction false} NewInstallsCount(cfg: Config, run: seq<Event>, d: Day)
    requires ReportsOk(run) && ClockRuns(run)
    ensures ExtOf(After(cfg, run).installs, d).newly
            == if Swept(cfg, run, d) then 0 else |InstallsWith(cfg, run, d, NewHas())|
  {
    forall s: Tables, ev: Event | EventOk(ev)
      ensures NewCell(d)(Step(cfg, s, ev))
              == if Sweeps(cfg, ev, d) then 0 else NewCell(d)(s) + OnePerInstall(cfg, d, NewHas())(s, ev)
    {
      NewStep(cfg, s, ev, d, Step(cfg, s, ev));
    }
    CellIsInstalls(cfg, run, d, NewCell(d), NewHas());
  }

  // ---------------------------------------------------------------- games

  /** The servers a report has of a game. */
  function ServersOf(e: Extended, m: Name): nat {
    (if m in e.official then e.official[m] else 0) + (if m == "custom" then e.custom else 0)
  }

  predicate NamesGame(e: Extended, m: Name) { m in e.official || (m == "custom" && e.custom > 0) }

  lemma {:induction false} GamesOf(e: Extended, m: Name)
    ensures (m in Games(e) <==> NamesGame(e, m)) && (m in Games(e) ==> Games(e)[m] == ServersOf(e, m)) && (m !in Games(e) ==> ServersOf(e, m) == 0)
  {
  }

  lemma {:induction false} GamesWritten(t: map<Key<Whole, Name>, Game>, day: Day, e: Extended, d: Day, m: Name)
    ensures var g, g' := GameOf(t, Key(d, Whole, m)), GameOf(AddGames(t, day, Games(e)), Key(d, Whole, m));
            && g'.installs == g.installs + One(day == d && NamesGame(e, m))
            && g'.servers == g.servers + if day == d then Min(ServersOf(e, m), 1_000_000) else 0
  {
    GamesOf(e, m);
    AddGamesAt(t, day, Games(e), Key(d, Whole, m));
  }

  /** The report counts game servers under the name `m`; custom games count under "custom". */
  function GameHas(m: Name): Property { (s: Tables, ev: Event) => ev.SignedReport? && NamesGame(ev.ext, m) }

  function GameCell(d: Day, m: Name): Tables -> nat { (s: Tables) => GameOf(s.installs.game, Key(d, Whole, m)).installs }

  lemma {:induction false} GameStep(cfg: Config, s: Tables, ev: Event, d: Day, m: Name, s': Tables)
    requires EventOk(ev) && s' == Step(cfg, s, ev)
    ensures GameOf(s'.installs.game, Key(d, Whole, m)).installs
            == if Sweeps(cfg, ev, d) then 0 else GameOf(s.installs.game, Key(d, Whole, m)).installs + |Brings(cfg, s, ev, d, GameHas(m))|
  {
    if ev.SignedReport? {
      StepOfReport(cfg, s, ev, s', DayOf(ev.now));
      GamesWritten(s.installs.game, DayOf(ev.now), ev.ext, d, m);
    } else if ev.Pass? {
      SweepOfGame(cfg, s, ev.now, Key(d, Whole, m));
    }
  }

  /**
   The installs of a game on a day are those counted on that day whose report names it.
   */
  lemma {:induction false} GameInstallsCount(cfg: Config, run: seq<Event>, d: Day, m: Name)
    requires ReportsOk(run) && ClockRuns(run)
    ensures GameOf(After(cfg, run).installs.game, Key(d, Whole, m)).installs
            == if Swept(cfg, run, d) then 0 else |InstallsWith(cfg, run, d, GameHas(m))|
  {
    forall s: Tables, ev: Event | EventOk(ev)
      ensures GameCell(d, m)(Step(cfg, s, ev))
              == if Sweeps(cfg, ev, d) then 0 else GameCell(d, m)(s) + OnePerInstall(cfg, d, GameHas(m))(s, ev)
    {
      GameStep(cfg, s, ev, d, m, Step(cfg, s, ev));
    }
    CellIsInstalls(cfg, run, d, GameCell(d, m), GameHas(m));
  }

  function GameServers(cfg: Config, d: Day, m: Name): Amount {
    (s: Tables, ev: Event) => if Adds(cfg, s, ev, d) then Min(ServersOf(ev.ext, m), 1_000_000) else 0
  }

  function GameServersCell(d: Day, m: Name): Tables -> nat { (s: Tables) => GameOf(s.installs.game, Key(d, Whole, m)).servers }

  lemma {:induction false} GameServersStep(cfg: Config, s: Tables, ev: Event, d: Day, m: Name, s': Tables)
    requires s' == Step(cfg, s, ev)
    ensures GameOf(s'.installs.game, Key(d, Whole, m)).servers
            == if Sweeps(cfg, ev, d) then 0
               else GameOf(s.installs.game, Key(d, Whole, m)).servers + GameServers(cfg, d, m)(s, ev)
  {
    if ev.SignedReport? {
      StepOfReport(cfg, s, ev, s', DayOf(ev.now));
      GamesWritten(s.installs.game, DayOf(ev.now), ev.ext, d, m);
    } else if ev.Pass? {
      SweepOfGame(cfg, s, ev.now, Key(d, Whole, m));
    }
  }

  /** The servers of a game on a day are the sum over the reports counted on it, each capped at a million. */
  lemma {:induction false} GameServersSum(cfg: Config, run: seq<Event>, d: Day, m: Name)
    requires ReportsOk(run) && ClockRuns(run)
    ensures GameOf(After(cfg, run).installs.game, Key(d, Whole, m)).servers
            == if Swept(cfg, run, d) then 0 else Tally(cfg, run, GameServers(cfg, d, m))
  {
    forall s: Tables, ev: Event | EventOk(ev)
      ensures GameServersCell(d, m)(Step(cfg, s, ev))
              == if Sweeps(cfg, ev, d) then 0 else GameServersCell(d, m)(s) + GameServers(cfg, d, m)(s, ev)
    {
      GameServersStep(cfg, s, ev, d, m, Step(cfg, s, ev));
    }
    assert OfDay(d, GameServers(cfg, d, m));
    CellIsTally(cfg, run, d, GameServersCell(d, m), GameServers(cfg, d, m));
  }

  // ---------------------------------------------------------------- the tables every report counts in

  /** The event stores the basic part of a report: an unsigned one, or a signed one that counts. */
  predicate Stores(cfg: Config, s: Tables, ev: Event) {
    ev.BasicReport? || (ev.SignedReport? && Counted(OutcomeIn(cfg, s, ev)))
  }

  predicate StoresOn(cfg: Config, s: Tables, ev: Event, d: Day) { Stores(cfg, s, ev) && DayOf(ev.now) == d }

  /** What an event does to the basic tables. */
  lemma {:induction false} StepOfPlain(cfg: Config, s: Tables, ev: Event, s': Tables)
    requires s' == Step(cfg, s, ev) && !ev.Pass?
    ensures s'.plain == if Stores(cfg, s, ev) then WriteBasic(s.plain, DayOf(ev.now), ev.report)
                        else if ev.SignedReport? && OutcomeIn(cfg, s, ev).Duplicate? then CountDuplicate(s.plain, DayOf(ev.now))
                        else s.plain
  {
    if ev.SignedReport? {
      StepOfReport(cfg, s, ev, s', DayOf(ev.now));
    }
  }

  function FleetOf(r: Report, m: Metric): nat { if m.Servers? then r.servers else r.templates }

  function VersionHit(cfg: Config, s: Tables, ev: Event, d: Day, v: Name): nat {
    One(StoresOn(cfg, s, ev, d) && ev.report.version == v)
  }

  /** Sizes above a thousand share the bucket 1001. */
  function FleetHit(cfg: Config, s: Tables, ev: Event, d: Day, m: Metric, b: nat): nat {
    One(StoresOn(cfg, s, ev, d) && Min(FleetOf(ev.report, m), 1001) == b)
  }

  function SizeHit(cfg: Config, s: Tables, ev: Event, d: Day, m: Metric): nat {
    if StoresOn(cfg, s, ev, d) then Min(FleetOf(ev.report, m), 1_000_000) else 0
  }

  function ReportHit(cfg: Config, s: Tables, ev: Event, d: Day): nat { One(StoresOn(cfg, s, ev, d)) }

  /** A signed report of an install that was already seen on that day. */
  function DuplicateHit(cfg: Config, s: Tables, ev: Event, d: Day): nat {
    One(ev.SignedReport? && OutcomeIn(cfg, s, ev).Duplicate? && DayOf(ev.now) == d)
  }

  function VersionAmount(cfg: Config, d: Day, v: Name): Amount { (s: Tables, ev: Event) => VersionHit(cfg, s, ev, d, v) }

  function FleetAmount(cfg: Config, d: Day, m: Metric, b: nat): Amount { (s: Tables, ev: Event) => FleetHit(cfg, s, ev, d, m, b) }

  function SizeAmount(cfg: Config, d: Day, m: Metric): Amount { (s: Tables, ev: Event) => SizeHit(cfg, s, ev, d, m) }

  function ReportAmount(cfg: Config, d: Day): Amount { (s: Tables, ev: Event) => ReportHit(cfg, s, ev, d) }

  function DuplicateAmount(cfg: Config, d: Day): Amount { (s: Tables, ev: Event) => DuplicateHit(cfg, s, ev, d) }

  function VersionCell(d: Day, v: Name): Tables -> nat { (s: Tables) => Cell(s.plain.version, Key(d, Whole, v)) }

  lemma {:induction false} VersionStep(cfg: Config, s: Tables, ev: Event, d: Day, v: Name, s': Tables)
    requires s' == Step(cfg, s, ev)
    ensures Cell(s'.plain.version, Key(d, Whole, v))
            == if Sweeps(cfg, ev, d) then 0 else Cell(s.plain.version, Key(d, Whole, v)) + VersionHit(cfg, s, ev, d, v)
  {
    if ev.Pass? {
      PassKeepsRows(cfg, s, ev.now);
      SweepOfRow(cfg, s.plain.version, ev.now, Key(d, Whole, v));
    } else {
      StepOfPlain(cfg, s, ev, s');
      if Stores(cfg, s, ev) {
        BumpedCell(s.plain.version, Key(DayOf(ev.now), Whole, ev.report.version), Key(d, Whole, v));
      }
    }
  }

  /** The reports of a version on a day. */
  lemma {:induction false} VersionRowsCount(cfg: Config, run: seq<Event>, d: Day, v: Name)
    requires ReportsOk(run) && ClockRuns(run)
    ensures Cell(After(cfg, run).plain.version, Key(d, Whole, v)) == if Swept(cfg, run, d) then 0 else Tally(cfg, run, VersionAmount(cfg, d, v))
  {
    forall s: Tables, ev: Event | EventOk(ev)
      ensures VersionCell(d, v)(Step(cfg, s, ev)) == if Sweeps(cfg, ev, d) then 0 else VersionCell(d, v)(s) + VersionAmount(cfg, d, v)(s, ev)
    {
      VersionStep(cfg, s, ev, d, v, Step(cfg, s, ev));
    }
    assert OfDay(d, VersionAmount(cfg, d, v));
    CellIsTally(cfg, run, d, VersionCell(d, v), VersionAmount(cfg, d, v));
  }

  lemma {:induction false} FleetWritten(t: Table<Metric, nat>, day: Day, r: Report, d: Day, m: Metric, b: nat)
    ensures Cell(Bump(Bump(t, Key(day, Servers, Min(r.servers, FLEET_CAP))), Key(day, Templates, Min(r.templates, FLEET_CAP))), Key(d, m, b))
            == Cell(t, Key(d, m, b)) + One(day == d && Min(FleetOf(r, m), 1001) == b)
  {
  }

  function FleetCell(d: Day, m: Metric, b: nat): Tables -> nat { (s: Tables) => Cell(s.plain.fleet, Key(d, m, b)) }

  lemma {:induction false} FleetStep(cfg: Config, s: Tables, ev: Event, d: Day, m: Metric, b: nat, s': Tables)
    requires s' == Step(cfg, s, ev)
    ensures Cell(s'.plain.fleet, Key(d, m, b))
            == if Sweeps(cfg, ev, d) then 0 else Cell(s.plain.fleet, Key(d, m, b)) + FleetHit(cfg, s, ev, d, m, b)
  {
    if ev.Pass? {
      PassKeepsRows(cfg, s, ev.now);
      SweepOfRow(cfg, s.plain.fleet, ev.now, Key(d, m, b));
    } else {
      StepOfPlain(cfg, s, ev, s');
      if Stores(cfg, s, ev) {
        FleetWritten(s.plain.fleet, DayOf(ev.now), ev.report, d, m, b);
      }
    }
  }

  /** The reports of a day whose fleet falls in a bucket. */
  lemma {:induction false} FleetRowsCount(cfg: Config, run: seq<Event>, d: Day, m: Metric, b: nat)
    requires ReportsOk(run) && ClockRuns(run)
    ensures Cell(After(cfg, run).plain.fleet, Key(d, m, b)) == if Swept(cfg, run, d) then 0 else Tally(cfg, run, FleetAmount(cfg, d, m, b))
  {
    forall s: Tables, ev: Event | EventOk(ev)
      ensures FleetCell(d, m, b)(Step(cfg, s, ev)) == if Sweeps(cfg, ev, d) then 0 else FleetCell(d, m, b)(s) + FleetAmount(cfg, d, m, b)(s, ev)
    {
      FleetStep(cfg, s, ev, d, m, b, Step(cfg, s, ev));
    }
    assert OfDay(d, FleetAmount(cfg, d, m, b));
    CellIsTally(cfg, run, d, FleetCell(d, m, b), FleetAmount(cfg, d, m, b));
  }

  function ReportsCell(d: Day): Tables -> nat { (s: Tables) => BasicOf(s.plain, d).reports }

  lemma {:induction false} ReportsStep(cfg: Config, s: Tables, ev: Event, d: Day, s': Tables)
    requires s' == Step(cfg, s, ev)
    ensures BasicOf(s'.plain, d).reports
            == if Sweeps(cfg, ev, d) then 0 else BasicOf(s.plain, d).reports + ReportHit(cfg, s, ev, d)
  {
    if ev.Pass? {
      SweepOfBasic(cfg, s, ev.now, d);
    } else {
      StepOfPlain(cfg, s, ev, s');
    }
  }

  /** The reports of a day. */
  lemma {:induction false} ReportsCount(cfg: Config, run: seq<Event>, d: Day)
    requires ReportsOk(run) && ClockRuns(run)
    ensures BasicOf(After(cfg, run).plain, d).reports == if Swept(cfg, run, d) then 0 else Tally(cfg, run, ReportAmount(cfg, d))
  {
    forall s: Tables, ev: Event | EventOk(ev)
      ensures ReportsCell(d)(Step(cfg, s, ev)) == if Sweeps(cfg, ev, d) then 0 else ReportsCell(d)(s) + ReportAmount(cfg, d)(s, ev)
    {
      ReportsStep(cfg, s, ev, d, Step(cfg, s, ev));
    }
    assert OfDay(d, ReportAmount(cfg, d));
    CellIsTally(cfg, run, d, ReportsCell(d), ReportAmount(cfg, d));
  }

  function DuplicatesCell(d: Day): Tables -> nat { (s: Tables) => BasicOf(s.plain, d).duplicates }

  lemma {:induction false} DuplicatesStep(cfg: Config, s: Tables, ev: Event, d: Day, s': Tables)
    requires s' == Step(cfg, s, ev)
    ensures BasicOf(s'.plain, d).duplicates
            == if Sweeps(cfg, ev, d) then 0 else BasicOf(s.plain, d).duplicates + DuplicateHit(cfg, s, ev, d)
  {
    if ev.Pass? {
      SweepOfBasic(cfg, s, ev.now, d);
    } else {
      StepOfPlain(cfg, s, ev, s');
    }
  }

  /** The further reports of an install on a day it was already seen on. */
  lemma {:induction false} DuplicatesCount(cfg: Config, run: seq<Event>, d: Day)
    requires ReportsOk(run) && ClockRuns(run)
    ensures BasicOf(After(cfg, run).plain, d).duplicates == if Swept(cfg, run, d) then 0 else Tally(cfg, run, DuplicateAmount(cfg, d))
  {
    forall s: Tables, ev: Event | EventOk(ev)
      ensures DuplicatesCell(d)(Step(cfg, s, ev)) == if Sweeps(cfg, ev, d) then 0 else DuplicatesCell(d)(s) + DuplicateAmount(cfg, d)(s, ev)
    {
      DuplicatesStep(cfg, s, ev, d, Step(cfg, s, ev));
    }
    assert OfDay(d, DuplicateAmount(cfg, d));
    CellIsTally(cfg, run, d, DuplicatesCell(d), DuplicateAmount(cfg, d));
  }

  function SizeIn(b: Basic, m: Metric): nat { if m.Servers? then b.servers else b.templates }

  function SizesCell(d: Day, m: Metric): Tables -> nat { (s: Tables) => SizeIn(BasicOf(s.plain, d), m) }

  lemma {:induction false} SizesStep(cfg: Config, s: Tables, ev: Event, d: Day, m: Metric, s': Tables)
    requires s' == Step(cfg, s, ev)
    ensures SizeIn(BasicOf(s'.plain, d), m)
            == if Sweeps(cfg, ev, d) then 0 else SizeIn(BasicOf(s.plain, d), m) + SizeHit(cfg, s, ev, d, m)
  {
    if ev.Pass? {
      SweepOfBasic(cfg, s, ev.now, d);
    } else {
      StepOfPlain(cfg, s, ev, s');
    }
  }

  /** The servers or templates of a day, each report capped at a million. */
  lemma {:induction false} SizesSum(cfg: Config, run: seq<Event>, d: Day, m: Metric)
    requires ReportsOk(run) && ClockRuns(run)
    ensures SizeIn(BasicOf(After(cfg, run).plain, d), m) == if Swept(cfg, run, d) then 0 else Tally(cfg, run, SizeAmount(cfg, d, m))
  {
    forall s: Tables, ev: Event | EventOk(ev)
      ensures SizesCell(d, m)(Step(cfg, s, ev)) == if Sweeps(cfg, ev, d) then 0 else SizesCell(d, m)(s) + SizeAmount(cfg, d, m)(s, ev)
    {
      SizesStep(cfg, s, ev, d, m, Step(cfg, s, ev));
    }
    assert OfDay(d, SizeAmount(cfg, d, m));
    CellIsTally(cfg, run, d, SizesCell(d, m), SizeAmount(cfg, d, m));
  }

  function EverAmount(cfg: Config): Amount { (s: Tables, ev: Event) => One(Stores(cfg, s, ev)) }

  /** The all-time total counts every stored report and is never swept. */
  lemma {:induction false} TotalCounts(cfg: Config, run: seq<Event>)
    ensures After(cfg, run).plain.total == Tally(cfg, run, EverAmount(cfg))
  {
    if run != [] {
      var init, last := run[..|run| - 1], run[|run| - 1];
      TotalCounts(cfg, init);
      AfterStepLast(cfg, run);
      if !last.Pass? {
        StepOfPlain(cfg, After(cfg, init), last, After(cfg, run));
      }
    }
  }
}
