/**
 What one telemetry report writes (telemetry-receiver/ingest.go and ingest_ext.go),
 and the sums every write keeps equal.
 */
module StoreIngest {
  import opened Wrappers
  import opened Basics
  import opened StoreTables

  const MAX_SUMMED: nat := 1_000_000
  const FLEET_CAP: nat := 1001
  const WINDOW_PAST: int := 36 * HOUR
  const WINDOW_FUTURE: int := HOUR

  function Min(a: nat, b: nat): nat { if a <= b then a else b }

  /** The basic part of a report; its version is already a bounded label. */
  datatype Report = Report(version: Name, servers: nat, templates: nat)

  /** The extended part: the install's identity and its attributes. */
  datatype Extended = Extended(
    id: Name, key: Name, sentAt: Time,
    nodes: Name, deployment: Name, clusters: Name, db: Name, language: Name,
    k8s: seq<Name>, distro: seq<Name>, arch: seq<Name>, tunnels: seq<Name>,
    wakeOnConnect: bool, capture: bool, backups: bool, sso: bool, auditForwarding: bool,
    official: map<Name, nat>, custom: nat)

  /** The arrays of a decoded report hold no value twice. */
  predicate ReportOk(e: Extended) {
    NoRepeat(e.k8s) && NoRepeat(e.distro) && NoRepeat(e.arch) && NoRepeat(e.tunnels)
  }

  // ---------------------------------------------------------------- writes

  function AddBasic(b: Basic, r: Report): Basic {
    b.(reports := b.reports + 1,
       servers := b.servers + Min(r.servers, MAX_SUMMED),
       templates := b.templates + Min(r.templates, MAX_SUMMED))
  }

  function WriteBasic(p: Plain, day: Day, r: Report): Plain {
    Plain(p.basic[day := AddBasic(BasicOf(p, day), r)],
          Bump(p.version, Key(day, Whole, r.version)),
          Bump(Bump(p.fleet, Key(day, Servers, Min(r.servers, FLEET_CAP))),
               Key(day, Templates, Min(r.templates, FLEET_CAP))),
          p.total + 1)
  }

  function Tagged(dim: Dim, values: seq<Name>): seq<(Dim, Name)> {
    if values == [] then [] else [(dim, values[0])] + Tagged(dim, values[1..])
  }

  function On(name: Name, on: bool): seq<Name> { if on then [name] else [] }

  function FeaturesOn(e: Extended): seq<Name> {
    On("wakeOnConnect", e.wakeOnConnect) + (On("capture", e.capture) + (On("backups", e.backups)
    + (On("sso", e.sso) + On("auditForwarding", e.auditForwarding))))
  }

  function SingleDims(e: Extended): seq<(Dim, Name)> {
    [(Nodes, e.nodes), (Deployment, e.deployment), (Clusters, e.clusters), (Db, e.db), (Language, e.language)]
  }

  /** The daily_dim rows a report counts in. */
  function Dims(e: Extended): seq<(Dim, Name)> {
    SingleDims(e) + (Tagged(K8s, e.k8s) + (Tagged(Distro, e.distro) + (Tagged(Arch, e.arch)
    + (Tagged(Tunnel, e.tunnels) + Tagged(Feature, FeaturesOn(e))))))
  }

  function BumpAll(t: Table<Dim, Name>, day: Day, dims: seq<(Dim, Name)>): Table<Dim, Name> {
    if dims == [] then t
    else
      var last := |dims| - 1;
      Bump(BumpAll(t, day, dims[..last]), Key(day, dims[last].0, dims[last].1))
  }

  function Games(e: Extended): map<Name, nat> {
    if e.custom == 0 then e.official
    else e.official["custom" := (if "custom" in e.official then e.official["custom"] else 0) + e.custom]
  }

  function AddGame(g: Game, servers: nat): Game { Game(g.installs + 1, g.servers + Min(servers, MAX_SUMMED)) }

  function GameKeys(day: Day, games: map<Name, nat>): set<Key<Whole, Name>> { set m | m in games :: Key(day, Whole, m) }

  function AddGames(t: map<Key<Whole, Name>, Game>, day: Day, games: map<Name, nat>): map<Key<Whole, Name>, Game> {
    map k | k in t.Keys + GameKeys(day, games) ::
      if k.day == day && k.member in games then AddGame(GameOf(t, k), games[k.member]) else GameOf(t, k)
  }

  function AddExt(x: Ext, isNew: bool): Ext {
    x.(reports := x.reports + 1, active := x.active + 1, newly := x.newly + if isNew then 1 else 0)
  }

  function WriteExtendedAggregates(p: Installs, day: Day, e: Extended, isNew: bool): Installs {
    p.(ext := p.ext[day := AddExt(ExtOf(p, day), isNew)],
       dim := BumpAll(p.dim, day, Dims(e)),
       game := AddGames(p.game, day, Games(e)))
  }

  /** The receiver's settings; `classify` orders two different version labels, or sees no change. */
  datatype Config = Config(expiry: int, retention: int, classify: (Name, Name) -> Option<Name>)

  /** Counts the version the install is on and, for a known install, the kind of change since its last report. */
  function WriteVersionTrend(cfg: Config, p: Installs, day: Day, prev: Option<Name>, next: Name): Installs {
    p.(onVersion := Bump(p.onVersion, Key(day, Whole, next)), change := AddChange(cfg, p.change, day, prev, next))
  }

  function AddChange(cfg: Config, t: Table<Whole, Name>, day: Day, prev: Option<Name>, next: Name): Table<Whole, Name> {
    if prev.None? || cfg.classify(prev.value, next).None? then t
    else Bump(t, Key(day, Whole, cfg.classify(prev.value, next).value))
  }

  // ---------------------------------------------------------------- identity checks

  datatype Refusal = BadSignature | Stale | IdClaimed | Replay

  datatype Outcome = New | Returning | Duplicate | Refused(why: Refusal)

  predicate InWindow(now: Time, sentAt: Time) { now - WINDOW_PAST <= sentAt <= now + WINDOW_FUTURE }

  function Screen(signed: bool, now: Time, e: Extended): Option<Refusal> {
    if !signed then Some(BadSignature) else if !InWindow(now, e.sentAt) then Some(Stale) else None
  }

  function CheckClaim(row: Activity, key: Name, sentAt: Time): Option<Refusal> {
    if row.key != key then Some(IdClaimed) else if sentAt <= row.lastSent then Some(Replay) else None
  }

  function AddDuplicate(b: Basic): Basic { b.(duplicates := b.duplicates + 1) }

  /** The counters of one report that is not a duplicate. */
  function Count(cfg: Config, s: Tables, day: Day, r: Report, e: Extended, prev: Option<Name>, row: Activity): Tables {
    Tables(WriteBasic(s.plain, day, r),
           WriteVersionTrend(cfg, WriteExtendedAggregates(s.installs, day, e, prev.None?), day, prev, r.version),
           s.activity[e.id := row], s.through)
  }

  function CountDuplicate(p: Plain, day: Day): Plain { p.(basic := p.basic[day := AddDuplicate(BasicOf(p, day))]) }

  function RecordExtended(cfg: Config, s: Tables, day: Day, r: Report, e: Extended): (Tables, Outcome) {
    if e.id !in s.activity then
      (Count(cfg, s, day, r, e, None, Activity(e.key, day, day, e.sentAt, r.version)), New)
    else
      var row := s.activity[e.id];
      match CheckClaim(row, e.key, e.sentAt)
      case Some(why) => (s, Refused(why))
      case None =>
        if row.lastSeen >= day then
          (Tables(CountDuplicate(s.plain, day), s.installs, s.activity[e.id := row.(lastSent := e.sentAt)], s.through), Duplicate)
        else
          (Count(cfg, s, day, r, e, Some(row.version), Activity(row.key, row.firstSeen, day, e.sentAt, r.version)), Returning)
  }

  /** One signed report at `now`: the identity checks, then the transaction. */
  function IngestExtended(cfg: Config, s: Tables, now: Time, signed: bool, r: Report, e: Extended): (Tables, Outcome) {
    match Screen(signed, now, e)
    case Some(why) => (s, Refused(why))
    case None => RecordExtended(cfg, s, DayOf(now), r, e)
  }

  /** A report is refused exactly when a check fails, and then nothing is stored. */
  lemma {:induction false} RefusedExactly(cfg: Config, s: Tables, now: Time, signed: bool, r: Report, e: Extended)
    ensures var (s', out) := IngestExtended(cfg, s, now, signed, r, e);
            && (out.Refused? <==>
                || !signed || !InWindow(now, e.sentAt)
                || (e.id in s.activity && (s.activity[e.id].key != e.key || e.sentAt <= s.activity[e.id].lastSent)))
            && (out.Refused? ==> s' == s)
  {
  }

  /** Which of the four outcomes a report has, and which refusal comes first. */
  lemma {:induction false} OutcomeExactly(cfg: Config, s: Tables, now: Time, signed: bool, r: Report, e: Extended)
    ensures var out := IngestExtended(cfg, s, now, signed, r, e).1;
            && (out == New <==> signed && InWindow(now, e.sentAt) && e.id !in s.activity)
            && (out == Refused(BadSignature) <==> !signed)
            && (out == Refused(Stale) <==> signed && (e.sentAt < now - 36 * HOUR || e.sentAt > now + HOUR))
            && (out == Refused(IdClaimed) ==> e.id in s.activity && s.activity[e.id].key != e.key)
            && (out == Refused(Replay) ==> e.id in s.activity && s.activity[e.id].key == e.key && e.sentAt <= s.activity[e.id].lastSent)
            && (out == Duplicate ==> e.id in s.activity && s.activity[e.id].lastSeen >= DayOf(now))
            && (out == Returning ==> e.id in s.activity && s.activity[e.id].lastSeen < DayOf(now))
  {
  }

  /** A record's last-seen day after an accepted report on `day`. */
  function LaterSeen(s: Tables, id: Name, day: Day): Day {
    if id in s.activity && s.activity[id].lastSeen > day then s.activity[id].lastSeen else day
  }

  /** An accepted report's send time becomes its install's; no other record changes. */
  lemma {:induction false} AcceptedIsRemembered(cfg: Config, s: Tables, now: Time, signed: bool, r: Report, e: Extended)
    requires !IngestExtended(cfg, s, now, signed, r, e).1.Refused?
    ensures var s' := IngestExtended(cfg, s, now, signed, r, e).0;
            && e.id in s'.activity && s'.activity == s.activity[e.id := s'.activity[e.id]]
            && s'.activity[e.id].lastSent == e.sentAt && s'.activity[e.id].key == e.key
            && s'.activity[e.id].lastSeen == LaterSeen(s, e.id, DayOf(now)) && s'.through == s.through
            && s'.activity[e.id].firstSeen == (if e.id in s.activity then s.activity[e.id].firstSeen else DayOf(now))
            && s'.activity[e.id].version == (if e.id in s.activity && s.activity[e.id].lastSeen >= DayOf(now)
                                             then s.activity[e.id].version else r.version)
  {
  }

  // ---------------------------------------------------------------- sums

  const SINGLE: set<Dim> := {Nodes, Deployment, Clusters, Db, Language}

  ghost predicate BasicConserved(p: Plain, d: Day) {
    && Total(p.version, d, Whole) == BasicOf(p, d).reports
    && Total(p.fleet, d, Servers) == BasicOf(p, d).reports
    && Total(p.fleet, d, Templates) == BasicOf(p, d).reports
  }

  ghost predicate DimsConserved(t: Table<Dim, Name>, d: Day, n: nat) {
    && (forall x :: x in SINGLE ==> Total(t, d, x) == n)
    && (forall x, v :: Cell(t, Key(d, x, v)) <= n)
  }

  ghost predicate GamesConserved(t: map<Key<Whole, Name>, Game>, d: Day, n: nat) {
    forall m :: GameOf(t, Key(d, Whole, m)).installs <= n
  }

  ghost predicate ExtConserved(p: Installs, d: Day) {
    var x := ExtOf(p, d);
    && x.active == x.reports
    && Total(p.onVersion, d, Whole) == x.reports
    && DimsConserved(p.dim, d, x.reports)
    && GamesConserved(p.game, d, x.reports)
    && Total(p.change, d, Whole) + x.newly <= x.reports
  }

  /** What every day of a store satisfies. */
  ghost predicate Conserved(s: Tables, d: Day) {
    && BasicConserved(s.plain, d) && ExtConserved(s.installs, d)
    && ExtOf(s.installs, d).reports <= BasicOf(s.plain, d).reports
  }

  function One(b: bool): nat { if b then 1 else 0 }

  lemma {:induction false} WriteBasicConserves(p: Plain, day: Day, r: Report, d: Day)
    requires BasicConserved(p, d)
    ensures var p' := WriteBasic(p, day, r);
            BasicConserved(p', d) && BasicOf(p', d).reports == BasicOf(p, d).reports + One(d == day)
  {
    BumpTotal(p.version, Key(day, Whole, r.version), d, Whole);
    FleetTotals(p.fleet, Key(day, Servers, Min(r.servers, FLEET_CAP)), Key(day, Templates, Min(r.templates, FLEET_CAP)), d);
  }

  lemma {:induction false} FleetTotals(t: Table<Metric, nat>, a: Key<Metric, nat>, b: Key<Metric, nat>, d: Day)
    requires a.day == b.day && a.series == Servers && b.series == Templates
    ensures var t' := Bump(Bump(t, a), b);
            && Total(t', d, Servers) == Total(t, d, Servers) + One(d == a.day)
            && Total(t', d, Templates) == Total(t, d, Templates) + One(d == a.day)
  {
    BumpTotal(t, a, d, Servers);
    BumpTotal(t, a, d, Templates);
    BumpTotal(Bump(t, a), b, d, Servers);
    BumpTotal(Bump(t, a), b, d, Templates);
  }

  // ---------------------------------------------------------------- dimensions

  function OfDim(dims: seq<(Dim, Name)>, x: Dim): nat {
    if dims == [] then 0 else OfDim(dims[..|dims| - 1], x) + One(dims[|dims| - 1].0 == x)
  }

  lemma {:induction false} BumpAllTotal(t: Table<Dim, Name>, day: Day, dims: seq<(Dim, Name)>, d: Day, x: Dim)
    ensures Total(BumpAll(t, day, dims), d, x) == Total(t, d, x) + if d == day then OfDim(dims, x) else 0
  {
    if dims != [] {
      var last := |dims| - 1;
      BumpAllTotal(t, day, dims[..last], d, x);
      BumpTotal(BumpAll(t, day, dims[..last]), Key(day, dims[last].0, dims[last].1), d, x);
    }
  }

  lemma {:induction false} BumpAllCell(t: Table<Dim, Name>, day: Day, dims: seq<(Dim, Name)>, k: Key<Dim, Name>)
    ensures Cell(BumpAll(t, day, dims), k) == Cell(t, k) + if k.day == day then multiset(dims)[(k.series, k.member)] else 0
  {
    if dims != [] {
      var last := |dims| - 1;
      BumpAllCell(t, day, dims[..last], k);
      assert dims == dims[..last] + [dims[last]];
      assert dims[last] == (k.series, k.member) <==> Key(day, dims[last].0, dims[last].1) == Key(day, k.series, k.member);
    }
  }

  lemma {:induction false} OfDimAppend(a: seq<(Dim, Name)>, b: seq<(Dim, Name)>, x: Dim)
    ensures OfDim(a + b, x) == OfDim(a, x) + OfDim(b, x)
  {
    if b == [] {
      assert a + b == a;
    } else {
      OfDimAppend(a, b[..|b| - 1], x);
      assert (a + b)[..|a + b| - 1] == a + b[..|b| - 1];
    }
  }

  lemma {:induction false} OfTagged(dim: Dim, values: seq<Name>, x: Dim)
    requires dim != x
    ensures OfDim(Tagged(dim, values), x) == 0
  {
    if values != [] {
      OfTagged(dim, values[1..], x);
      OfDimAppend([(dim, values[0])], Tagged(dim, values[1..]), x);
      OfOne((dim, values[0]), x);
    }
  }

  /** A report counts exactly once in every single-valued dimension. */
  lemma {:induction false} OneOfEachSingle(e: Extended, x: Dim)
    requires x in SINGLE
    ensures OfDim(Dims(e), x) == 1
  {
    OneSingle(e, x);
    OneWhenNoSet(e, x);
  }

  lemma {:induction false} OneWhenNoSet(e: Extended, x: Dim)
    requires x != K8s && x != Distro && x != Arch && x != Tunnel && x != Feature && OfDim(SingleDims(e), x) == 1
    ensures OfDim(Dims(e), x) == 1
  {
    OfTagged(Feature, FeaturesOn(e), x);
    OfTagged(Tunnel, e.tunnels, x);
    OfTagged(Arch, e.arch, x);
    OfTagged(Distro, e.distro, x);
    OfTagged(K8s, e.k8s, x);
    OneInSix(SingleDims(e), Tagged(K8s, e.k8s), Tagged(Distro, e.distro), Tagged(Arch, e.arch),
             Tagged(Tunnel, e.tunnels), Tagged(Feature, FeaturesOn(e)), x);
  }

  lemma {:induction false} OneInSix(s: seq<(Dim, Name)>, k: seq<(Dim, Name)>, d: seq<(Dim, Name)>, a: seq<(Dim, Name)>,
                                    t: seq<(Dim, Name)>, f: seq<(Dim, Name)>, x: Dim)
    requires OfDim(s, x) == 1 && OfDim(k, x) == 0 && OfDim(d, x) == 0
    requires OfDim(a, x) == 0 && OfDim(t, x) == 0 && OfDim(f, x) == 0
    ensures OfDim(s + (k + (d + (a + (t + f)))), x) == 1
  {
    OfDimAppend(t, f, x);
    OfDimAppend(a, t + f, x);
    OfDimAppend(d, a + (t + f), x);
    OfDimAppend(k, d + (a + (t + f)), x);
    OfDimAppend(s, k + (d + (a + (t + f))), x);
  }

  lemma {:induction false} OneSingle(e: Extended, x: Dim)
    requires x in SINGLE
    ensures OfDim(SingleDims(e), x) == 1
  {
    OfFive((Nodes, e.nodes), (Deployment, e.deployment), (Clusters, e.clusters), (Db, e.db), (Language, e.language), x);
  }

  lemma {:induction false} OfFive(a: (Dim, Name), b: (Dim, Name), c: (Dim, Name), d: (Dim, Name), f: (Dim, Name), x: Dim)
    ensures OfDim([a, b, c, d, f], x) == One(a.0 == x) + One(b.0 == x) + One(c.0 == x) + One(d.0 == x) + One(f.0 == x)
  {
    assert [a, b, c, d, f] == [a] + [b] + [c] + [d] + [f];
    OfDimAppend([a] + [b] + [c] + [d], [f], x);
    OfDimAppend([a] + [b] + [c], [d], x);
    OfDimAppend([a] + [b], [c], x);
    OfDimAppend([a], [b], x);
    OfOne(a, x);
    OfOne(b, x);
    OfOne(c, x);
    OfOne(d, x);
    OfOne(f, x);
  }

  lemma {:induction false} OfOne(a: (Dim, Name), x: Dim)
    ensures OfDim([a], x) == One(a.0 == x)
  {
    assert [a][..0] == [];
  }

  lemma {:induction false} TaggedCount(dim: Dim, values: seq<Name>, x: Dim, v: Name)
    ensures multiset(Tagged(dim, values))[(x, v)] == if x == dim then multiset(values)[v] else 0
  {
    if values != [] {
      TaggedCount(dim, values[1..], x, v);
      assert values == [values[0]] + values[1..];
    }
  }

  lemma {:induction false} NoRepeatCount(s: seq<Name>, v: Name)
    requires NoRepeat(s)
    ensures multiset(s)[v] == One(v in s)
  {
    if s != [] {
      assert s == [s[0]] + s[1..];
      assert forall i :: 0 <= i < |s[1..]| ==> s[1..][i] == s[i + 1];
      NoRepeatCount(s[1..], v);
      assert s[0] !in s[1..];
    }
  }

  /** The report carries the feature of that name. */
  predicate HasFeature(e: Extended, v: Name) {
    || (e.wakeOnConnect && v == "wakeOnConnect") || (e.capture && v == "capture") || (e.backups && v == "backups")
    || (e.sso && v == "sso") || (e.auditForwarding && v == "auditForwarding")
  }

  /** The report has the value `v` in the dimension `x`. */
  predicate HasDim(e: Extended, x: Dim, v: Name) {
    match x
    case Nodes => e.nodes == v
    case Deployment => e.deployment == v
    case Clusters => e.clusters == v
    case Db => e.db == v
    case Language => e.language == v
    case K8s => v in e.k8s
    case Distro => v in e.distro
    case Arch => v in e.arch
    case Tunnel => v in e.tunnels
    case Feature => HasFeature(e, v)
  }

  lemma {:induction false} FeaturesDiffer()
    ensures NoRepeat(["wakeOnConnect", "capture", "backups", "sso", "auditForwarding"])
  {
    assert |"wakeOnConnect"| == 13 && |"capture"| == 7 && |"backups"| == 7 && |"sso"| == 3 && |"auditForwarding"| == 15;
    assert "capture"[0] == 'c' && "backups"[0] == 'b';
  }

  lemma {:induction false} OnCount(name: Name, on: bool, rest: seq<Name>, v: Name)
    ensures multiset(On(name, on) + rest)[v] == multiset(rest)[v] + One(on && v == name)
  {
    assert multiset(On(name, on) + rest) == multiset(On(name, on)) + multiset(rest);
  }

  lemma {:induction false} FeatureCount(e: Extended, v: Name)
    ensures multiset(FeaturesOn(e))[v] == One(HasFeature(e, v))
  {
    FeaturesDiffer();
    AnyOn("wakeOnConnect", "capture", "backups", "sso", "auditForwarding",
          e.wakeOnConnect, e.capture, e.backups, e.sso, e.auditForwarding, v);
  }

  /** Of five distinct names, those switched on are listed once each. */
  lemma {:induction false} AnyOn(a: Name, b: Name, c: Name, d: Name, f: Name, p: bool, q: bool, r: bool, s: bool, t: bool, v: Name)
    requires NoRepeat([a, b, c, d, f])
    ensures multiset(On(a, p) + (On(b, q) + (On(c, r) + (On(d, s) + On(f, t)))))[v]
            == One((p && v == a) || (q && v == b) || (r && v == c) || (s && v == d) || (t && v == f))
  {
    OnCount(a, p, On(b, q) + (On(c, r) + (On(d, s) + On(f, t))), v);
    OnCount(b, q, On(c, r) + (On(d, s) + On(f, t)), v);
    OnCount(c, r, On(d, s) + On(f, t), v);
    OnCount(d, s, On(f, t), v);
    OnCount(f, t, [], v);
    assert On(f, t) + [] == On(f, t);
    AtMostOneOf(a, b, c, d, f, [a, b, c, d, f], v);
  }

  lemma {:induction false} AtMostOneOf(a: Name, b: Name, c: Name, d: Name, f: Name, names: seq<Name>, v: Name)
    requires names == [a, b, c, d, f] && NoRepeat(names)
    ensures One(v == a) + One(v == b) + One(v == c) + One(v == d) + One(v == f) <= 1
  {
    assert names[0] == a && names[1] == b && names[2] == c && names[3] == d && names[4] == f;
  }

  lemma {:induction false} SingleCount(e: Extended, x: Dim, v: Name)
    ensures multiset(SingleDims(e))[(x, v)] == One(x in SINGLE && HasDim(e, x, v))
  {
    var s := SingleDims(e);
    assert s == [s[0]] + ([s[1]] + ([s[2]] + ([s[3]] + [s[4]])));
  }

  /** A report counts once in each row whose value it has, and in no other row. */
  lemma {:induction false} CountsWhatItHas(e: Extended, x: Dim, v: Name)
    requires ReportOk(e)
    ensures multiset(Dims(e))[(x, v)] == One(HasDim(e, x, v))
  {
    SingleCount(e, x, v);
    TaggedOnce(K8s, e.k8s, x, v);
    TaggedOnce(Distro, e.distro, x, v);
    TaggedOnce(Arch, e.arch, x, v);
    TaggedOnce(Tunnel, e.tunnels, x, v);
    TaggedCount(Feature, FeaturesOn(e), x, v);
    FeatureCount(e, v);
    OneOfSix(e, x, v, SingleDims(e), Tagged(K8s, e.k8s), Tagged(Distro, e.distro), Tagged(Arch, e.arch),
             Tagged(Tunnel, e.tunnels), Tagged(Feature, FeaturesOn(e)), (x, v));
  }

  lemma {:induction false} OneOfSix(e: Extended, x: Dim, v: Name, s: seq<(Dim, Name)>, k: seq<(Dim, Name)>, d: seq<(Dim, Name)>,
                                    a: seq<(Dim, Name)>, t: seq<(Dim, Name)>, f: seq<(Dim, Name)>, r: (Dim, Name))
    requires multiset(s)[r] == One(x in SINGLE && HasDim(e, x, v)) && multiset(k)[r] == One(x == K8s && v in e.k8s)
    requires multiset(d)[r] == One(x == Distro && v in e.distro) && multiset(a)[r] == One(x == Arch && v in e.arch)
    requires multiset(t)[r] == One(x == Tunnel && v in e.tunnels) && multiset(f)[r] == if x == Feature then One(HasFeature(e, v)) else 0
    ensures multiset(s + (k + (d + (a + (t + f)))))[r] == One(HasDim(e, x, v))
  {
    SplitCount(s, k, d, a, t, f, r);
  }

  lemma {:induction false} TaggedOnce(dim: Dim, values: seq<Name>, x: Dim, v: Name)
    requires NoRepeat(values)
    ensures multiset(Tagged(dim, values))[(x, v)] == One(x == dim && v in values)
  {
    TaggedCount(dim, values, x, v);
    NoRepeatCount(values, v);
  }

  lemma {:induction false} SplitCount(s: seq<(Dim, Name)>, k: seq<(Dim, Name)>, d: seq<(Dim, Name)>, a: seq<(Dim, Name)>,
                                      t: seq<(Dim, Name)>, f: seq<(Dim, Name)>, x: (Dim, Name))
    ensures multiset(s + (k + (d + (a + (t + f)))))[x]
            == multiset(s)[x] + multiset(k)[x] + multiset(d)[x] + multiset(a)[x] + multiset(t)[x] + multiset(f)[x]
  {
  }

  lemma {:induction false} DimsStep(t: Table<Dim, Name>, day: Day, e: Extended, d: Day, n: nat)
    requires ReportOk(e) && DimsConserved(t, d, n)
    ensures DimsConserved(BumpAll(t, day, Dims(e)), d, n + One(d == day))
  {
    var t' := BumpAll(t, day, Dims(e));
    forall x | x in SINGLE
      ensures Total(t', d, x) == n + One(d == day)
    {
      BumpAllTotal(t, day, Dims(e), d, x);
      OneOfEachSingle(e, x);
    }
    forall x, v
      ensures Cell(t', Key(d, x, v)) <= n + One(d == day)
    {
      BumpAllCell(t, day, Dims(e), Key(d, x, v));
      CountsWhatItHas(e, x, v);
    }
  }

  lemma {:induction false} AddGamesAt(t: map<Key<Whole, Name>, Game>, day: Day, games: map<Name, nat>, k: Key<Whole, Name>)
    ensures GameOf(AddGames(t, day, games), k)
            == if k.day == day && k.member in games then AddGame(GameOf(t, k), games[k.member]) else GameOf(t, k)
  {
    if k.day == day && k.member in games {
      assert k.series == Whole && k == Key(day, Whole, k.member);
      assert k in GameKeys(day, games);
    }
  }

  lemma {:induction false} GamesStep(t: map<Key<Whole, Name>, Game>, day: Day, games: map<Name, nat>, d: Day, n: nat)
    requires GamesConserved(t, d, n)
    ensures GamesConserved(AddGames(t, day, games), d, n + One(d == day))
  {
    forall m
      ensures GameOf(AddGames(t, day, games), Key(d, Whole, m)).installs <= n + One(d == day)
    {
      AddGamesAt(t, day, games, Key(d, Whole, m));
    }
  }

  /** The version trend counts one install and at most one change, and none for a new install. */
  lemma {:induction false} TrendStep(cfg: Config, p: Installs, day: Day, prev: Option<Name>, next: Name, d: Day)
    ensures var p' := WriteVersionTrend(cfg, p, day, prev, next);
            && Total(p'.onVersion, d, Whole) == Total(p.onVersion, d, Whole) + One(d == day)
            && Total(p'.change, d, Whole) <= Total(p.change, d, Whole) + One(d == day && prev.Some?)
  {
    BumpTotal(p.onVersion, Key(day, Whole, next), d, Whole);
    if prev.Some? && cfg.classify(prev.value, next).Some? {
      BumpTotal(p.change, Key(day, Whole, cfg.classify(prev.value, next).value), d, Whole);
    }
  }

  lemma {:induction false} InstallsConserve(cfg: Config, p: Installs, day: Day, e: Extended, prev: Option<Name>, next: Name, d: Day)
    requires ExtConserved(p, d) && ReportOk(e)
    ensures var p' := WriteVersionTrend(cfg, WriteExtendedAggregates(p, day, e, prev.None?), day, prev, next);
            ExtConserved(p', d) && ExtOf(p', d).reports == ExtOf(p, d).reports + One(d == day)
  {
    var n := ExtOf(p, d).reports;
    DimsStep(p.dim, day, e, d, n);
    GamesStep(p.game, day, Games(e), d, n);
    TrendStep(cfg, WriteExtendedAggregates(p, day, e, prev.None?), day, prev, next, d);
  }

  /** Counting a report keeps every sum, on its own day and on every other. */
  lemma {:induction false} CountConserves(cfg: Config, s: Tables, day: Day, r: Report, e: Extended, prev: Option<Name>,
                                          row: Activity, d: Day)
    requires Conserved(s, d) && ReportOk(e)
    ensures var s' := Count(cfg, s, day, r, e, prev, row);
            Conserved(s', d) && ExtOf(s'.installs, d).reports == ExtOf(s.installs, d).reports + One(d == day)
  {
    WriteBasicConserves(s.plain, day, r, d);
    InstallsConserve(cfg, s.installs, day, e, prev, r.version, d);
  }

  predicate Counted(out: Outcome) { out.New? || out.Returning? }

  /** Every report, whatever its outcome, keeps every day's sums. */
  lemma {:induction false} IngestConserves(cfg: Config, s: Tables, now: Time, signed: bool, r: Report, e: Extended, d: Day)
    requires Conserved(s, d) && ReportOk(e)
    ensures var (s', out) := IngestExtended(cfg, s, now, signed, r, e);
            && Conserved(s', d)
            && ExtOf(s'.installs, d).reports == ExtOf(s.installs, d).reports + One(Counted(out) && d == DayOf(now))
            && s'.plain.total == s.plain.total + One(Counted(out))
  {
    var day := DayOf(now);
    if Screen(signed, now, e).None? {
      if e.id !in s.activity {
        CountConserves(cfg, s, day, r, e, None, Activity(e.key, day, day, e.sentAt, r.version), d);
      } else {
        var row := s.activity[e.id];
        if row.lastSeen < day {
          CountConserves(cfg, s, day, r, e, Some(row.version), Activity(row.key, row.firstSeen, day, e.sentAt, r.version), d);
        } else {
          DuplicateConserves(s.plain, day, d);
        }
      }
    }
  }

  lemma {:induction false} DuplicateConserves(p: Plain, day: Day, d: Day)
    requires BasicConserved(p, d)
    ensures BasicConserved(CountDuplicate(p, day), d) && BasicOf(CountDuplicate(p, day), d).reports == BasicOf(p, d).reports
  {
  }
}
