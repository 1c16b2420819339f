/**
 The store of telemetry-receiver/store.go as it works: every write goes to an open
 transaction row by row, which then replaces the committed tables or is dropped.
 */
module StoreCode {
  import opened Wrappers
  import opened StoreTables
  import opened StoreIngest
  import opened StoreRuns

  class Store {
    const cfg: Config
    var db: Tables
    var tx: Tables

    constructor (cfg: Config)
      ensures this.cfg == cfg && db == EMPTY
    {
      this.cfg, db, tx := cfg, EMPTY, EMPTY;
    }

    // ---------------------------------------------------------------- reports

    method WriteBasicRows(day: Day, r: Report)
      modifies this`tx
      ensures tx == old(tx).(plain := WriteBasic(old(tx).plain, day, r))
    {
      var p := tx.plain;
      var basic := p.basic[day := AddBasic(BasicOf(p, day), r)];
      var version := Bump(p.version, Key(day, Whole, r.version));
      var fleet := p.fleet;
      var rows := [(Servers, r.servers), (Templates, r.templates)];
      for i := 0 to |rows|
        invariant i == 0 ==> fleet == p.fleet
        invariant i == 1 ==> fleet == Bump(p.fleet, Key(day, Servers, Min(r.servers, FLEET_CAP)))
        invariant i == 2 ==> fleet == WriteBasic(p, day, r).fleet
      {
        fleet := Bump(fleet, Key(day, rows[i].0, Min(rows[i].1, FLEET_CAP)));
      }
      tx := tx.(plain := Plain(basic, version, fleet, p.total + 1));
    }

    /** Counts one basic report, unless the transaction fails. */
    method RecordBasic(day: Day, r: Report, commits: bool) returns (ok: bool)
      modifies this
      ensures ok == commits
      ensures db == if commits then old(db).(plain := WriteBasic(old(db).plain, day, r)) else old(db)
    {
      tx := db;
      WriteBasicRows(day, r);
      if commits {
        db := tx;
      }
      return commits;
    }

    method DimRows(e: Extended) returns (dims: seq<(Dim, Name)>)
      ensures dims == Dims(e)
    {
      dims := [(Nodes, e.nodes), (Deployment, e.deployment), (Clusters, e.clusters), (Db, e.db), (Language, e.language)];
      var sets := [(K8s, e.k8s), (Distro, e.distro), (Arch, e.arch), (Tunnel, e.tunnels), (Feature, FeaturesOn(e))];
      SetsOf(e, sets);
      for i := 0 to |sets|
        invariant dims + TaggedFrom(sets, i) == Dims(e)
      {
        var tagged := TagAll(sets[i].0, sets[i].1);
        dims := dims + tagged;
      }
    }

    method TagAll(dim: Dim, values: seq<Name>) returns (rows: seq<(Dim, Name)>)
      ensures rows == Tagged(dim, values)
    {
      rows := [];
      for i := 0 to |values|
        invariant rows + Tagged(dim, values[i..]) == Tagged(dim, values)
      {
        assert values[i..][1..] == values[i + 1..];
        rows := rows + [(dim, values[i])];
      }
    }

    method BumpRows(day: Day, dims: seq<(Dim, Name)>)
      modifies this`tx
      ensures tx == old(tx).(installs := old(tx).installs.(dim := BumpAll(old(tx).installs.dim, day, dims)))
    {
      var start := tx.installs.dim;
      for i := 0 to |dims|
        invariant tx == old(tx).(installs := old(tx).installs.(dim := BumpAll(start, day, dims[..i])))
      {
        assert dims[..i + 1][..i] == dims[..i];
        tx := tx.(installs := tx.installs.(dim := Bump(tx.installs.dim, Key(day, dims[i].0, dims[i].1))));
      }
      assert dims[..|dims|] == dims;
    }

    method AddGameRows(t: map<Key<Whole, Name>, Game>, day: Day, games: map<Name, nat>) returns (game: map<Key<Whole, Name>, Game>)
      ensures game == AddGames(t, day, games)
    {
      game := t;
      var todo := games.Keys;
      NoGames(t, day, games);
      while todo != {}
        invariant todo <= games.Keys
        invariant game == AddGames(t, day, games - todo)
        decreases |todo|
      {
        var m :| m in todo;
        var k := Key(day, Whole, m);
        OneMoreGame(t, day, games, todo, m);
        game := game[k := AddGame(GameOf(game, k), games[m])];
        todo := todo - {m};
      }
      assert games - todo == games;
    }

    method WriteAggregates(day: Day, e: Extended, isNew: bool)
      modifies this`tx
      ensures tx == old(tx).(installs := WriteExtendedAggregates(old(tx).installs, day, e, isNew))
    {
      var p := tx.installs;
      tx := tx.(installs := p.(ext := p.ext[day := AddExt(ExtOf(p, day), isNew)]));
      var dims := DimRows(e);
      BumpRows(day, dims);
      var game := AddGameRows(tx.installs.game, day, Games(e));
      tx := tx.(installs := tx.installs.(game := game));
    }

    method WriteTrend(day: Day, prev: Option<Name>, next: Name)
      modifies this`tx
      ensures tx == old(tx).(installs := WriteVersionTrend(cfg, old(tx).installs, day, prev, next))
    {
      var p := tx.installs;
      p := p.(onVersion := Bump(p.onVersion, Key(day, Whole, next)));
      if prev.Some? {
        var kind := cfg.classify(prev.value, next);
        if kind.Some? {
          p := p.(change := Bump(p.change, Key(day, Whole, kind.value)));
        }
      }
      tx := tx.(installs := p);
    }

    /** Counts one extended report in one transaction; None stands for a storage failure. */
    method RecordReport(day: Day, r: Report, e: Extended, commits: bool) returns (out: Option<Outcome>)
      modifies this
      ensures var (s, o) := RecordExtended(cfg, old(db), day, r, e);
              if o.Refused? then db == old(db) && out == Some(o)
              else if commits then db == s && out == Some(o)
              else db == old(db) && out.None?
    {
      tx := db;
      var prev: Option<Name>;
      var row: Activity;
      if e.id !in tx.activity {
        prev := None;
        row := Activity(e.key, day, day, e.sentAt, r.version);
      } else {
        row := tx.activity[e.id];
        var refusal := CheckClaim(row, e.key, e.sentAt);
        if refusal.Some? {
          return Some(Refused(refusal.value));
        }
        if row.lastSeen >= day {
          tx := tx.(activity := tx.activity[e.id := row.(lastSent := e.sentAt)], plain := CountDuplicate(tx.plain, day));
          if !commits {
            return None;
          }
          db := tx;
          return Some(Duplicate);
        }
        prev := Some(row.version);
        row := row.(lastSeen := day, lastSent := e.sentAt, version := r.version);
      }
      CountReport(day, r, e, prev, row);
      if !commits {
        return None;
      }
      db := tx;
      return Some(if prev.None? then New else Returning);
    }

    method CountReport(day: Day, r: Report, e: Extended, prev: Option<Name>, row: Activity)
      modifies this`tx
      ensures tx == Count(cfg, old(tx), day, r, e, prev, row)
    {
      tx := tx.(activity := tx.activity[e.id := row]);
      WriteBasicRows(day, r);
      WriteAggregates(day, e, prev.None?);
      WriteTrend(day, prev, r.version);
    }

    // ---------------------------------------------------------------- the lifecycle job

    method ListPendingDays(through: Option<Day>, now: Time) returns (days: seq<Day>)
      ensures days == PendingDays(through, now)
    {
      var yesterday := DayOf(now) - 1;
      if through.None? {
        return [yesterday];
      }
      var first := through.value + 1;
      var earliest := yesterday + 1 - MAX_CATCHUP;
      if first < earliest {
        first := earliest;
      }
      days := [];
      var d := first;
      while d <= yesterday
        invariant d >= first && (d <= yesterday + 1 || d == first)
        invariant days == Range(first, d - 1)
        decreases yesterday - d
      {
        days := days + [d];
        d := d + 1;
      }
    }

    method RecordLapsedDays(days: seq<Day>)
      modifies this`tx
      ensures tx == old(tx).(installs := old(tx).installs.(ext := RecordAllLapsed(old(tx).installs.ext, old(tx).activity, days)))
    {
      var ext := tx.installs.ext;
      for i := 0 to |days|
        invariant ext == RecordAllLapsed(tx.installs.ext, tx.activity, days[..i])
      {
        assert days[..i + 1][..i] == days[..i];
        var n := |LastSeenOn(tx.activity, days[i] - LAPSED_WINDOW)|;
        if n != 0 {
          ext := ext[days[i] := (if days[i] in ext then ext[days[i]] else Ext(0, 0, 0, 0)).(lapsed := n)];
        }
      }
      assert days[..|days|] == days;
      tx := tx.(installs := tx.installs.(ext := ext));
    }

    method AdvanceMarker(days: seq<Day>)
      modifies this`tx
      ensures tx == old(tx).(through := Advance(old(tx).through, days))
    {
      if |days| > 0 {
        var last := days[|days| - 1];
        if tx.through.None? || last > tx.through.value {
          tx := tx.(through := Some(last));
        }
      }
    }

    method ExpireRecords(today: Day)
      modifies this`tx
      ensures tx == old(tx).(activity := Expire(old(tx).activity, cfg.expiry, today))
    {
      if cfg.expiry > 0 {
        var expiry := today - cfg.expiry;
        tx := tx.(activity := map id | id in tx.activity && tx.activity[id].lastSeen >= expiry :: tx.activity[id]);
      }
    }

    method SweepRows(today: Day)
      modifies this`tx
      ensures tx == old(tx).(plain := KeepPlain(cfg, old(tx).plain, today), installs := KeepInstalls(cfg, old(tx).installs, today))
    {
      if cfg.retention > 0 {
        var cutoff := today - cfg.retention;
        var plain, installs := RetainPlain(tx.plain, cutoff), RetainInstalls(tx.installs, cutoff);
        assert plain == KeepPlain(cfg, tx.plain, today) && installs == KeepInstalls(cfg, tx.installs, today);
        tx := tx.(plain := plain, installs := installs);
      }
    }

    /** One pass of the lifecycle job, unless its transaction fails. */
    method LifecycleOnce(now: Time, commits: bool) returns (ok: bool)
      modifies this
      ensures ok == commits
      ensures db == if commits then Lifecycle(cfg, old(db), now) else old(db)
    {
      var days := ListPendingDays(db.through, now);
      tx := db;
      AdvanceMarker(days);
      RecordLapsedDays(days);
      ExpireRecords(DayOf(now));
      SweepRows(DayOf(now));
      if commits {
        db := tx;
      }
      return commits;
    }
  }

  function TaggedFrom(sets: seq<(Dim, seq<Name>)>, i: nat): seq<(Dim, Name)>
    requires i <= |sets|
    decreases |sets| - i
  {
    if i == |sets| then [] else Tagged(sets[i].0, sets[i].1) + TaggedFrom(sets, i + 1)
  }

  lemma {:induction false} SetsOf(e: Extended, sets: seq<(Dim, seq<Name>)>)
    requires sets == [(K8s, e.k8s), (Distro, e.distro), (Arch, e.arch), (Tunnel, e.tunnels), (Feature, FeaturesOn(e))]
    ensures SingleDims(e) + TaggedFrom(sets, 0) == Dims(e)
  {
    assert TaggedFrom(sets, 5) == [];
    assert TaggedFrom(sets, 4) == Tagged(Feature, FeaturesOn(e));
    assert TaggedFrom(sets, 3) == Tagged(Tunnel, e.tunnels) + TaggedFrom(sets, 4);
    assert TaggedFrom(sets, 2) == Tagged(Arch, e.arch) + TaggedFrom(sets, 3);
    assert TaggedFrom(sets, 1) == Tagged(Distro, e.distro) + TaggedFrom(sets, 2);
  }

  lemma {:induction false} NoGames(t: map<Key<Whole, Name>, Game>, day: Day, games: map<Name, nat>)
    ensures AddGames(t, day, games - games.Keys) == t
  {
    assert games - games.Keys == map[];
    assert GameKeys(day, map[]) == {};
  }

  lemma {:induction false} OneMoreGame(t: map<Key<Whole, Name>, Game>, day: Day, games: map<Name, nat>, todo: set<Name>, m: Name)
    requires todo <= games.Keys && m in todo
    ensures var k := Key(day, Whole, m);
            var before := AddGames(t, day, games - todo);
            AddGames(t, day, games - (todo - {m})) == before[k := AddGame(GameOf(before, k), games[m])]
  {
    var a, b := games - todo, games - (todo - {m});
    assert b == a[m := games[m]];
    GameAdded(t, day, a, m, games[m]);
  }

  lemma {:induction false} WholeKey(k: Key<Whole, Name>)
    ensures k == Key(k.day, Whole, k.member)
  {
    assert k.series == Whole;
  }

  lemma {:induction false} GameAdded(t: map<Key<Whole, Name>, Game>, day: Day, a: map<Name, nat>, m: Name, n: nat)
    requires m !in a
    ensures var k := Key(day, Whole, m);
            var before := AddGames(t, day, a);
            AddGames(t, day, a[m := n]) == before[k := AddGame(GameOf(before, k), n)]
  {
    var k := Key(day, Whole, m);
    var b := a[m := n];
    GameKeysGrow(day, a, m, n);
    AddGamesAt(t, day, a, k);
    forall j | j in t.Keys + GameKeys(day, a) && j != k
      ensures AddGames(t, day, b)[j] == AddGames(t, day, a)[j]
    {
      WholeKey(j);
    }
  }

  lemma {:induction false} GameKeysGrow(day: Day, a: map<Name, nat>, m: Name, n: nat)
    ensures GameKeys(day, a[m := n]) == GameKeys(day, a) + {Key(day, Whole, m)}
  {
    var b := a[m := n];
    forall j | j in GameKeys(day, b)
      ensures j in GameKeys(day, a) + {Key(day, Whole, m)}
    {
      assert j.member in b && j == Key(day, Whole, j.member);
    }
    assert b.Keys == a.Keys + {m};
  }
}
