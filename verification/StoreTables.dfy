/**
 The tables of telemetry-receiver/store.go. A daily table is a map from its primary
 key to its counter columns; a day is a UTC day number and a time a count of
 nanoseconds since the epoch.
 */
module StoreTables {
  import opened Wrappers
  import opened Basics

  type Day = int
  type Time = int
  type Name = string

  const HOUR: int := 3_600_000_000_000
  const DAY: int := 86_400_000_000_000

  function DayOf(now: Time): Day { now / 86_400_000_000_000 }

  /** The primary key of a daily table: the day, the column that splits it, and the counted value. */
  datatype Key<S, M> = Key(day: Day, series: S, member: M)

  datatype Whole = Whole
  datatype Metric = Servers | Templates
  datatype Dim = K8s | Distro | Arch | Nodes | Deployment | Tunnel | Clusters | Db | Language | Feature

  type Table<S(==), M(==)> = map<Key<S, M>, nat>

  datatype Basic = Basic(reports: nat, duplicates: nat, servers: nat, templates: nat)
  datatype Ext = Ext(reports: nat, active: nat, newly: nat, lapsed: nat)
  datatype Game = Game(installs: nat, servers: nat)
  datatype Activity = Activity(key: Name, firstSeen: Day, lastSeen: Day, lastSent: Time, version: Name)

  /** What every report counts in. */
  datatype Plain = Plain(
    basic: map<Day, Basic>, version: Table<Whole, Name>, fleet: Table<Metric, nat>, total: nat)

  /** What an extended report also counts in. */
  datatype Installs = Installs(
    ext: map<Day, Ext>, dim: Table<Dim, Name>, game: map<Key<Whole, Name>, Game>,
    onVersion: Table<Whole, Name>, change: Table<Whole, Name>)

  datatype Tables = Tables(plain: Plain, installs: Installs, activity: map<Name, Activity>, through: Option<Day>)

  const EMPTY: Tables := Tables(Plain(map[], map[], map[], 0), Installs(map[], map[], map[], map[], map[]), map[], None)

  function BasicOf(p: Plain, day: Day): Basic { if day in p.basic then p.basic[day] else Basic(0, 0, 0, 0) }

  function ExtOf(p: Installs, day: Day): Ext { if day in p.ext then p.ext[day] else Ext(0, 0, 0, 0) }

  function GameOf(t: map<Key<Whole, Name>, Game>, k: Key<Whole, Name>): Game { if k in t then t[k] else Game(0, 0) }

  // ---------------------------------------------------------------- counting

  function Cell<S, M>(t: Table<S, M>, k: Key<S, M>): nat { if k in t then t[k] else 0 }

  /** Insert with one, or add one on conflict. */
  function Bump<S, M>(t: Table<S, M>, k: Key<S, M>): Table<S, M> { t[k := Cell(t, k) + 1] }

  function Share<S, M>(t: Table<S, M>, k: Key<S, M>, day: Day, series: S): nat
    requires k in t
  {
    if k.day == day && k.series == series then t[k] else 0
  }

  /** The sum of a day's rows in one series. */
  ghost function Total<S, M>(t: Table<S, M>, day: Day, series: S): nat
    decreases |t|
  {
    if t == map[] then 0
    else
      var k :| k in t;
      assert |t - {k}| < |t| by { Smaller(t, k); }
      Share(t, k, day, series) + Total(t - {k}, day, series)
  }

  /** The sum does not depend on which row is taken first. */
  lemma {:induction false} TotalOfAny<S, M>(t: Table<S, M>, day: Day, series: S, k: Key<S, M>)
    requires k in t
    ensures Total(t, day, series) == Share(t, k, day, series) + Total(t - {k}, day, series)
    decreases |t|
  {
    var j :| j in t && Total(t, day, series) == Share(t, j, day, series) + Total(t - {j}, day, series);
    if j != k {
      var a, b := t - {j}, t - {k};
      Smaller(t, j);
      Smaller(t, k);
      TotalOfAny(a, day, series, k);
      TotalOfAny(b, day, series, j);
      assert Share(a, k, day, series) == Share(t, k, day, series);
      assert Share(b, j, day, series) == Share(t, j, day, series);
      assert a - {k} == b - {j};
      assert Total(a - {k}, day, series) == Total(b - {j}, day, series);
    }
  }

  lemma {:induction false} BumpTotal<S, M>(t: Table<S, M>, k: Key<S, M>, day: Day, series: S)
    ensures Total(Bump(t, k), day, series) == Total(t, day, series) + if k.day == day && k.series == series then 1 else 0
  {
    var t' := Bump(t, k);
    TotalOfAny(t', day, series, k);
    if k in t {
      TotalOfAny(t, day, series, k);
      assert t' - {k} == t - {k};
    } else {
      assert t' - {k} == t;
    }
  }

  // ---------------------------------------------------------------- retention

  /** What `DELETE … WHERE day < cutoff` leaves. */
  function Since<S, M>(t: Table<S, M>, cutoff: Day): Table<S, M> { map k | k in t && k.day >= cutoff :: t[k] }

  lemma {:induction false} SinceTotal<S, M>(t: Table<S, M>, cutoff: Day, day: Day, series: S)
    ensures Total(Since(t, cutoff), day, series) == if day >= cutoff then Total(t, day, series) else 0
    decreases |t|
  {
    if t == map[] {
      assert Since(t, cutoff) == map[];
    } else {
      var k :| k in t;
      Smaller(t, k);
      TotalOfAny(t, day, series, k);
      SinceTotal(t - {k}, cutoff, day, series);
      var kept := Since(t, cutoff);
      if k.day >= cutoff {
        TotalOfAny(kept, day, series, k);
        assert kept - {k} == Since(t - {k}, cutoff);
      } else {
        assert kept == Since(t - {k}, cutoff);
      }
    }
  }
}
