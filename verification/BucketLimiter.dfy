/**
 The token-bucket limiter of telemetry-receiver/ratelimit.go. Times are seconds
 since the epoch and tokens are real numbers; the reference limiter beside it
 never purges and never evicts.
 */
module BucketLimiter {
  import opened Basics
  import opened DailyLimiter

  const IDLE_TTL := 600.0
  const SWEEP_EVERY := 60.0

  function DayOf(now: real): int { now.Floor / 86400 }

  datatype Bucket = Bucket(tokens: real, last: real)

  datatype Params = Params(rate: real, burst: real, max: nat)

  predicate ParamsOk(p: Params) { p.rate >= 0.0 && p.burst >= 0.0 && p.max > 0 }

  /** A bucket refills completely in the time after which an idle one is purged. */
  predicate Refills(p: Params) { p.burst <= Gain(p, IDLE_TTL) }

  function RMin(a: real, b: real): real { if a <= b then a else b }

  /** The tokens that come in during `elapsed`. */
  function Gain(p: Params, elapsed: real): real { elapsed * p.rate }

  /** What one request does to its bucket: refill for the time since the last one, then take a token if there is one. */
  function Refilled(p: Params, b: Bucket, now: real): Bucket {
    if now - b.last > 0.0 then Bucket(RMin(p.burst, b.tokens + Gain(p, now - b.last)), now) else b
  }

  function Draw(p: Params, b: Bucket, now: real): (Bucket, bool) {
    var r := Refilled(p, b, now);
    if r.tokens < 1.0 then (r, false) else (r.(tokens := r.tokens - 1.0), true)
  }

  // ---------------------------------------------------------------- the reference limiter

  type Buckets = map<Key, Bucket>

  function StartOf(p: Params, m: Buckets, key: Key, now: real): Bucket {
    if key in m then m[key] else Bucket(p.burst, now)
  }

  function PlainAllow(p: Params, m: Buckets, key: Key, now: real): (Buckets, bool) {
    var (b, ok) := Draw(p, StartOf(p, m, key, now), now);
    (m[key := b], ok)
  }

  datatype Request = Request(key: Key, now: real)

  function PlainAfter(p: Params, run: seq<Request>): Buckets {
    if run == [] then map[] else PlainAllow(p, PlainAfter(p, run[..|run| - 1]), run[|run| - 1].key, run[|run| - 1].now).0
  }

  function PlainAnswer(p: Params, run: seq<Request>, i: nat): bool
    requires i < |run|
  {
    PlainAllow(p, PlainAfter(p, run[..i]), run[i].key, run[i].now).1
  }

  predicate ClockRuns(run: seq<Request>) {
    forall i, j :: 0 <= i < j < |run| ==> run[i].now <= run[j].now
  }

  // ---------------------------------------------------------------- the limiter with sweeps and eviction

  datatype Throttle = Throttle(day: int, lastSweep: real, buckets: Buckets, lru: seq<Key>)

  predicate Idle(b: Bucket, now: real) { now - b.last >= IDLE_TTL }

  function NotIdle(m: Buckets, now: real): Buckets { map k | k in m && !Idle(m[k], now) :: m[k] }

  function KeepListed(lru: seq<Key>, m: Buckets): (r: seq<Key>) {
    if lru == [] then []
    else if lru[0] in m then [lru[0]] + KeepListed(lru[1..], m)
    else KeepListed(lru[1..], m)
  }

  /** Resets at UTC midnight; at most once a minute purges the buckets idle for ten minutes. */
  function Sweep(l: Throttle, now: real): Throttle {
    if DayOf(now) != l.day then Throttle(DayOf(now), now, map[], [])
    else if now - l.lastSweep < SWEEP_EVERY then l
    else
      var kept := NotIdle(l.buckets, now);
      Throttle(l.day, now, kept, KeepListed(l.lru, kept))
  }

  /** The tracked buckets when `key` is about to be served: with room made for it at capacity. */
  function MakeRoom(p: Params, l: Throttle, key: Key): Throttle {
    if key in l.buckets then l.(lru := [key] + Without(l.lru, key))
    else if |l.buckets| >= p.max && l.lru != [] then
      var last := |l.lru| - 1;
      l.(lru := [key] + l.lru[..last], buckets := l.buckets - {l.lru[last]})
    else l.(lru := [key] + l.lru)
  }

  function Allow(p: Params, l: Throttle, key: Key, now: real): (Throttle, bool) {
    var r := MakeRoom(p, Sweep(l, now), key);
    var (m, ok) := PlainAllow(p, r.buckets, key, now);
    (r.(buckets := m), ok)
  }

  function After(p: Params, start: Throttle, run: seq<Request>): Throttle {
    if run == [] then start else Allow(p, After(p, start, run[..|run| - 1]), run[|run| - 1].key, run[|run| - 1].now).0
  }

  function Answer(p: Params, start: Throttle, run: seq<Request>, i: nat): bool
    requires i < |run|
  {
    Allow(p, After(p, start, run[..i]), run[i].key, run[i].now).1
  }

  // ---------------------------------------------------------------- the purge is unobservable

  /** By time `t` the bucket has refilled completely. */
  predicate FullBy(p: Params, b: Bucket, t: real) {
    b.last < t && b.tokens + Gain(p, t - b.last) >= p.burst
  }

  predicate Sane(p: Params, m: Buckets, t: real) {
    forall k :: k in m ==> 0.0 <= m[k].tokens <= p.burst && m[k].last <= t
  }

  /** The tracked buckets agree with the reference, and every bucket only the reference still has is full. */
  predicate Agrees(p: Params, b: Buckets, m: Buckets, t: real) {
    && (forall k :: k in b ==> k in m && m[k] == b[k])
    && (forall k :: k in m && k !in b ==> FullBy(p, m[k], t))
  }

  lemma {:induction false} GainGrows(p: Params, a: real, b: real)
    requires ParamsOk(p) && a <= b
    ensures Gain(p, a) <= Gain(p, b)
  {
  }

  lemma {:induction false} GainAdds(p: Params, a: real, b: real)
    ensures Gain(p, a + b) == Gain(p, a) + Gain(p, b) && Gain(p, 0.0) == 0.0
  {
  }

  lemma {:induction false} FullStays(p: Params, b: Bucket, t: real, t': real)
    requires ParamsOk(p) && FullBy(p, b, t) && t <= t'
    ensures FullBy(p, b, t') && Refilled(p, b, t') == Bucket(p.burst, t')
  {
    GainGrows(p, t - b.last, t' - b.last);
  }

  lemma {:induction false} IdleIsFull(p: Params, b: Bucket, now: real)
    requires ParamsOk(p) && Refills(p) && b.tokens >= 0.0 && Idle(b, now)
    ensures FullBy(p, b, now)
  {
    GainGrows(p, IDLE_TTL, now - b.last);
  }

  /** A sweep on the same day keeps the agreement. */
  lemma {:induction false} SweepAgrees(p: Params, l: Throttle, m: Buckets, t: real, now: real)
    requires ParamsOk(p) && Refills(p) && t <= now && DayOf(now) == l.day
    requires Sane(p, m, t) && Agrees(p, l.buckets, m, t)
    ensures Agrees(p, Sweep(l, now).buckets, m, now) && Sweep(l, now).buckets.Keys <= l.buckets.Keys
  {
    forall k | k in m && k !in Sweep(l, now).buckets
      ensures FullBy(p, m[k], now)
    {
      if k in l.buckets {
        IdleIsFull(p, m[k], now);
      } else {
        FullStays(p, m[k], t, now);
      }
    }
  }

  /** With agreement, a request gets the same answer and the agreement goes on. */
  lemma {:induction false} RequestAgrees(p: Params, b: Buckets, m: Buckets, key: Key, now: real)
    requires ParamsOk(p) && Sane(p, m, now) && Agrees(p, b, m, now)
    ensures PlainAllow(p, b, key, now).1 == PlainAllow(p, m, key, now).1
    ensures Agrees(p, PlainAllow(p, b, key, now).0, PlainAllow(p, m, key, now).0, now)
    ensures Sane(p, PlainAllow(p, m, key, now).0, now)
  {
    if key in m && key !in b {
      FullStays(p, m[key], now, now);
      assert Refilled(p, Bucket(p.burst, now), now) == Bucket(p.burst, now);
    }
    DrawStaysSane(p, StartOf(p, m, key, now), now);
  }

  lemma {:induction false} DrawStaysSane(p: Params, b: Bucket, now: real)
    requires ParamsOk(p) && 0.0 <= b.tokens <= p.burst && b.last <= now
    ensures var b' := Draw(p, b, now).0; 0.0 <= b'.tokens <= p.burst && b'.last == now
  {
    GainAdds(p, 0.0, 0.0);
    GainGrows(p, 0.0, now - b.last);
  }

  function Keys(run: seq<Request>): set<Key> { set i | 0 <= i < |run| :: run[i].key }

  lemma {:induction false} KeysOfPrefix(run: seq<Request>)
    requires run != []
    ensures Keys(run) == Keys(run[..|run| - 1]) + {run[|run| - 1].key}
  {
    var init := run[..|run| - 1];
    forall k | k in Keys(run)
      ensures k in Keys(init) + {run[|run| - 1].key}
    {
      var i :| 0 <= i < |run| && run[i].key == k;
      assert i < |init| ==> init[i].key == k;
    }
    forall k | k in Keys(init)
      ensures k in Keys(run)
    {
      var i :| 0 <= i < |init| && init[i].key == k;
      assert run[i].key == k;
    }
  }

  predicate OneDay(run: seq<Request>, day: int) {
    forall i :: 0 <= i < |run| ==> DayOf(run[i].now) == day
  }

  /** Before its first request of a day a limiter holds nothing of that day. */
  predicate NewTo(l: Throttle, day: int) { l.day != day || l.buckets == map[] }

  /** Below capacity serving a request evicts nothing. */
  lemma {:induction false} NoEviction(p: Params, l: Throttle, key: Key, keys: set<Key>)
    requires l.buckets.Keys <= keys && key in keys && |keys| <= p.max
    ensures MakeRoom(p, l, key).buckets == l.buckets
  {
    if key !in l.buckets {
      SubsetSize(l.buckets.Keys + {key}, keys);
      assert |l.buckets| == |l.buckets.Keys|;
    }
  }

  lemma {:induction false} AfterStep(p: Params, start: Throttle, run: seq<Request>, j: nat)
    requires j < |run|
    ensures After(p, start, run[..j + 1]) == Allow(p, After(p, start, run[..j]), run[j].key, run[j].now).0
    ensures PlainAfter(p, run[..j + 1]) == PlainAllow(p, PlainAfter(p, run[..j]), run[j].key, run[j].now).0
  {
    assert run[..j + 1][..j] == run[..j];
  }

  lemma {:induction false} KeysStep(run: seq<Request>, j: nat)
    requires j < |run|
    ensures Keys(run[..j + 1]) == Keys(run[..j]) + {run[j].key} && |Keys(run[..j])| <= |Keys(run[..j + 1])|
  {
    assert run[..j + 1][..j] == run[..j];
    KeysOfPrefix(run[..j + 1]);
    SubsetSize(Keys(run[..j]), Keys(run[..j + 1]));
  }

  /** Below capacity a request gets the reference's answer and keeps the agreement. */
  lemma {:induction false} StepAgrees(p: Params, l: Throttle, m: Buckets, key: Key, now: real, keys: set<Key>)
    requires ParamsOk(p) && Sane(p, m, now) && Agrees(p, Sweep(l, now).buckets, m, now)
    requires m.Keys == keys && |keys + {key}| <= p.max
    ensures Allow(p, l, key, now).1 == PlainAllow(p, m, key, now).1
    ensures Allow(p, l, key, now).0.day == DayOf(now)
    ensures Agrees(p, Allow(p, l, key, now).0.buckets, PlainAllow(p, m, key, now).0, now)
    ensures Sane(p, PlainAllow(p, m, key, now).0, now) && PlainAllow(p, m, key, now).0.Keys == keys + {key}
  {
    NoEviction(p, Sweep(l, now), key, keys + {key});
    RequestAgrees(p, Sweep(l, now).buckets, m, key, now);
  }

  /** Over a run of one day with at most `max` sources, the limiter stays in agreement with the reference. */
  lemma {:induction false} RunAgrees(p: Params, start: Throttle, day: int, run: seq<Request>, n: nat, now: real)
    requires ParamsOk(p) && Refills(p)
    requires NewTo(start, day) && OneDay(run, day) && ClockRuns(run) && n <= |run|
    requires DayOf(now) == day && (n > 0 ==> run[n - 1].now <= now)
    requires |Keys(run[..n])| <= p.max
    ensures var m := PlainAfter(p, run[..n]);
            && Agrees(p, Sweep(After(p, start, run[..n]), now).buckets, m, now)
            && Sane(p, m, now) && m.Keys == Keys(run[..n])
  {
    if n > 0 {
      var last := run[n - 1];
      AfterStep(p, start, run, n - 1);
      KeysStep(run, n - 1);
      RunAgrees(p, start, day, run, n - 1, last.now);
      StepAgrees(p, After(p, start, run[..n - 1]), PlainAfter(p, run[..n - 1]), last.key, last.now, Keys(run[..n - 1]));
      SweepAgrees(p, After(p, start, run[..n]), PlainAfter(p, run[..n]), last.now, now);
    }
  }

  /**
   The purge is unobservable: on a day with at most `max` sources every request gets
   the answer of a limiter that never purges and never evicts, whenever ten minutes
   refill a bucket.
   */
  lemma {:induction false} PurgeIsUnobservable(p: Params, start: Throttle, day: int, run: seq<Request>, i: nat)
    requires ParamsOk(p) && Refills(p)
    requires NewTo(start, day) && OneDay(run, day) && ClockRuns(run) && i < |run|
    requires |Keys(run[..i + 1])| <= p.max
    ensures Answer(p, start, run, i) == PlainAnswer(p, run, i)
  {
    KeysStep(run, i);
    RunAgrees(p, start, day, run, i, run[i].now);
    StepAgrees(p, After(p, start, run[..i]), PlainAfter(p, run[..i]), run[i].key, run[i].now, Keys(run[..i]));
  }

  // ---------------------------------------------------------------- the rate bound

  /** What a source could draw at `t`. */
  function Level(p: Params, m: Buckets, k: Key, t: real): real {
    if k in m then RMin(p.burst, m[k].tokens + Gain(p, t - m[k].last)) else p.burst
  }

  lemma {:induction false} LevelGrows(p: Params, m: Buckets, k: Key, t: real, t': real)
    requires ParamsOk(p) && Sane(p, m, t) && t <= t'
    ensures Level(p, m, k, t') <= Level(p, m, k, t) + Gain(p, t' - t)
  {
    GainAdds(p, 0.0, 0.0);
    GainGrows(p, 0.0, t' - t);
    if k in m {
      GainAdds(p, t - m[k].last, t' - t);
      assert t' - m[k].last == (t - m[k].last) + (t' - t);
    }
  }

  lemma {:induction false} LevelDrops(p: Params, m: Buckets, key: Key, now: real, k: Key)
    requires ParamsOk(p) && Sane(p, m, now)
    ensures var (m', ok) := PlainAllow(p, m, key, now);
            && Sane(p, m', now)
            && Level(p, m', k, now) == Level(p, m, k, now) - if key == k && ok then 1.0 else 0.0
  {
    var b := StartOf(p, m, key, now);
    DrawStaysSane(p, b, now);
    GainAdds(p, 0.0, 0.0);
    GainGrows(p, 0.0, now - b.last);
  }

  lemma {:induction false} LevelIsNotNegative(p: Params, m: Buckets, k: Key, t: real)
    requires ParamsOk(p) && Sane(p, m, t)
    ensures Level(p, m, k, t) >= 0.0
  {
    if k in m {
      GainAdds(p, 0.0, 0.0);
    GainGrows(p, 0.0, t - m[k].last);
    }
  }

  /** A purge hands a source nothing it had not already regained. */
  lemma {:induction false} SweepLevel(p: Params, l: Throttle, k: Key, t: real, now: real)
    requires ParamsOk(p) && Refills(p) && Sane(p, l.buckets, t) && t <= now && DayOf(now) == l.day
    ensures var m := Sweep(l, now).buckets;
            Sane(p, m, now) && Level(p, m, k, now) <= Level(p, l.buckets, k, t) + Gain(p, now - t)
  {
    LevelGrows(p, l.buckets, k, t, now);
    if k in l.buckets && k !in Sweep(l, now).buckets {
      IdleIsFull(p, l.buckets[k], now);
    }
  }

  /** Request `n` pushes the source `k` out to make room for another. */
  predicate EvictedAt(p: Params, start: Throttle, run: seq<Request>, k: Key, n: nat)
    requires n < |run|
  {
    var l := Sweep(After(p, start, run[..n]), run[n].now);
    k in l.buckets && k !in MakeRoom(p, l, run[n].key).buckets
  }

  /** No request after `i` up to `j` pushes the source out. */
  predicate NotEvicted(p: Params, start: Throttle, run: seq<Request>, k: Key, i: nat, j: nat)
    requires j < |run|
    decreases j
  {
    i >= j || (!EvictedAt(p, start, run, k, j) && NotEvicted(p, start, run, k, i, j - 1))
  }

  /** How many of the requests i..j (both included) of source `k` are allowed. */
  function Allowed(p: Params, start: Throttle, run: seq<Request>, k: Key, i: nat, j: nat): nat
    requires i <= j < |run|
    decreases j
  {
    (if run[j].key == k && Answer(p, start, run, j) then 1 else 0)
    + if i == j then 0 else Allowed(p, start, run, k, i, j - 1)
  }

  /** Making room keeps every bucket it does not evict. */
  lemma {:induction false} RoomKeeps(p: Params, l: Throttle, key: Key, k: Key, now: real)
    requires Sane(p, l.buckets, now)
    ensures var m := MakeRoom(p, l, key).buckets;
            Sane(p, m, now) && (k in m ==> k in l.buckets && m[k] == l.buckets[k])
  {
  }

  /** One request on a sane day: the source's level falls by exactly the token it got. */
  lemma {:induction false} StepLevel(p: Params, l: Throttle, key: Key, now: real, k: Key)
    requires ParamsOk(p) && Sane(p, Sweep(l, now).buckets, now)
    ensures var (l', ok) := Allow(p, l, key, now);
            var swept := Sweep(l, now);
            && Sane(p, l'.buckets, now) && l'.day == DayOf(now)
            && ((k in swept.buckets && k !in MakeRoom(p, swept, key).buckets)
                || Level(p, l'.buckets, k, now) == Level(p, swept.buckets, k, now) - if key == k && ok then 1.0 else 0.0)
            && Level(p, l'.buckets, k, now) <= p.burst - if key == k && ok then 1.0 else 0.0
  {
    var swept := Sweep(l, now);
    RoomKeeps(p, swept, key, k, now);
    LevelDrops(p, MakeRoom(p, swept, key).buckets, key, now, k);
  }

  /** On every run of a day the buckets stay between empty and full. */
  lemma {:induction false} RunStaysSane(p: Params, start: Throttle, day: int, run: seq<Request>, n: nat)
    requires ParamsOk(p) && NewTo(start, day) && OneDay(run, day) && ClockRuns(run) && n < |run|
    ensures var l := After(p, start, run[..n]);
            && Sane(p, Sweep(l, run[n].now).buckets, run[n].now)
            && (n > 0 ==> Sane(p, l.buckets, run[n - 1].now) && l.day == day)
  {
    if n > 0 {
      RunStaysSane(p, start, day, run, n - 1);
      assert run[..n][..n - 1] == run[..n - 1];
      StepLevel(p, After(p, start, run[..n - 1]), run[n - 1].key, run[n - 1].now, run[n - 1].key);
    }
  }

  /** What has been allowed since `t0` plus what is left stays under the bound. */
  predicate Bounded(p: Params, l: Throttle, k: Key, t0: real, t: real, sum: int) {
    && l.day == DayOf(t) && Sane(p, l.buckets, t)
    && sum as real + Level(p, l.buckets, k, t) <= p.burst + Gain(p, t - t0)
  }

  function Got(p: Params, l: Throttle, r: Request, k: Key): nat {
    if r.key == k && Allow(p, l, r.key, r.now).1 then 1 else 0
  }

  lemma {:induction false} BoundStart(p: Params, l: Throttle, r: Request, k: Key)
    requires ParamsOk(p) && Sane(p, Sweep(l, r.now).buckets, r.now)
    ensures Bounded(p, Allow(p, l, r.key, r.now).0, k, r.now, r.now, Got(p, l, r, k))
  {
    StepLevel(p, l, r.key, r.now, k);
    GainAdds(p, 0.0, 0.0);
  }

  /** The bound carried over one more request. */
  lemma {:induction false} BoundStep(p: Params, l: Throttle, r: Request, k: Key, t0: real, t: real, sum: int)
    requires ParamsOk(p) && Refills(p) && l.day == DayOf(r.now) && t0 <= t <= r.now && Bounded(p, l, k, t0, t, sum)
    requires !(k in Sweep(l, r.now).buckets && k !in MakeRoom(p, Sweep(l, r.now), r.key).buckets)
    ensures Bounded(p, Allow(p, l, r.key, r.now).0, k, t0, r.now, sum + Got(p, l, r, k))
  {
    SweepLevel(p, l, k, t, r.now);
    StepLevel(p, l, r.key, r.now, k);
    GainAdds(p, t - t0, r.now - t);
    assert r.now - t0 == (t - t0) + (r.now - t);
  }

  lemma {:induction false} AllowedStep(p: Params, start: Throttle, run: seq<Request>, k: Key, i: nat, j: nat)
    requires i <= j < |run|
    ensures Allowed(p, start, run, k, i, j)
            == Got(p, After(p, start, run[..j]), run[j], k) + if i == j then 0 else Allowed(p, start, run, k, i, j - 1)
  {
  }

  /** What is allowed from `i` to `j` and what is left then. */
  predicate BoundedUpTo(p: Params, start: Throttle, run: seq<Request>, k: Key, i: nat, j: nat)
    requires i <= j < |run|
  {
    Bounded(p, After(p, start, run[..j + 1]), k, run[i].now, run[j].now, Allowed(p, start, run, k, i, j))
  }

  lemma {:induction false} BoundedAtFirst(p: Params, start: Throttle, day: int, run: seq<Request>, k: Key, i: nat)
    requires ParamsOk(p) && NewTo(start, day) && OneDay(run, day) && ClockRuns(run) && i < |run|
    ensures BoundedUpTo(p, start, run, k, i, i)
  {
    AfterStep(p, start, run, i);
    RunStaysSane(p, start, day, run, i);
    BoundStart(p, After(p, start, run[..i]), run[i], k);
  }

  lemma {:induction false} BoundedAtNext(p: Params, start: Throttle, run: seq<Request>, k: Key, i: nat, j: nat)
    requires ParamsOk(p) && Refills(p) && i <= j && j + 1 < |run| && run[i].now <= run[j].now <= run[j + 1].now
    requires DayOf(run[j].now) == DayOf(run[j + 1].now) && !EvictedAt(p, start, run, k, j + 1)
    requires BoundedUpTo(p, start, run, k, i, j)
    ensures BoundedUpTo(p, start, run, k, i, j + 1)
  {
    AfterStep(p, start, run, j + 1);
    AllowedStep(p, start, run, k, i, j + 1);
    BoundStep(p, After(p, start, run[..j + 1]), run[j + 1], k, run[i].now, run[j].now, Allowed(p, start, run, k, i, j));
  }

  lemma {:induction false} AllowedPlusLevel(p: Params, start: Throttle, day: int, run: seq<Request>, k: Key, i: nat, j: nat)
    requires ParamsOk(p) && Refills(p)
    requires NewTo(start, day) && OneDay(run, day) && ClockRuns(run) && i <= j < |run|
    requires NotEvicted(p, start, run, k, i, j)
    ensures BoundedUpTo(p, start, run, k, i, j)
    decreases j
  {
    if i < j {
      var before := j - 1;
      AllowedPlusLevel(p, start, day, run, k, i, before);
      BoundedAtNext(p, start, run, k, i, before);
    } else {
      BoundedAtFirst(p, start, day, run, k, i);
    }
  }

  /**
   Within a UTC day, from any request to any later one between which the source is not
   evicted, it is allowed at most burst plus rate times the time between them, sweeps
   included, whenever ten minutes refill a bucket.
   */
  lemma {:induction false} RateBound(p: Params, start: Throttle, day: int, run: seq<Request>, k: Key, i: nat, j: nat)
    requires ParamsOk(p) && Refills(p)
    requires NewTo(start, day) && OneDay(run, day) && ClockRuns(run) && i <= j < |run|
    requires NotEvicted(p, start, run, k, i, j)
    ensures Allowed(p, start, run, k, i, j) as real <= p.burst + Gain(p, run[j].now - run[i].now)
  {
    AllowedPlusLevel(p, start, day, run, k, i, j);
    LevelIsNotNegative(p, After(p, start, run[..j + 1]).buckets, k, run[j].now);
  }

  // ---------------------------------------------------------------- exactly which requests are allowed

  /** How many of the requests i..n (the last not included) of source `k` the reference allows. */
  function PlainTaken(p: Params, run: seq<Request>, k: Key, i: nat, n: nat): nat
    requires n <= |run|
    decreases n
  {
    if i >= n then 0
    else PlainTaken(p, run, k, i, n - 1) + if run[n - 1].key == k && PlainAnswer(p, run, n - 1) then 1 else 0
  }

  /** How much of the allowance that starts full with request `i` is left at `t`, before request `n`. */
  function Share(p: Params, run: seq<Request>, k: Key, i: nat, n: nat, t: real): real
    requires i < |run| && n <= |run|
  {
    p.burst + Gain(p, t - run[i].now) - PlainTaken(p, run, k, i, n) as real
  }

  /** The level at `t` is the least share of the source's own requests so far, and a full bucket at most. */
  ghost predicate LeastShare(p: Params, run: seq<Request>, k: Key, n: nat, t: real, level: real)
    requires n <= |run|
  {
    && level <= p.burst
    && (forall i: nat :: i < n && run[i].key == k ==> level <= Share(p, run, k, i, n, t))
    && (level == p.burst || exists i: nat :: i < n && run[i].key == k && level == Share(p, run, k, i, n, t))
  }

  /** A level at a later time: what came in since, up to a full bucket. */
  lemma {:induction false} LevelLater(p: Params, m: Buckets, k: Key, t: real, t': real)
    requires ParamsOk(p) && Sane(p, m, t) && t <= t'
    ensures Level(p, m, k, t') == RMin(p.burst, Level(p, m, k, t) + Gain(p, t' - t))
  {
    GainAdds(p, 0.0, 0.0);
    GainGrows(p, 0.0, t' - t);
    if k in m {
      GainAdds(p, t - m[k].last, t' - t);
      assert t' - m[k].last == (t - m[k].last) + (t' - t);
    }
  }

  /** A share after one more request and until a later time. */
  lemma {:induction false} ShareLater(p: Params, run: seq<Request>, k: Key, i: nat, n: nat, t': real, got: real)
    requires i <= n < |run|
    requires got == if run[n].key == k && PlainAnswer(p, run, n) then 1.0 else 0.0
    ensures Share(p, run, k, i, n + 1, t') == Share(p, run, k, i, n, run[n].now) + Gain(p, t' - run[n].now) - got
    ensures i == n ==> Share(p, run, k, i, n, run[n].now) == p.burst
  {
    GainAdds(p, run[n].now - run[i].now, t' - run[n].now);
    assert t' - run[i].now == (run[n].now - run[i].now) + (t' - run[n].now);
  }

  lemma {:induction false} LeastShareStep(p: Params, run: seq<Request>, k: Key, n: nat, t': real, level: real, got: real, level': real)
    requires ParamsOk(p) && n < |run| && run[n].now <= t'
    requires LeastShare(p, run, k, n, run[n].now, level)
    requires got == if run[n].key == k && PlainAnswer(p, run, n) then 1.0 else 0.0
    requires level' == RMin(p.burst, level - got + Gain(p, t' - run[n].now))
    ensures LeastShare(p, run, k, n + 1, t', level')
  {
    GainAdds(p, 0.0, 0.0);
    GainGrows(p, 0.0, t' - run[n].now);
    forall i: nat | i < n + 1 && run[i].key == k
      ensures level' <= Share(p, run, k, i, n + 1, t')
    {
      ShareLater(p, run, k, i, n, t', got);
    }
    if level' != p.burst {
      var i: nat := n;
      if level != p.burst {
        i :| i < n && run[i].key == k && level == Share(p, run, k, i, n, run[n].now);
      }
      ShareLater(p, run, k, i, n, t', got);
    }
  }

  lemma {:induction false} LevelIsLeastShare(p: Params, run: seq<Request>, k: Key, n: nat, t: real)
    requires ParamsOk(p) && ClockRuns(run) && n <= |run| && (n > 0 ==> run[n - 1].now <= t)
    ensures Sane(p, PlainAfter(p, run[..n]), t)
    ensures LeastShare(p, run, k, n, t, Level(p, PlainAfter(p, run[..n]), k, t))
  {
    if n > 0 {
      var now, m := run[n - 1].now, PlainAfter(p, run[..n - 1]);
      LevelIsLeastShare(p, run, k, n - 1, now);
      AfterStep(p, NEW, run, n - 1);
      LevelDrops(p, m, run[n - 1].key, now, k);
      LevelLater(p, PlainAfter(p, run[..n]), k, now, t);
      var got := if run[n - 1].key == k && PlainAnswer(p, run, n - 1) then 1.0 else 0.0;
      LeastShareStep(p, run, k, n - 1, t, Level(p, m, k, now), got, Level(p, PlainAfter(p, run[..n]), k, t));
    }
  }

  /** A request is allowed exactly when its source has a token. */
  lemma {:induction false} AllowedByLevel(p: Params, m: Buckets, k: Key, now: real)
    requires ParamsOk(p) && Sane(p, m, now)
    ensures PlainAllow(p, m, k, now).1 <==> Level(p, m, k, now) >= 1.0
  {
    GainAdds(p, 0.0, 0.0);
  }

  /** Allowing request `n` keeps the source within burst plus rate times time since request `i`. */
  predicate PlainFits(p: Params, run: seq<Request>, i: nat, n: nat)
    requires i <= n < |run|
  {
    PlainTaken(p, run, run[n].key, i, n) as real + 1.0 <= p.burst + (run[n].now - run[i].now) * p.rate
  }

  /**
   The reference limiter allows a request exactly when that keeps its source within burst plus
   rate times time since every one of its own requests: never more, and never less.
   */
  lemma {:induction false} PlainAnswersExactly(p: Params, run: seq<Request>, n: nat)
    requires ParamsOk(p) && ClockRuns(run) && n < |run|
    ensures PlainAnswer(p, run, n) <==> forall i: nat :: i <= n && run[i].key == run[n].key ==> PlainFits(p, run, i, n)
  {
    var k, now := run[n].key, run[n].now;
    LevelIsLeastShare(p, run, k, n, now);
    AllowedByLevel(p, PlainAfter(p, run[..n]), k, now);
    GainAdds(p, 0.0, 0.0);
    assert PlainFits(p, run, n, n) <==> p.burst >= 1.0;
    forall i: nat | i < n && run[i].key == k
      ensures PlainFits(p, run, i, n) <==> Share(p, run, k, i, n, now) >= 1.0
    {
    }
  }

  /** How many of the requests i..n (the last not included) of source `k` are allowed. */
  function Taken(p: Params, start: Throttle, run: seq<Request>, k: Key, i: nat, n: nat): nat
    requires n <= |run|
  {
    if i >= n then 0 else Allowed(p, start, run, k, i, n - 1)
  }

  predicate Fits(p: Params, start: Throttle, run: seq<Request>, i: nat, n: nat)
    requires i <= n < |run|
  {
    Taken(p, start, run, run[n].key, i, n) as real + 1.0 <= p.burst + (run[n].now - run[i].now) * p.rate
  }

  lemma {:induction false} TakenAgrees(p: Params, start: Throttle, day: int, run: seq<Request>, k: Key, i: nat, n: nat)
    requires ParamsOk(p) && Refills(p)
    requires NewTo(start, day) && OneDay(run, day) && ClockRuns(run) && n <= |run| && |Keys(run[..n])| <= p.max
    ensures Taken(p, start, run, k, i, n) == PlainTaken(p, run, k, i, n)
    decreases n
  {
    if i < n {
      var before := n - 1;
      KeysStep(run, before);
      TakenAgrees(p, start, day, run, k, i, before);
      PurgeIsUnobservable(p, start, day, run, before);
    }
  }

  /**
   On a day with at most `max` sources the limiter itself allows a request exactly when that keeps
   its source within burst plus rate times time since every one of its own requests of the day.
   */
  lemma {:induction false} AllowsExactly(p: Params, start: Throttle, day: int, run: seq<Request>, n: nat)
    requires ParamsOk(p) && Refills(p)
    requires NewTo(start, day) && OneDay(run, day) && ClockRuns(run) && n < |run| && |Keys(run[..n + 1])| <= p.max
    ensures Answer(p, start, run, n) <==> forall i: nat :: i <= n && run[i].key == run[n].key ==> Fits(p, start, run, i, n)
  {
    PurgeIsUnobservable(p, start, day, run, n);
    PlainAnswersExactly(p, run, n);
    KeysStep(run, n);
    forall i: nat | i <= n && run[i].key == run[n].key
      ensures Fits(p, start, run, i, n) <==> PlainFits(p, run, i, n)
    {
      TakenAgrees(p, start, day, run, run[n].key, i, n);
    }
  }

  // ---------------------------------------------------------------- the refill condition is exact

  /** Every request of every one-day run within capacity gets the answer of the limiter that never purges. */
  ghost predicate PurgeHidden(p: Params) {
    forall start: Throttle, day: int, run: seq<Request>, i: nat ::
      NewTo(start, day) && OneDay(run, day) && ClockRuns(run) && i < |run| && |Keys(run[..i + 1])| <= p.max ==>
        Answer(p, start, run, i) == PlainAnswer(p, run, i)
  }

  /** Every source of every one-day run stays under the bound while it is not evicted. */
  ghost predicate BoundHolds(p: Params) {
    forall start: Throttle, day: int, run: seq<Request>, k: Key, i: nat, j: nat ::
      NewTo(start, day) && OneDay(run, day) && ClockRuns(run) && i <= j < |run|
      && NotEvicted(p, start, run, k, i, j) ==>
        Allowed(p, start, run, k, i, j) as real <= p.burst + Gain(p, run[j].now - run[i].now)
  }

  /** One source drains a bucket of `b` tokens, waits ten minutes and asks as often again. */
  function TwoBursts(b: nat): (r: seq<Request>)
    ensures IsTwoBursts(r, b)
  {
    seq(2 * b, i => Request(0, if i < b then 0.0 else IDLE_TTL))
  }

  predicate IsTwoBursts(run: seq<Request>, b: nat) {
    |run| == 2 * b && forall i :: 0 <= i < |run| ==> run[i] == Request(0, if i < b then 0.0 else IDLE_TTL)
  }

  const NEW := Throttle(0, 0.0, map[], [])

  /** The limiter after the source drew at `now` until `left` tokens were left. */
  function Drawn(now: real, left: real): Throttle { Throttle(0, now, map[0 := Bucket(left, now)], [0]) }

  /** The limiter after `n` requests of the two bursts. */
  function BurstState(b: nat, n: nat): Throttle
    requires 1 <= n <= 2 * b
  {
    if n <= b then Drawn(0.0, (b - n) as real) else Drawn(IDLE_TTL, (2 * b - n) as real)
  }

  lemma {:induction false} PlainFirst(p: Params, now: real)
    requires p.burst >= 1.0
    ensures PlainAllow(p, map[], 0, now) == (map[0 := Bucket(p.burst - 1.0, now)], true)
  {
  }

  lemma {:induction false} PlainNext(p: Params, now: real, left: real)
    requires left >= 1.0
    ensures PlainAllow(p, map[0 := Bucket(left, now)], 0, now) == (map[0 := Bucket(left - 1.0, now)], true)
  {
    var m: Buckets := map[0 := Bucket(left, now)];
    assert m[0 := Bucket(left - 1.0, now)] == map[0 := Bucket(left - 1.0, now)];
  }

  /** A sweep that leaves no bucket, and the first token of a fresh one. */
  lemma {:induction false} FirstDraw(p: Params, l: Throttle, now: real)
    requires ParamsOk(p) && p.burst >= 1.0 && Sweep(l, now) == Throttle(0, now, map[], [])
    ensures Allow(p, l, 0, now) == (Drawn(now, p.burst - 1.0), true)
  {
    PlainFirst(p, now);
    var swept := Throttle(0, now, map[], []);
    assert MakeRoom(p, swept, 0) == Throttle(0, now, map[], [0]) by {
      assert [0] + [] == [0];
    }
  }

  lemma {:induction false} NextDraw(p: Params, now: real, left: real)
    requires left >= 1.0 && DayOf(now) == 0
    ensures Allow(p, Drawn(now, left), 0, now) == (Drawn(now, left - 1.0), true)
  {
    var l := Drawn(now, left);
    assert Sweep(l, now) == l;
    assert Without([0], 0) == [];
    assert MakeRoom(p, l, 0) == l;
    PlainNext(p, now, left);
  }

  /** After ten minutes the drained bucket is purged. */
  lemma {:induction false} DrainedIsPurged(left: real)
    ensures Sweep(Drawn(0.0, left), IDLE_TTL) == Throttle(0, IDLE_TTL, map[], [])
  {
    var l := Drawn(0.0, left);
    assert DayOf(IDLE_TTL) == 0;
    assert NotIdle(l.buckets, IDLE_TTL) == map[];
    assert KeepListed([0], map[]) == KeepListed([], map[]);
  }

  lemma {:induction false} BurstStep(p: Params, b: nat, n: nat)
    requires ParamsOk(p) && p.burst == b as real && 1 <= n < 2 * b
    ensures Allow(p, BurstState(b, n), 0, if n < b then 0.0 else IDLE_TTL) == (BurstState(b, n + 1), true)
  {
    assert DayOf(0.0) == 0 && DayOf(IDLE_TTL) == 0;
    if n == b {
      DrainedIsPurged(0.0);
      FirstDraw(p, Drawn(0.0, 0.0), IDLE_TTL);
    } else if n < b {
      NextDraw(p, 0.0, (b - n) as real);
    } else {
      NextDraw(p, IDLE_TTL, (2 * b - n) as real);
    }
  }

  /** Every request of the two bursts is allowed. */
  lemma {:induction false} BurstsAllowed(p: Params, run: seq<Request>, b: nat, n: nat)
    requires ParamsOk(p) && p.burst == b as real && IsTwoBursts(run, b) && n < 2 * b
    ensures Answer(p, NEW, run, n) && After(p, NEW, run[..n + 1]) == BurstState(b, n + 1)
  {
    AfterStep(p, NEW, run, n);
    if n == 0 {
      assert run[..0] == [];
      FirstDraw(p, NEW, 0.0);
    } else {
      BurstsAllowed(p, run, b, n - 1);
      BurstStep(p, b, n);
    }
  }

  lemma {:induction false} BurstsCount(p: Params, run: seq<Request>, b: nat, j: nat)
    requires ParamsOk(p) && p.burst == b as real && IsTwoBursts(run, b) && j < 2 * b
    ensures Allowed(p, NEW, run, 0, 0, j) == j + 1
  {
    BurstsAllowed(p, run, b, j);
    if j > 0 {
      BurstsCount(p, run, b, j - 1);
    }
  }

  lemma {:induction false} PlainFirstBurst(p: Params, run: seq<Request>, b: nat, n: nat)
    requires p.burst == b as real && IsTwoBursts(run, b) && n < b
    ensures PlainAfter(p, run[..n + 1]) == map[0 := Bucket((b - 1 - n) as real, 0.0)]
  {
    AfterStep(p, NEW, run, n);
    if n == 0 {
      assert run[..0] == [];
      PlainFirst(p, 0.0);
    } else {
      PlainFirstBurst(p, run, b, n - 1);
      PlainNext(p, 0.0, (b - n) as real);
    }
  }

  /** What the source has at the start of a request in the second burst is less than `most`, so a token later less than one less. */
  predicate LeftAt(p: Params, m: Buckets, most: real) {
    0 in m && m[0].last <= IDLE_TTL && 0.0 <= Refilled(p, m[0], IDLE_TTL).tokens < most
  }

  lemma {:induction false} LeftFalls(p: Params, m: Buckets, most: real)
    requires LeftAt(p, m, most) && most >= 2.0
    ensures LeftAt(p, PlainAllow(p, m, 0, IDLE_TTL).0, most - 1.0)
  {
  }

  /** A limiter that never purges hands out what ten minutes brought in, which is less than a full bucket. */
  lemma {:induction false} PlainSecondBurst(p: Params, run: seq<Request>, b: nat, n: nat)
    requires ParamsOk(p) && p.burst == b as real && !Refills(p) && IsTwoBursts(run, b) && 1 <= b <= n < 2 * b
    ensures LeftAt(p, PlainAfter(p, run[..n]), (2 * b - n) as real)
  {
    if n == b {
      PlainFirstBurst(p, run, b, b - 1);
      GainAdds(p, 0.0, 0.0);
      GainGrows(p, 0.0, IDLE_TTL);
    } else {
      PlainSecondBurst(p, run, b, n - 1);
      AfterStep(p, NEW, run, n - 1);
      LeftFalls(p, PlainAfter(p, run[..n - 1]), (2 * b - n + 1) as real);
    }
  }

  lemma {:induction false} PlainRefusesLast(p: Params, run: seq<Request>, b: nat)
    requires ParamsOk(p) && p.burst == b as real && !Refills(p) && IsTwoBursts(run, b) && b >= 1
    ensures !PlainAnswer(p, run, 2 * b - 1)
  {
    PlainSecondBurst(p, run, b, 2 * b - 1);
  }

  lemma {:induction false} BurstsAreOneDay(run: seq<Request>, b: nat)
    requires IsTwoBursts(run, b)
    ensures OneDay(run, 0) && ClockRuns(run) && NewTo(NEW, 0) && |Keys(run)| <= 1
  {
    assert DayOf(0.0) == 0 && DayOf(IDLE_TTL) == 0;
    SubsetSize(Keys(run), {0});
  }

  /** Without the refill the purge shows: the last request of the two bursts is allowed and should not be. */
  lemma {:induction false} PurgeShowsWithoutRefill(p: Params, b: nat)
    requires ParamsOk(p) && b >= 1 && p.burst == b as real && !Refills(p)
    ensures var run, last := TwoBursts(b), 2 * b - 1;
            && OneDay(run, 0) && ClockRuns(run) && NewTo(NEW, 0) && |Keys(run)| <= 1
            && Answer(p, NEW, run, last) && !PlainAnswer(p, run, last)
    ensures !PurgeHidden(p)
  {
    var run, last := TwoBursts(b), 2 * b - 1;
    BurstsAreOneDay(run, b);
    BurstsAllowed(p, run, b, last);
    PlainRefusesLast(p, run, b);
    assert run[..last + 1] == run;
    assert Answer(p, NEW, run, last) != PlainAnswer(p, run, last);
  }

  /** And a source that is never evicted gets past the bound: two full buckets within ten minutes. */
  lemma {:induction false} BoundFailsWithoutRefill(p: Params, b: nat)
    requires ParamsOk(p) && b >= 1 && p.burst == b as real && !Refills(p)
    ensures var run, last := TwoBursts(b), 2 * b - 1;
            && OneDay(run, 0) && ClockRuns(run) && NewTo(NEW, 0) && NotEvicted(p, NEW, run, 0, 0, last)
            && Allowed(p, NEW, run, 0, 0, last) == 2 * b && (2 * b) as real > p.burst + Gain(p, run[last].now - run[0].now)
    ensures !BoundHolds(p)
  {
    var run, last := TwoBursts(b), 2 * b - 1;
    BurstsAreOneDay(run, b);
    BurstsCount(p, run, b, last);
    AloneIsNotEvicted(p, NEW, run, b, last);
    BoundIsBroken(p, NEW, 0, run, 0, 0, last);
  }

  lemma {:induction false} BoundIsBroken(p: Params, start: Throttle, day: int, run: seq<Request>, k: Key, i: nat, j: nat)
    requires NewTo(start, day) && OneDay(run, day) && ClockRuns(run) && i <= j < |run| && NotEvicted(p, start, run, k, i, j)
    requires Allowed(p, start, run, k, i, j) as real > p.burst + Gain(p, run[j].now - run[i].now)
    ensures !BoundHolds(p)
  {
  }

  lemma {:induction false} AloneIsNotEvicted(p: Params, start: Throttle, run: seq<Request>, b: nat, j: nat)
    requires IsTwoBursts(run, b) && j < 2 * b
    ensures NotEvicted(p, start, run, 0, 0, j)
  {
    if j > 0 {
      AloneIsNotEvicted(p, start, run, b, j - 1);
    }
  }

  /**
   Both properties hold exactly when ten minutes refill a bucket, for every limiter with
   a whole burst of at least one, as every limiter is built.
   */
  lemma {:induction false} RefillIsExact(p: Params, b: nat)
    requires ParamsOk(p) && b >= 1 && p.burst == b as real
    ensures PurgeHidden(p) <==> Refills(p)
    ensures BoundHolds(p) <==> Refills(p)
  {
    if Refills(p) {
      forall start: Throttle, day: int, run: seq<Request>, i: nat |
        NewTo(start, day) && OneDay(run, day) && ClockRuns(run) && i < |run| && |Keys(run[..i + 1])| <= p.max
        ensures Answer(p, start, run, i) == PlainAnswer(p, run, i)
      {
        PurgeIsUnobservable(p, start, day, run, i);
      }
      forall start: Throttle, day: int, run: seq<Request>, k: Key, i: nat, j: nat |
        NewTo(start, day) && OneDay(run, day) && ClockRuns(run) && i <= j < |run|
        && NotEvicted(p, start, run, k, i, j)
        ensures Allowed(p, start, run, k, i, j) as real <= p.burst + Gain(p, run[j].now - run[i].now)
      {
        RateBound(p, start, day, run, k, i, j);
      }
    } else {
      PurgeShowsWithoutRefill(p, b);
      BoundFailsWithoutRefill(p, b);
    }
  }

  /** The three limiters the receiver builds (summary, challenge, login) refill within ten minutes. */
  lemma {:induction false} BuiltLimitersRefill(perMinute: int, burst: int)
    requires (perMinute, burst) in {(60, 10), (10, 5), (5, 5)}
    ensures Refills(Params(perMinute as real / 60.0, burst as real, 1))
  {
    assert perMinute as real == 60.0 || perMinute as real == 10.0 || perMinute as real == 5.0;
    assert 10.0 <= (60.0 / 60.0) * 600.0 && 5.0 <= (10.0 / 60.0) * 600.0 && 5.0 <= (5.0 / 60.0) * 600.0;
  }

  // ---------------------------------------------------------------- eviction

  function Log(run: seq<Request>): (log: seq<Key>)
    ensures |log| == |run|
  {
    if run == [] then [] else Log(run[..|run| - 1]) + [run[|run| - 1].key]
  }

  /** `x` asked after the last request of `y`. */
  predicate AskedAfter(log: seq<Key>, x: Key, y: Key) { y in log && x in SinceLast(log, y) }

  /** Every source in the list asked after the last request of each one behind it. */
  predicate RecentFirst(lru: seq<Key>, log: seq<Key>) {
    lru == [] || ((forall y :: y in lru[1..] ==> AskedAfter(log, lru[0], y)) && lru[0] in log && RecentFirst(lru[1..], log))
  }

  predicate Listed(l: Throttle) { l.buckets.Keys == Elements(l.lru) && Distinct(l.lru) }

  lemma {:induction false} RecentInLog(lru: seq<Key>, log: seq<Key>, x: Key)
    requires RecentFirst(lru, log) && x in lru
    ensures x in log
  {
    if x != lru[0] {
      assert lru == [lru[0]] + lru[1..];
      RecentInLog(lru[1..], log, x);
    }
  }

  lemma {:induction false} RecentWithout(lru: seq<Key>, log: seq<Key>, k: Key)
    requires RecentFirst(lru, log)
    ensures RecentFirst(Without(lru, k), log)
  {
    if lru != [] {
      RecentWithout(lru[1..], log, k);
      if lru[0] != k {
        assert Without(lru, k)[1..] == Without(lru[1..], k);
      }
    }
  }

  lemma {:induction false} RecentKept(lru: seq<Key>, log: seq<Key>, m: Buckets)
    requires RecentFirst(lru, log)
    ensures RecentFirst(KeepListed(lru, m), log) && forall x :: x in KeepListed(lru, m) ==> x in lru
  {
    if lru != [] {
      RecentKept(lru[1..], log, m);
      assert lru == [lru[0]] + lru[1..];
      if lru[0] in m {
        assert KeepListed(lru, m)[1..] == KeepListed(lru[1..], m);
      }
    }
  }

  lemma {:induction false} RecentFront(lru: seq<Key>, log: seq<Key>, n: nat)
    requires RecentFirst(lru, log) && n <= |lru|
    ensures RecentFirst(lru[..n], log)
  {
    if n > 0 {
      RecentFront(lru[1..], log, n - 1);
      assert lru[..n][1..] == lru[1..][..n - 1];
    }
  }

  lemma {:induction false} SinceLastMore(log: seq<Key>, key: Key, y: Key)
    requires y in log && y != key
    ensures SinceLast(log + [key], y) == SinceLast(log, y) + [key]
  {
    assert (log + [key])[..|log|] == log;
  }

  /** One more request puts its source before all the others. */
  lemma {:induction false} RecentMore(lru: seq<Key>, log: seq<Key>, key: Key)
    requires RecentFirst(lru, log) && key !in lru
    ensures RecentFirst(lru, log + [key])
    ensures forall y :: y in lru ==> AskedAfter(log + [key], key, y)
  {
    if lru != [] {
      assert lru == [lru[0]] + lru[1..];
      RecentMore(lru[1..], log, key);
      SinceLastMore(log, key, lru[0]);
      forall y | y in lru[1..]
        ensures AskedAfter(log + [key], lru[0], y)
      {
        SinceLastMore(log, key, y);
      }
    }
  }

  lemma {:induction false} RecentCons(lru: seq<Key>, log: seq<Key>, key: Key)
    requires RecentFirst(lru, log) && key !in lru
    ensures RecentFirst([key] + lru, log + [key])
  {
    RecentMore(lru, log, key);
    assert ([key] + lru)[1..] == lru;
  }

  lemma {:induction false} RoomIsRecent(p: Params, l: Throttle, key: Key, log: seq<Key>)
    requires ParamsOk(p) && Listed(l) && RecentFirst(l.lru, log)
    ensures RecentFirst(MakeRoom(p, l, key).lru, log + [key])
  {
    if key in l.buckets {
      RecentWithout(l.lru, log, key);
      RecentCons(Without(l.lru, key), log, key);
    } else if |l.buckets| >= p.max {
      ListNotEmpty(l.buckets, l.lru);
      RecentFront(l.lru, log, |l.lru| - 1);
      RecentCons(l.lru[..|l.lru| - 1], log, key);
    } else {
      RecentCons(l.lru, log, key);
    }
  }

  lemma {:induction false} SweptIsListed(l: Throttle, now: real, log: seq<Key>)
    requires Listed(l) && RecentFirst(l.lru, log)
    ensures Listed(Sweep(l, now)) && RecentFirst(Sweep(l, now).lru, log)
  {
    var kept := NotIdle(l.buckets, now);
    RecentKept(l.lru, log, kept);
    KeepListedValid(l.lru, l.buckets, kept);
  }

  lemma {:induction false} AllowIsListed(p: Params, l: Throttle, key: Key, now: real, log: seq<Key>)
    requires ParamsOk(p) && Listed(l) && RecentFirst(l.lru, log)
    ensures var l' := Allow(p, l, key, now).0; Listed(l') && RecentFirst(l'.lru, log + [key])
  {
    SweptIsListed(l, now, log);
    RoomValid(p, Sweep(l, now), key);
    RoomIsRecent(p, Sweep(l, now), key, log);
  }

  /** On every run, from an empty list, the sources are listed by their last request. */
  lemma {:induction false} RunIsListed(p: Params, start: Throttle, run: seq<Request>, n: nat)
    requires ParamsOk(p) && start.buckets == map[] && start.lru == [] && n <= |run|
    ensures var l := After(p, start, run[..n]); Listed(l) && RecentFirst(l.lru, Log(run[..n]))
  {
    if n > 0 {
      var r := run[n - 1];
      RunIsListed(p, start, run, n - 1);
      AfterStep(p, start, run, n - 1);
      AllowIsListed(p, After(p, start, run[..n - 1]), r.key, r.now, Log(run[..n - 1]));
      LogStep(run, n - 1);
    }
  }

  lemma {:induction false} LastIsOldest(lru: seq<Key>, log: seq<Key>, i: nat)
    requires RecentFirst(lru, log) && i + 1 < |lru|
    ensures AskedAfter(log, lru[i], lru[|lru| - 1])
  {
    if i > 0 {
      LastIsOldest(lru[1..], log, i - 1);
    }
  }

  /** The sources in front of the last one, and the new one, all asked since its last request. */
  lemma {:induction false} OthersAskedSince(lru: seq<Key>, log: seq<Key>, key: Key)
    requires RecentFirst(lru, log) && Distinct(lru) && key !in lru && lru != []
    ensures var k := lru[|lru| - 1];
            k in log && |Elements(SinceLast(log + [key], k))| >= |lru|
  {
    var last := |lru| - 1;
    var k, front := lru[last], lru[..last] + [key];
    RecentInLog(lru, log, k);
    SinceLastMore(log, key, k);
    forall x | x in front
      ensures x in SinceLast(log + [key], k)
    {
      if x != key {
        var i :| 0 <= i < last && lru[i] == x;
        LastIsOldest(lru, log, i);
      }
    }
    assert Distinct(front);
    DistinctCardinality(front);
    SubsetSize(Elements(front), Elements(SinceLast(log + [key], k)));
  }

  /** Only the last source of a full list is pushed out, and only by a new one. */
  lemma {:induction false} VictimIsLast(p: Params, l: Throttle, key: Key, k: Key)
    requires ParamsOk(p) && Listed(l) && k in l.buckets && k !in MakeRoom(p, l, key).buckets
    ensures key !in l.buckets && l.lru != [] && k == l.lru[|l.lru| - 1] && |l.lru| >= p.max
  {
    DistinctCardinality(l.lru);
    assert |l.buckets| == |l.buckets.Keys|;
  }

  lemma {:induction false} VictimIsOld(p: Params, l: Throttle, log: seq<Key>, r: Request, k: Key)
    requires ParamsOk(p) && Listed(l) && RecentFirst(l.lru, log)
    requires k in Sweep(l, r.now).buckets && k !in MakeRoom(p, Sweep(l, r.now), r.key).buckets
    ensures k in log && |Elements(SinceLast(log + [r.key], k))| >= p.max
  {
    SweptIsListed(l, r.now, log);
    VictimIsLast(p, Sweep(l, r.now), r.key, k);
    OthersAskedSince(Sweep(l, r.now).lru, log, r.key);
  }

  lemma {:induction false} LogStep(run: seq<Request>, j: nat)
    requires j < |run|
    ensures Log(run[..j + 1]) == Log(run[..j]) + [run[j].key]
  {
    assert run[..j + 1][..j] == run[..j];
  }

  /** A source is pushed out only when at least `max` other sources have asked since its own last request. */
  lemma {:induction false} EvictionNeedsMaxOthers(p: Params, start: Throttle, run: seq<Request>, k: Key, j: nat, log: seq<Key>)
    requires ParamsOk(p) && start.buckets == map[] && start.lru == [] && j < |run| && EvictedAt(p, start, run, k, j)
    requires log == Log(run[..j + 1])
    ensures k in log && |Elements(SinceLast(log, k))| >= p.max
  {
    RunIsListed(p, start, run, j);
    LogStep(run, j);
    VictimIsOld(p, After(p, start, run[..j]), Log(run[..j]), run[j], k);
  }

  // ---------------------------------------------------------------- what stays tracked

  /** Swept within the last minute, and every source asked less than ten minutes before that sweep or after it, on this day. */
  predicate Fresh(p: Params, l: Throttle, t: real) {
    && |l.buckets| <= p.max && DayOf(t) == l.day && l.lastSweep <= t < l.lastSweep + 60.0
    && forall k :: k in l.buckets ==>
         l.lastSweep - l.buckets[k].last < 600.0 && l.buckets[k].last <= t && DayOf(l.buckets[k].last) == l.day
  }

  lemma {:induction false} SweepIsFresh(p: Params, l: Throttle, t: real, now: real)
    requires Fresh(p, l, t) && t <= now
    ensures Fresh(p, Sweep(l, now), now)
  {
    if DayOf(now) == l.day && now - l.lastSweep >= 60.0 {
      assert NotIdle(l.buckets, now).Keys <= l.buckets.Keys;
      SubsetSize(NotIdle(l.buckets, now).Keys, l.buckets.Keys);
    }
  }

  lemma {:induction false} RequestIsFresh(p: Params, l: Throttle, key: Key, now: real)
    requires ParamsOk(p) && Listed(l) && Fresh(p, l, now)
    ensures var r := MakeRoom(p, l, key); Fresh(p, r.(buckets := PlainAllow(p, r.buckets, key, now).0), now)
  {
    var r := MakeRoom(p, l, key);
    var m := PlainAllow(p, r.buckets, key, now).0;
    if key !in l.buckets {
      if |l.buckets| >= p.max {
        ListNotEmpty(l.buckets, l.lru);
        assert r.buckets.Keys == l.buckets.Keys - {l.lru[|l.lru| - 1]};
        assert |l.buckets| == |l.buckets.Keys|;
      }
      assert |m| == |m.Keys| && |r.buckets| == |r.buckets.Keys|;
      assert m.Keys == r.buckets.Keys + {key};
    } else {
      assert m.Keys == l.buckets.Keys;
      assert |m| == |m.Keys| && |l.buckets| == |l.buckets.Keys|;
    }
  }

  /**
   On every run a limiter tracks at most `max` sources, each of which asked on this UTC day and
   less than eleven minutes ago.
   */
  lemma {:induction false} TrackedIsRecent(p: Params, start: Throttle, run: seq<Request>, n: nat)
    requires ParamsOk(p) && start.buckets == map[] && start.lru == [] && ClockRuns(run) && n < |run|
    requires start.lastSweep <= run[0].now
    ensures var l := After(p, start, run[..n + 1]);
            && |l.buckets| <= p.max && Fresh(p, l, run[n].now)
            && forall k :: k in l.buckets ==>
                 DayOf(l.buckets[k].last) == DayOf(run[n].now) && 0.0 <= run[n].now - l.buckets[k].last < 660.0
  {
    var l, now := After(p, start, run[..n]), run[n].now;
    RunIsListed(p, start, run, n);
    AfterStep(p, start, run, n);
    SweptIsListed(l, now, Log(run[..n]));
    if n > 0 {
      TrackedIsRecent(p, start, run, n - 1);
      SweepIsFresh(p, l, run[n - 1].now, now);
    } else {
      assert run[..0] == [];
      assert NotIdle(map[], now) == map[];
    }
    RequestIsFresh(p, Sweep(l, now), run[n].key, now);
  }

  // ---------------------------------------------------------------- the code

  class BucketLimits {
    const p: Params
    var day: int
    var lastSweep: real
    var buckets: Buckets
    var lru: seq<Key>

    ghost predicate Valid()
      reads this
    {
      ParamsOk(p) && buckets.Keys == Elements(lru) && Distinct(lru)
    }

    ghost function State(): Throttle
      reads this
    {
      Throttle(day, lastSweep, buckets, lru)
    }

    constructor (p: Params, day: int, now: real)
      requires ParamsOk(p)
      ensures Valid() && State() == Throttle(day, now, map[], []) && this.p == p
    {
      this.p, this.day, lastSweep := p, day, now;
      buckets, lru := map[], [];
    }

    method SweepIdle(now: real)
      requires Valid()
      modifies this
      ensures Valid() && State() == Sweep(old(State()), now)
    {
      if DayOf(now) != day {
        day, lastSweep, buckets, lru := DayOf(now), now, map[], [];
        return;
      }
      if now - lastSweep < SWEEP_EVERY {
        return;
      }
      lastSweep := now;
      PurgeIdle(now);
    }

    method PurgeIdle(now: real)
      requires Valid()
      modifies this`buckets, this`lru
      ensures Valid()
      ensures buckets == NotIdle(old(buckets), now) && lru == KeepListed(old(lru), buckets)
    {
      ghost var list := lru;
      var all := buckets;
      var todo := all.Keys;
      KeepListedAll(list, all);
      while todo != {}
        invariant todo <= all.Keys
        invariant buckets == PurgedExcept(all, todo, now)
        invariant lru == KeepListed(list, buckets)
        decreases |todo|
      {
        var k :| k in todo;
        PurgeOne(list, all, todo, k, now, buckets);
        todo := todo - {k};
        if now - all[k].last >= IDLE_TTL {
          lru := Without(lru, k);
          buckets := buckets - {k};
        }
      }
      KeepListedValid(list, all, buckets);
    }

    /** Lists `key` first, evicting the last source when a new one finds the limiter full. */
    method Admit(key: Key)
      requires Valid()
      modifies this`buckets, this`lru
      ensures State() == MakeRoom(p, old(State()), key)
      ensures buckets.Keys + {key} == Elements(lru) && Distinct(lru)
    {
      RoomValid(p, State(), key);
      if key !in buckets {
        if |buckets| >= p.max {
          ListNotEmpty(buckets, lru);
          var last := |lru| - 1;
          buckets, lru := buckets - {lru[last]}, lru[..last];
        }
        lru := [key] + lru;
      } else {
        lru := [key] + Without(lru, key);
      }
    }

    /** Takes one token for `key` and reports whether one was left. */
    method AllowOne(key: Key, now: real) returns (ok: bool)
      requires Valid()
      modifies this
      ensures Valid() && (State(), ok) == Allow(p, old(State()), key, now)
    {
      SweepIdle(now);
      Admit(key);
      var b := StartOf(p, buckets, key, now);
      ok := DrawFrom(key, b, now);
    }

    method DrawFrom(key: Key, start: Bucket, now: real) returns (ok: bool)
      modifies this`buckets
      ensures (buckets, ok) == (old(buckets)[key := Draw(p, start, now).0], Draw(p, start, now).1)
    {
      var b := start;
      var elapsed := now - b.last;
      if elapsed > 0.0 {
        b := Bucket(RMin(p.burst, b.tokens + Gain(p, elapsed)), now);
      }
      ok := b.tokens >= 1.0;
      if ok {
        b := b.(tokens := b.tokens - 1.0);
      }
      buckets := buckets[key := b];
    }
  }

  /** The buckets while the idle ones in `todo` are still to be purged. */
  ghost function PurgedExcept(all: Buckets, todo: set<Key>, now: real): Buckets {
    map k | k in all && (k in todo || !Idle(all[k], now)) :: all[k]
  }

  lemma {:induction false} DropOne(all: Buckets, todo: set<Key>, k: Key, now: real)
    requires todo <= all.Keys && k in todo
    ensures PurgedExcept(all, todo - {k}, now)
            == if Idle(all[k], now) then PurgedExcept(all, todo, now) - {k} else PurgedExcept(all, todo, now)
  {
  }

  lemma {:induction false} PurgeOne(lru: seq<Key>, all: Buckets, todo: set<Key>, k: Key, now: real, kept: Buckets)
    requires todo <= all.Keys && k in todo && kept == PurgedExcept(all, todo, now)
    ensures PurgedExcept(all, todo - {k}, now) == if Idle(all[k], now) then kept - {k} else kept
    ensures KeepListed(lru, kept - {k}) == Without(KeepListed(lru, kept), k)
  {
    DropOne(all, todo, k, now);
    DropListed(lru, kept, k);
  }

  lemma {:induction false} KeepListedAll(lru: seq<Key>, m: Buckets)
    requires forall k :: k in lru ==> k in m
    ensures KeepListed(lru, m) == lru
  {
    if lru != [] {
      KeepListedAll(lru[1..], m);
    }
  }

  lemma {:induction false} DropListed(lru: seq<Key>, m: Buckets, k: Key)
    ensures KeepListed(lru, m - {k}) == Without(KeepListed(lru, m), k)
  {
    if lru != [] {
      DropListed(lru[1..], m, k);
    }
  }

  lemma {:induction false} KeepListedValid(lru: seq<Key>, all: Buckets, kept: Buckets)
    requires all.Keys == Elements(lru) && Distinct(lru) && kept.Keys <= all.Keys
    ensures kept.Keys == Elements(KeepListed(lru, kept)) && Distinct(KeepListed(lru, kept))
  {
    KeepListedMembers(lru, kept);
  }

  lemma {:induction false} KeepListedMembers(lru: seq<Key>, m: Buckets)
    requires Distinct(lru)
    ensures Distinct(KeepListed(lru, m)) && forall x :: x in KeepListed(lru, m) <==> x in lru && x in m
  {
    if lru != [] {
      assert Distinct(lru[1..]) by {
        assert forall i :: 0 <= i < |lru[1..]| ==> lru[1..][i] == lru[i + 1];
      }
      assert lru[0] !in lru[1..];
      KeepListedMembers(lru[1..], m);
      if lru[0] in m {
        ConsDistinct(lru[0], KeepListed(lru[1..], m));
      }
    }
  }

  lemma {:induction false} ListNotEmpty(m: Buckets, lru: seq<Key>)
    requires m.Keys == Elements(lru) && |m| > 0
    ensures lru != []
  {
    assert |m| == |m.Keys|;
    var k :| k in m.Keys;
    assert k in lru;
  }

  /** Map and list keep holding the same keys, once each. */
  lemma {:induction false} RoomValid(p: Params, l: Throttle, key: Key)
    requires ParamsOk(p) && l.buckets.Keys == Elements(l.lru) && Distinct(l.lru)
    ensures var r := MakeRoom(p, l, key); r.buckets.Keys + {key} == Elements(r.lru) && Distinct(r.lru)
  {
    if key in l.buckets {
      WithoutDistinct(l.lru, key);
      FrontListed(key, Without(l.lru, key), l.buckets.Keys - {key});
    } else if |l.buckets| >= p.max {
      ListNotEmpty(l.buckets, l.lru);
      DropLast(l.lru);
      FrontListed(key, l.lru[..|l.lru| - 1], (l.buckets - {l.lru[|l.lru| - 1]}).Keys);
    } else {
      FrontListed(key, l.lru, l.buckets.Keys);
    }
  }

  lemma {:induction false} DropLast(s: seq<Key>)
    requires Distinct(s) && s != []
    ensures Distinct(s[..|s| - 1]) && Elements(s[..|s| - 1]) == Elements(s) - {s[|s| - 1]}
  {
    assert forall x :: x in s[..|s| - 1] <==> x in s && x != s[|s| - 1];
  }

  lemma {:induction false} FrontListed(key: Key, s: seq<Key>, keys: set<Key>)
    requires Elements(s) == keys && Distinct(s) && key !in s
    ensures Elements([key] + s) == keys + {key} && Distinct([key] + s)
  {
    ConsDistinct(key, s);
  }
}
