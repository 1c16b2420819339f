/**
 The difficulty of a challenge: how many were issued in the last minute, kept in
 a ring of sixty one-second slots, and a peak that decays one bit every five
 minutes (telemetry-receiver/pow.go). Times are nanoseconds since the epoch.
 */
module PowDifficulty {
  import opened Basics
  import opened PowToken

  const SECOND := 1_000_000_000
  const WINDOW := 60
  const DECAY_STEP := 300 * SECOND

  function Unix(now: int): int { now / SECOND }

  function Max(a: int, b: int): int { if a >= b then a else b }

  function Min(a: int, b: int): int { if a <= b then a else b }

  // ---------------------------------------------------------------- the ring

  datatype Slot = Slot(sec: int, n: nat)

  function UnusedSlots(k: nat): (s: seq<Slot>)
    ensures |s| == k && forall i :: 0 <= i < k ==> s[i] == Slot(0, 0)
  {
    if k == 0 then [] else UnusedSlots(k - 1) + [Slot(0, 0)]
  }

  type Ring = s: seq<Slot> | |s| == WINDOW witness UnusedSlots(WINDOW)

  const EMPTY_RING: Ring := UnusedSlots(WINDOW)

  predicate InWindow(s: int, sec: int) { sec - WINDOW < s <= sec }

  /** Counts one issue at `sec`, taking over the slot when it holds another second. */
  function Record(ring: Ring, sec: int): Ring {
    var slot := ring[sec % WINDOW];
    ring[sec % WINDOW := if slot.sec == sec then Slot(sec, slot.n + 1) else Slot(sec, 1)]
  }

  function Contribution(slot: Slot, sec: int): nat {
    if InWindow(slot.sec, sec) then slot.n else 0
  }

  /** The first `k` slots' share of the count at `sec`. */
  function PartialCount(ring: Ring, sec: int, k: nat): nat
    requires k <= WINDOW
  {
    if k == 0 then 0 else PartialCount(ring, sec, k - 1) + Contribution(ring[k - 1], sec)
  }

  function SlotCount(ring: Ring, sec: int): nat { PartialCount(ring, sec, WINDOW) }

  /** Every slot in use holds a second that belongs in it. */
  predicate RingConsistent(ring: Ring) {
    forall i :: 0 <= i < WINDOW ==> ring[i].n == 0 || ring[i].sec % WINDOW == i
  }

  lemma {:induction false} SameResidueInWindow(a: int, b: int, sec: int)
    requires InWindow(a, sec) && InWindow(b, sec) && a % WINDOW == b % WINDOW
    ensures a == b
  {
    assert a - b == WINDOW * (a / WINDOW - b / WINDOW);
  }

  lemma {:induction false} RecordKeepsConsistent(ring: Ring, sec: int)
    requires RingConsistent(ring)
    ensures RingConsistent(Record(ring, sec))
  {
  }

  lemma {:induction false} PartialRecord(ring: Ring, sec: int, k: nat)
    requires RingConsistent(ring) && k <= WINDOW
    ensures PartialCount(Record(ring, sec), sec, k)
            == PartialCount(ring, sec, k) + if sec % WINDOW < k then 1 else 0
  {
    if k > 0 {
      PartialRecord(ring, sec, k - 1);
      var slot := ring[k - 1];
      if k - 1 == sec % WINDOW && slot.sec != sec && slot.n > 0 && InWindow(slot.sec, sec) {
        SameResidueInWindow(slot.sec, sec, sec);
      }
    }
  }

  /** In every consistent ring, whatever the clock did, an issue raises the count by exactly one. */
  lemma {:induction false} RecordCountsOne(ring: Ring, sec: int)
    requires RingConsistent(ring)
    ensures SlotCount(Record(ring, sec), sec) == SlotCount(ring, sec) + 1
  {
    PartialRecord(ring, sec, WINDOW);
  }

  // ---------------------------------------------------------------- the ring against full history

  /** The ring after issues at the given seconds, in order. */
  function RingOf(history: seq<int>): Ring {
    if history == [] then EMPTY_RING else Record(RingOf(history[..|history| - 1]), history[|history| - 1])
  }

  predicate Sorted(s: seq<int>) { forall i, j :: 0 <= i < j < |s| ==> s[i] <= s[j] }

  function Count(history: seq<int>, p: int -> bool): nat {
    if history == [] then 0
    else Count(history[..|history| - 1], p) + if p(history[|history| - 1]) then 1 else 0
  }

  /** How many issues lie in the sixty seconds that end with `sec`. */
  function WindowCount(history: seq<int>, sec: int): nat { Count(history, s => InWindow(s, sec)) }

  function CountAt(history: seq<int>, sec: int): nat { Count(history, s => s == sec) }

  lemma {:induction false} CountSplits(history: seq<int>, p: int -> bool, q: int -> bool, r: int -> bool)
    requires forall x :: p(x) <==> (q(x) || r(x))
    requires forall x :: !(q(x) && r(x))
    ensures Count(history, p) == Count(history, q) + Count(history, r)
  {
    if history != [] {
      CountSplits(history[..|history| - 1], p, q, r);
    }
  }

  lemma {:induction false} CountSame(history: seq<int>, p: int -> bool, q: int -> bool)
    requires forall x :: p(x) <==> q(x)
    ensures Count(history, p) == Count(history, q)
  {
    if history != [] {
      CountSame(history[..|history| - 1], p, q);
    }
  }

  lemma {:induction false} CountNone(history: seq<int>, p: int -> bool)
    requires forall x :: !p(x)
    ensures Count(history, p) == 0
  {
    if history != [] {
      CountNone(history[..|history| - 1], p);
    }
  }

  lemma {:induction false} CountPositive(history: seq<int>, p: int -> bool)
    requires Count(history, p) > 0
    ensures exists i :: 0 <= i < |history| && p(history[i])
  {
    var last := |history| - 1;
    if !p(history[last]) {
      CountPositive(history[..last], p);
      var i :| 0 <= i < |history[..last]| && p(history[..last][i]);
      assert p(history[i]);
    }
  }

  /** A slot tells the truth about its second, and every second of the last minute has its slot. */
  ghost predicate Tracks(ring: Ring, history: seq<int>) {
    && RingConsistent(ring)
    && (forall i :: 0 <= i < WINDOW && ring[i].n > 0 ==> ring[i].n == CountAt(history, ring[i].sec))
    && (forall s :: CountAt(history, s) > 0 && history != [] && s > history[|history| - 1] - WINDOW ==>
                      ring[s % WINDOW].sec == s && ring[s % WINDOW].n > 0)
  }

  lemma {:induction false} CountAtExtend(history: seq<int>, sec: int, s: int)
    ensures CountAt(history + [sec], s) == CountAt(history, s) + if s == sec then 1 else 0
  {
    assert (history + [sec])[..|history|] == history;
  }

  lemma {:induction false} CountAtBounded(history: seq<int>, s: int)
    requires Sorted(history) && CountAt(history, s) > 0
    ensures s <= history[|history| - 1]
  {
    CountPositive(history, x => x == s);
  }

  lemma {:induction false} RecordTracks(ring: Ring, history: seq<int>, sec: int)
    requires Tracks(ring, history) && Sorted(history + [sec])
    ensures Tracks(Record(ring, sec), history + [sec])
  {
    var ring' := Record(ring, sec);
    var history' := history + [sec];
    assert Sorted(history) by {
      assert forall i :: 0 <= i < |history| ==> history[i] == history'[i];
    }
    RecordKeepsConsistent(ring, sec);
    forall i | 0 <= i < WINDOW && ring'[i].n > 0
      ensures ring'[i].n == CountAt(history', ring'[i].sec)
    {
      CountAtExtend(history, sec, ring'[i].sec);
      if i == sec % WINDOW && !(ring[i].sec == sec && ring[i].n > 0) {
        TakenOverSlot(ring, history, sec);
      }
    }
    forall s | CountAt(history', s) > 0 && s > sec - WINDOW
      ensures ring'[s % WINDOW].sec == s && ring'[s % WINDOW].n > 0
    {
      CountAtExtend(history, sec, s);
      if s != sec {
        CountAtBounded(history, s);
        assert history[|history| - 1] == history'[|history| - 1] <= sec;
        if s % WINDOW == sec % WINDOW {
          SameResidueInWindow(s, sec, sec);
        }
      }
    }
  }

  /** A slot that did not hold `sec` in use means `sec` has not occurred yet. */
  lemma {:induction false} TakenOverSlot(ring: Ring, history: seq<int>, sec: int)
    requires Tracks(ring, history) && Sorted(history) && (history != [] ==> history[|history| - 1] <= sec)
    requires !(ring[sec % WINDOW].sec == sec && ring[sec % WINDOW].n > 0)
    ensures CountAt(history, sec) == 0
  {
  }

  lemma {:induction false} RingOfTracks(history: seq<int>)
    requires Sorted(history)
    ensures Tracks(RingOf(history), history)
  {
    if history != [] {
      var last := |history| - 1;
      RingOfTracks(history[..last]);
      assert history[..last] + [history[last]] == history;
      RecordTracks(RingOf(history[..last]), history[..last], history[last]);
    }
  }

  predicate InWindowBelow(s: int, sec: int, k: int) { InWindow(s, sec) && s % WINDOW < k }

  /** The first `k` slots count the issues of the window whose second falls in them. */
  lemma {:induction false} PartialCountIsHistory(ring: Ring, history: seq<int>, sec: int, k: nat)
    requires Tracks(ring, history) && k <= WINDOW
    requires history != [] ==> history[|history| - 1] <= sec
    ensures PartialCount(ring, sec, k) == Count(history, s => InWindowBelow(s, sec, k))
  {
    if k == 0 {
      CountNone(history, s => InWindowBelow(s, sec, 0));
    } else {
      PartialCountIsHistory(ring, history, sec, k - 1);
      var at := sec - (sec - (k - 1)) % WINDOW;
      assert InWindow(at, sec) && at % WINDOW == k - 1;
      forall s
        ensures InWindowBelow(s, sec, k) <==> (InWindowBelow(s, sec, k - 1) || s == at)
      {
        if InWindow(s, sec) && s % WINDOW == k - 1 {
          SameResidueInWindow(s, at, sec);
        }
      }
      CountSplits(history, s => InWindowBelow(s, sec, k), s => InWindowBelow(s, sec, k - 1), s => s == at);
      SlotIsHistory(ring, history, sec, k - 1, at);
    }
  }

  lemma {:induction false} SlotIsHistory(ring: Ring, history: seq<int>, sec: int, i: nat, at: int)
    requires Tracks(ring, history) && i < WINDOW
    requires history != [] ==> history[|history| - 1] <= sec
    requires InWindow(at, sec) && at % WINDOW == i
    ensures Contribution(ring[i], sec) == CountAt(history, at)
  {
    if ring[i].n > 0 && InWindow(ring[i].sec, sec) {
      SameResidueInWindow(ring[i].sec, at, sec);
    }
  }

  /** The ring refines full history: over every run with a clock that does not go back, the count is exact. */
  lemma {:induction false} RingRefinesHistory(history: seq<int>, sec: int)
    requires Sorted(history)
    requires history != [] ==> history[|history| - 1] <= sec
    ensures SlotCount(RingOf(history), sec) == WindowCount(history, sec)
  {
    RingOfTracks(history);
    PartialCountIsHistory(RingOf(history), history, sec, WINDOW);
    CountSame(history, s => InWindowBelow(s, sec, WINDOW), s => InWindow(s, sec));
  }

  // ---------------------------------------------------------------- difficulty

  datatype Config = Config(target: int, minBits: int, maxBits: int)

  /** The settings clamped as newPoW clamps them. */
  function Clamped(target: int, minBits: int, maxBits: int): (c: Config)
    ensures c.target >= 1 && 0 <= c.minBits <= c.maxBits
    ensures minBits <= MAX_BITS ==> c.maxBits <= MAX_BITS
    ensures target >= 1 && 0 <= minBits <= maxBits <= MAX_BITS ==> c == Config(target, minBits, maxBits)
  {
    var low := Max(minBits, 0);
    Config(Max(target, 1), low, Max(Min(maxBits, MAX_BITS), low))
  }

  predicate ConfigOk(c: Config) { c.target >= 1 && 0 <= c.minBits <= c.maxBits }

  /** The least b, from `b` up, with target^2 * 2^b >= r^2: the ceiling of 2*log2(r/target). */
  function LeastBits(r: nat, target: nat, b: nat): (n: nat)
    requires target >= 1
    ensures n >= b
    decreases r * r - target * target * Power2(b)
  {
    if target * target * Power2(b) >= r * r then b
    else
      Doubling(target * target, b);
      LeastBits(r, target, b + 1)
  }

  predicate EnoughBits(r: nat, target: nat, b: nat) { target * target * Power2(b) >= r * r }

  lemma {:induction false} LeastBitsIsLeast(r: nat, target: nat, b: nat)
    requires target >= 1
    ensures EnoughBits(r, target, LeastBits(r, target, b))
    ensures forall k :: b <= k < LeastBits(r, target, b) ==> !EnoughBits(r, target, k)
    decreases r * r - target * target * Power2(b)
  {
    if !EnoughBits(r, target, b) {
      Doubling(target * target, b);
      LeastBitsIsLeast(r, target, b + 1);
    }
  }

  lemma {:induction false} Doubling(t: nat, b: nat)
    requires t >= 1
    ensures t * Power2(b + 1) > t * Power2(b) >= 1
  {
    assert t * Power2(b + 1) == t * (2 * Power2(b)) == 2 * (t * Power2(b));
  }

  /** The difficulty for `r` issues in the window, before decay and the minimum. */
  function BitsForRate(c: Config, r: nat): (b: int)
    requires ConfigOk(c)
    ensures 0 <= b <= c.maxBits
  {
    if r <= c.target then 0 else Min(c.maxBits, LeastBits(r, c.target, 0))
  }

  /** It is the least number of bits, up to the maximum, that is enough for the rate. */
  lemma {:induction false} BitsForRateIsLeast(c: Config, r: nat)
    requires ConfigOk(c)
    ensures EnoughBits(r, c.target, BitsForRate(c, r)) || BitsForRate(c, r) == c.maxBits
    ensures forall k :: 0 <= k < BitsForRate(c, r) ==> !EnoughBits(r, c.target, k)
  {
    if r <= c.target {
      Squares(r, c.target);
    } else {
      LeastBitsIsLeast(r, c.target, 0);
    }
  }

  lemma {:induction false} Squares(a: nat, b: nat)
    requires a <= b
    ensures a * a <= b * b && EnoughBits(a, b, 0)
  {
    assert a * a <= a * b <= b * b;
  }

  datatype Meter = Meter(ring: Ring, peak: int, peakAt: int)

  /** What is left of the peak at `now`. */
  function Decayed(peak: int, peakAt: int, now: int): int {
    if peak > 0 then Max(peak - Max((now - peakAt) / DECAY_STEP, 0), 0) else 0
  }

  function Difficulty(c: Config, m: Meter, now: int, r: nat): int
    requires ConfigOk(c)
  {
    Max(c.minBits, Max(BitsForRate(c, r), Decayed(m.peak, m.peakAt, now)))
  }

  /** The difficulty a challenge issued at `now` would carry. */
  function Preview(c: Config, m: Meter, now: int): int
    requires ConfigOk(c)
  {
    Difficulty(c, m, now, SlotCount(m.ring, Unix(now)) + 1)
  }

  /** The meter after an issue at `now`: the slot counted, and a new peak when the target exceeds the decayed one. */
  function IssueMeter(c: Config, m: Meter, now: int): Meter
    requires ConfigOk(c)
  {
    var ring := Record(m.ring, Unix(now));
    var target := BitsForRate(c, SlotCount(ring, Unix(now)));
    if target > Decayed(m.peak, m.peakAt, now) then Meter(ring, target, now) else m.(ring := ring)
  }

  function IssueBits(c: Config, m: Meter, now: int): int
    requires ConfigOk(c)
  {
    Difficulty(c, m, now, SlotCount(Record(m.ring, Unix(now)), Unix(now)))
  }

  /** The gauge tells the difficulty of the next challenge, in every consistent state. */
  lemma {:induction false} PreviewIsNextIssue(c: Config, m: Meter, now: int)
    requires ConfigOk(c) && RingConsistent(m.ring)
    ensures Preview(c, m, now) == IssueBits(c, m, now)
  {
    RecordCountsOne(m.ring, Unix(now));
  }

  // ---------------------------------------------------------------- whole runs of issues

  const FRESH := Meter(EMPTY_RING, 0, 0)

  /** The meter after issues at the given times. */
  function MeterAfter(c: Config, times: seq<int>): (m: Meter)
    requires ConfigOk(c)
    ensures 0 <= m.peak <= c.maxBits
  {
    if times == [] then FRESH else IssueMeter(c, MeterAfter(c, times[..|times| - 1]), times[|times| - 1])
  }

  /** The difficulty of the i-th challenge of a run. */
  function BitsAt(c: Config, times: seq<int>, i: nat): int
    requires ConfigOk(c) && i < |times|
  {
    IssueBits(c, MeterAfter(c, times[..i]), times[i])
  }

  function Seconds(times: seq<int>): (s: seq<int>)
    ensures |s| == |times| && forall i :: 0 <= i < |s| ==> s[i] == Unix(times[i])
  {
    if times == [] then [] else Seconds(times[..|times| - 1]) + [Unix(times[|times| - 1])]
  }

  lemma {:induction false} RunRing(c: Config, times: seq<int>)
    requires ConfigOk(c)
    ensures MeterAfter(c, times).ring == RingOf(Seconds(times))
  {
    if times != [] {
      var last := |times| - 1;
      RunRing(c, times[..last]);
      assert Seconds(times)[..last] == Seconds(times[..last]);
    }
  }

  /** The issues of the minute that ends with the i-th challenge, itself included. */
  function RateAt(times: seq<int>, i: nat): nat
    requires i < |times|
  {
    WindowCount(Seconds(times[..i + 1]), Unix(times[i]))
  }

  /** The bits that rate asks for. */
  function TargetAt(c: Config, times: seq<int>, i: nat): int
    requires ConfigOk(c) && i < |times|
  {
    BitsForRate(c, RateAt(times, i))
  }

  /** The ring counts the rate. */
  lemma {:induction false} RingCountsRate(c: Config, times: seq<int>, i: nat)
    requires ConfigOk(c) && i < |times| && Sorted(times)
    ensures SlotCount(Record(MeterAfter(c, times[..i]).ring, Unix(times[i])), Unix(times[i])) == RateAt(times, i)
  {
    var history := Seconds(times[..i + 1]);
    RunRing(c, times[..i]);
    assert history[..i] == Seconds(times[..i]);
    assert Sorted(history) by {
      forall a, b | 0 <= a < b < |history|
        ensures history[a] <= history[b]
      {
        assert times[a] <= times[b];
      }
    }
    RingRefinesHistory(history, Unix(times[i]));
  }

  /** Every challenge is within the bounds and at least as hard as the rate of the last minute asks. */
  lemma {:induction false} DifficultyBounds(c: Config, times: seq<int>, i: nat)
    requires ConfigOk(c) && i < |times| && Sorted(times)
    ensures c.minBits <= BitsAt(c, times, i) <= c.maxBits
    ensures BitsAt(c, times, i) >= TargetAt(c, times, i)
  {
    RingCountsRate(c, times, i);
  }

  // ---------------------------------------------------------------- what a difficulty comes from

  /** What is left at the i-th challenge of the bits asked for at the k-th: one bit less for every five minutes passed. */
  function LeftAt(c: Config, times: seq<int>, k: nat, i: nat): int
    requires ConfigOk(c) && k < |times| && i < |times|
  {
    Max(0, TargetAt(c, times, k) - (times[i] - times[k]) / (300 * SECOND))
  }

  /** The peak on record is what some earlier rate asked for, or there is none. */
  predicate PeakIsTarget(c: Config, times: seq<int>, n: nat, m: Meter)
    requires ConfigOk(c) && n <= |times|
  {
    m.peak == 0 || exists k :: 0 <= k < n && m.peak == TargetAt(c, times, k) && m.peakAt == times[k]
  }

  lemma {:induction false} RunPeak(c: Config, times: seq<int>, n: nat, m: Meter)
    requires ConfigOk(c) && Sorted(times) && n <= |times| && m == MeterAfter(c, times[..n])
    ensures PeakIsTarget(c, times, n, m)
    decreases n
  {
    if n > 0 {
      var k := n - 1;
      assert times[..n][..k] == times[..k];
      RunPeak(c, times, k, MeterAfter(c, times[..k]));
      RingCountsRate(c, times, k);
      var before := MeterAfter(c, times[..k]);
      assert m == IssueMeter(c, before, times[k]);
    }
  }

  /** The difficulty of the i-th challenge is what is left of the bits asked for at the k-th, and never under the minimum. */
  predicate ComesFrom(c: Config, times: seq<int>, i: nat, k: nat)
    requires ConfigOk(c) && i < |times|
  {
    k <= i && BitsAt(c, times, i) == Max(c.minBits, LeftAt(c, times, k, i))
  }

  lemma {:induction false} BitsAtIs(c: Config, times: seq<int>, i: nat, m: Meter, bits: int)
    requires ConfigOk(c) && Sorted(times) && i < |times| && m == MeterAfter(c, times[..i]) && bits == BitsAt(c, times, i)
    ensures bits == Max(c.minBits, Max(TargetAt(c, times, i), Decayed(m.peak, m.peakAt, times[i])))
  {
    RingCountsRate(c, times, i);
  }

  lemma {:induction false} LeftNow(c: Config, times: seq<int>, i: nat)
    requires ConfigOk(c) && i < |times|
    ensures LeftAt(c, times, i, i) == TargetAt(c, times, i)
  {
  }

  lemma {:induction false} DecayedIsLeft(c: Config, times: seq<int>, k: nat, i: nat, m: Meter)
    requires ConfigOk(c) && k < |times| && i < |times| && times[k] <= times[i]
    requires m.peak == TargetAt(c, times, k) && m.peakAt == times[k]
    ensures Decayed(m.peak, m.peakAt, times[i]) == LeftAt(c, times, k, i)
  {
  }

  /**
   Every difficulty is what some challenge of the run so far asked for, less one bit for
   every five minutes since, and never under the minimum.
   */
  lemma {:induction false} DifficultyComesFrom(c: Config, times: seq<int>, i: nat)
    requires ConfigOk(c) && Sorted(times) && i < |times|
    ensures exists k: nat :: ComesFrom(c, times, i, k)
  {
    var m := MeterAfter(c, times[..i]);
    RunPeak(c, times, i, m);
    BitsAtIs(c, times, i, m, BitsAt(c, times, i));
    LeftNow(c, times, i);
    var decayed := Decayed(m.peak, m.peakAt, times[i]);
    if m.peak > 0 && decayed > TargetAt(c, times, i) {
      var k :| 0 <= k < i && m.peak == TargetAt(c, times, k) && m.peakAt == times[k];
      DecayedIsLeft(c, times, k, i, m);
      assert ComesFrom(c, times, i, k);
    } else {
      assert ComesFrom(c, times, i, i);
    }
  }

  /** No rate of the last `maxBits` times five minutes asked for more than the minimum. */
  predicate CalmBefore(c: Config, times: seq<int>, i: nat)
    requires ConfigOk(c) && i < |times|
  {
    forall k {:trigger TargetAt(c, times, k)} :: 0 <= k <= i && times[i] - times[k] < c.maxBits * (300 * SECOND) ==> TargetAt(c, times, k) <= c.minBits
  }

  /** Then the difficulty is the minimum again. */
  lemma {:induction false} DifficultyRecovers(c: Config, times: seq<int>, i: nat, bits: int)
    requires ConfigOk(c) && Sorted(times) && i < |times| && CalmBefore(c, times, i) && bits == BitsAt(c, times, i)
    ensures bits == c.minBits
  {
    DifficultyComesFrom(c, times, i);
    var k: nat :| ComesFrom(c, times, i, k);
    CalmFrom(c, times, i, k, TargetAt(c, times, k), times[i] - times[k]);
  }

  lemma {:induction false} CalmFrom(c: Config, times: seq<int>, i: nat, k: nat, target: int, passed: int)
    requires ConfigOk(c) && Sorted(times) && k <= i < |times| && CalmBefore(c, times, i)
    requires target == TargetAt(c, times, k) && passed == times[i] - times[k]
    ensures Max(c.minBits, Max(0, target - passed / (300 * SECOND))) == c.minBits
  {
    LeftIsCalm(c, target, passed);
  }

  lemma {:induction false} LeftIsCalm(c: Config, target: int, passed: int)
    requires ConfigOk(c) && target <= c.maxBits && passed >= 0 && (passed < c.maxBits * (300 * SECOND) ==> target <= c.minBits)
    ensures Max(c.minBits, Max(0, target - passed / (300 * SECOND))) == c.minBits
  {
    var steps := passed / (300 * SECOND);
    assert passed >= c.maxBits * (300 * SECOND) ==> steps >= c.maxBits;
  }

  function CeilSteps(d: int): int { (d + DECAY_STEP - 1) / DECAY_STEP }

  /** From `now` on, the peak of `m` stays above the line that starts at `level` at time `from` and falls one bit a step. */
  ghost predicate StaysAbove(m: Meter, level: int, from: int, now: int) {
    forall t :: t >= now ==> Decayed(m.peak, m.peakAt, t) >= level - CeilSteps(t - from)
  }

  lemma {:induction false} StepArithmetic(a: int, b: int)
    requires a >= 0 && b >= 0
    ensures CeilSteps(a) + b / DECAY_STEP <= CeilSteps(a + b)
    ensures b / DECAY_STEP <= CeilSteps(b)
  {
  }

  /** One issue keeps a run above the line, whether or not it replaces the peak. */
  lemma {:induction false} IssueStaysAbove(c: Config, m: Meter, now: int, level: int, from: int, last: int)
    requires ConfigOk(c) && m.peak >= 0 && from <= last <= now
    requires StaysAbove(m, level, from, last)
    ensures StaysAbove(IssueMeter(c, m, now), level, from, now)
  {
    var m' := IssueMeter(c, m, now);
    if m'.peakAt == now && m'.peak > Decayed(m.peak, m.peakAt, now) {
      forall t | t >= now
        ensures Decayed(m'.peak, m'.peakAt, t) >= level - CeilSteps(t - from)
      {
        StepArithmetic(now - from, t - now);
        assert Decayed(m.peak, m.peakAt, now) >= level - CeilSteps(now - from);
      }
    }
  }

  lemma {:induction false} RunStaysAbove(c: Config, times: seq<int>, i: nat, j: nat)
    requires ConfigOk(c) && Sorted(times) && i < j <= |times|
    ensures StaysAbove(MeterAfter(c, times[..j]), Decayed(MeterAfter(c, times[..i + 1]).peak, MeterAfter(c, times[..i + 1]).peakAt, times[i]),
                       times[i], times[j - 1])
    decreases j
  {
    assert times[..j][..j - 1] == times[..j - 1];
    if j == i + 1 {
      PeakStaysAbove(MeterAfter(c, times[..j]), times[i]);
    } else {
      RunStaysAbove(c, times, i, j - 1);
      var m := MeterAfter(c, times[..i + 1]);
      IssueStaysAbove(c, MeterAfter(c, times[..j - 1]), times[j - 1], Decayed(m.peak, m.peakAt, times[i]), times[i], times[j - 2]);
    }
  }

  lemma {:induction false} PeakStaysAbove(m: Meter, now: int)
    requires m.peak >= 0
    ensures StaysAbove(m, Decayed(m.peak, m.peakAt, now), now, now)
  {
    forall t | t >= now
      ensures Decayed(m.peak, m.peakAt, t) >= Decayed(m.peak, m.peakAt, now) - CeilSteps(t - now)
    {
    }
  }

  /**
   However often the peak is replaced in between, between two issues of a run the
   difficulty falls by at most one bit for every five minutes begun.
   */
  lemma {:induction false} DifficultyFallsSlowly(c: Config, times: seq<int>, i: nat, j: nat)
    requires ConfigOk(c) && Sorted(times) && i < j < |times|
    ensures BitsAt(c, times, j) >= BitsAt(c, times, i) - CeilSteps(times[j] - times[i])
  {
    var m := MeterAfter(c, times[..i + 1]);
    assert times[..i + 1][..i] == times[..i];
    RunStaysAbove(c, times, i, j);
    var before := MeterAfter(c, times[..j]);
    assert Decayed(before.peak, before.peakAt, times[j])
        >= Decayed(m.peak, m.peakAt, times[i]) - CeilSteps(times[j] - times[i]);
    IssueBitsAreLevel(c, MeterAfter(c, times[..i]), times[i]);
  }

  /** Right after an issue the decayed peak is the difficulty issued, up to the minimum. */
  lemma {:induction false} IssueBitsAreLevel(c: Config, m: Meter, now: int)
    requires ConfigOk(c) && m.peak >= 0
    ensures var m' := IssueMeter(c, m, now);
            IssueBits(c, m, now) == Max(c.minBits, Decayed(m'.peak, m'.peakAt, now))
  {
  }
}
