/**
 The UDP join heuristic and the wake coalescing of sentinel/main.go. A source is a
 remote address; when the map is full the source to evict is one of those seen
 longest ago, and which of equals is the map's choice, so it is part of the event.
 */
module UdpWake {
  import opened Wrappers
  import opened Basics

  type Key = nat
  type Time = int

  datatype Params = Params(threshold: int, window: int, max: int)

  predicate ParamsOk(p: Params) { p.threshold >= 1 && p.max >= 1 }

  datatype Source = Source(packets: seq<Time>, lastSeen: Time, wokenAt: Option<Time>)

  type Sources = map<Key, Source>

  // ---------------------------------------------------------------- one packet

  /** The packets of a source still inside the window. */
  function Recent(p: Params, packets: seq<Time>, now: Time): (r: seq<Time>)
    ensures |r| <= |packets|
  {
    if packets == [] then []
    else if now - packets[0] < p.window then [packets[0]] + Recent(p, packets[1..], now)
    else Recent(p, packets[1..], now)
  }

  /** The source asked for a wake less than a window ago. */
  predicate Quiet(p: Params, s: Source, now: Time) { s.wokenAt.Some? && now - s.wokenAt.value < p.window }

  function Arrive(p: Params, s: Source, now: Time): (Source, bool) {
    if Quiet(p, s, now) then (s.(lastSeen := now), false)
    else
      var counted := Recent(p, s.packets, now) + [now];
      if |counted| < p.threshold then (Source(counted, now, s.wokenAt), false)
      else (Source([], now, Some(now)), true)
  }

  function StateOf(m: Sources, key: Key, now: Time): Source { if key in m then m[key] else Source([], now, None) }

  /** A packet when nothing is ever swept or evicted. */
  function PlainPacket(p: Params, m: Sources, key: Key, now: Time): (Sources, bool) {
    var (s, wake) := Arrive(p, StateOf(m, key, now), now);
    (m[key := s], wake)
  }

  predicate Oldest(m: Sources, k: Key) { k in m && forall j :: j in m ==> m[k].lastSeen <= m[j].lastSeen }

  /** A new source finds the map full. */
  predicate NeedsRoom(p: Params, m: Sources, key: Key) { key !in m && |m| >= p.max && |m| > 0 }

  function Packet(p: Params, m: Sources, key: Key, now: Time, victim: Key): (Sources, bool) {
    PlainPacket(p, if NeedsRoom(p, m, key) then m - {victim} else m, key, now)
  }

  function SweepOnce(p: Params, m: Sources, now: Time): Sources {
    map k | k in m && now - m[k].lastSeen <= 2 * p.window :: m[k]
  }

  // ---------------------------------------------------------------- runs

  datatype Event = Arrival(now: Time, key: Key, victim: Key) | Sweep(now: Time)

  function Step(p: Params, m: Sources, ev: Event): Sources {
    match ev
    case Arrival(now, key, victim) => Packet(p, m, key, now, victim).0
    case Sweep(now) => SweepOnce(p, m, now)
  }

  function After(p: Params, run: seq<Event>): Sources {
    if run == [] then map[] else Step(p, After(p, run[..|run| - 1]), run[|run| - 1])
  }

  predicate ClockRuns(run: seq<Event>) { forall i, j :: 0 <= i < j < |run| ==> run[i].now <= run[j].now }

  /** Every eviction takes a source seen longest ago. */
  ghost predicate VictimsOk(p: Params, run: seq<Event>) {
    forall i :: 0 <= i < |run| && run[i].Arrival? && NeedsRoom(p, After(p, run[..i]), run[i].key) ==>
                  Oldest(After(p, run[..i]), run[i].victim)
  }

  predicate WakesAt(p: Params, run: seq<Event>, i: nat)
    requires i < |run|
  {
    run[i].Arrival? && Packet(p, After(p, run[..i]), run[i].key, run[i].now, run[i].victim).1
  }

  lemma {:induction false} AfterStep(p: Params, run: seq<Event>, n: nat)
    requires n < |run|
    ensures After(p, run[..n + 1]) == Step(p, After(p, run[..n]), run[n])
  {
    assert run[..n + 1][..n] == run[..n];
  }

  // ---------------------------------------------------------------- memory stays bounded

  ghost predicate Bounded(p: Params, m: Sources) {
    |m| <= p.max && forall k :: k in m ==> |m[k].packets| < p.threshold
  }

  lemma {:induction false} MapSize<V>(m: map<Key, V>, k: Key, v: V)
    ensures |m[k := v]| == |m| + if k in m then 0 else 1
    ensures k in m ==> |m - {k}| == |m| - 1
  {
    assert m[k := v].Keys == m.Keys + {k};
    assert |m[k := v]| == |m[k := v].Keys| && |m| == |m.Keys|;
    if k in m {
      assert (m - {k}).Keys == m.Keys - {k};
      assert |m - {k}| == |(m - {k}).Keys|;
    }
  }

  lemma {:induction false} ArriveBounded(p: Params, s: Source, now: Time)
    requires ParamsOk(p) && |s.packets| < p.threshold
    ensures |Arrive(p, s, now).0.packets| < p.threshold
  {
  }

  lemma {:induction false} StepBounded(p: Params, m: Sources, ev: Event)
    requires ParamsOk(p) && Bounded(p, m)
    requires ev.Arrival? && NeedsRoom(p, m, ev.key) ==> ev.victim in m
    ensures Bounded(p, Step(p, m, ev))
  {
    if ev.Arrival? {
      var room := if NeedsRoom(p, m, ev.key) then m - {ev.victim} else m;
      var s := Arrive(p, StateOf(room, ev.key, ev.now), ev.now).0;
      ArriveBounded(p, StateOf(room, ev.key, ev.now), ev.now);
      MapSize(m, ev.victim, s);
      MapSize(room, ev.key, s);
    } else {
      assert SweepOnce(p, m, ev.now).Keys <= m.Keys;
      SubsetSize(SweepOnce(p, m, ev.now).Keys, m.Keys);
      assert |m| == |m.Keys| && |SweepOnce(p, m, ev.now)| == |SweepOnce(p, m, ev.now).Keys|;
    }
  }

  /** On every run at most `max` sources are tracked and each stores fewer than `threshold` timestamps. */
  lemma {:induction false} MemoryIsBounded(p: Params, run: seq<Event>, n: nat)
    requires ParamsOk(p) && VictimsOk(p, run) && n <= |run|
    ensures Bounded(p, After(p, run[..n]))
  {
    if n > 0 {
      MemoryIsBounded(p, run, n - 1);
      AfterStep(p, run, n - 1);
      StepBounded(p, After(p, run[..n - 1]), run[n - 1]);
    }
  }

  // ---------------------------------------------------------------- what a wake means

  /** When the packets of a source arrived. */
  function TimesOf(run: seq<Event>, k: Key): seq<Time> {
    if run == [] then [] else Noted(TimesOf(run[..|run| - 1], k), run[|run| - 1], k)
  }

  function Noted(times: seq<Time>, ev: Event, k: Key): seq<Time> {
    if ev.Arrival? && ev.key == k then times + [ev.now] else times
  }

  predicate IsSuffix(a: seq<Time>, b: seq<Time>) { |a| <= |b| && a == b[|b| - |a|..] }

  predicate Ordered(s: seq<Time>) { forall i, j :: 0 <= i < j < |s| ==> s[i] <= s[j] }

  lemma {:induction false} OrderedSuffix(a: seq<Time>, b: seq<Time>)
    requires IsSuffix(a, b) && Ordered(b)
    ensures Ordered(a)
  {
    forall i, j | 0 <= i < j < |a|
      ensures a[i] <= a[j]
    {
      assert a[i] == b[|b| - |a| + i] && a[j] == b[|b| - |a| + j];
    }
  }

  lemma {:induction false} RecentAll(p: Params, s: seq<Time>, now: Time)
    requires forall i :: 0 <= i < |s| ==> now - s[i] < p.window
    ensures Recent(p, s, now) == s
  {
    if s != [] {
      RecentAll(p, s[1..], now);
    }
  }

  lemma {:induction false} SuffixOfTail(a: seq<Time>, b: seq<Time>)
    requires b != [] && IsSuffix(a, b[1..])
    ensures IsSuffix(a, b)
  {
  }

  lemma {:induction false} TailOrdered(s: seq<Time>)
    requires Ordered(s) && s != []
    ensures Ordered(s[1..])
  {
    assert forall i :: 0 <= i < |s[1..]| ==> s[1..][i] == s[i + 1];
  }

  /** In arrival order, dropping what left the window drops a front part. */
  lemma {:induction false} RecentIsSuffix(p: Params, s: seq<Time>, now: Time)
    requires Ordered(s)
    ensures IsSuffix(Recent(p, s, now), s)
  {
    if s != [] {
      if now - s[0] < p.window {
        RecentAll(p, s, now);
      } else {
        TailOrdered(s);
        RecentIsSuffix(p, s[1..], now);
        SuffixOfTail(Recent(p, s[1..], now), s);
      }
    }
  }

  lemma {:induction false} RecentInWindow(p: Params, s: seq<Time>, now: Time)
    ensures forall i :: 0 <= i < |Recent(p, s, now)| ==> now - Recent(p, s, now)[i] < p.window
  {
    if s != [] {
      RecentInWindow(p, s[1..], now);
    }
  }

  lemma {:induction false} TimesOrdered(run: seq<Event>, k: Key, now: Time)
    requires ClockRuns(run) && forall i :: 0 <= i < |run| ==> run[i].now <= now
    ensures Ordered(TimesOf(run, k)) && forall i :: 0 <= i < |TimesOf(run, k)| ==> TimesOf(run, k)[i] <= now
  {
    if run != [] {
      TimesOrdered(run[..|run| - 1], k, run[|run| - 1].now);
    }
  }

  lemma {:induction false} TimesStep(run: seq<Event>, n: nat, k: Key)
    requires n < |run|
    ensures TimesOf(run[..n + 1], k) == Noted(TimesOf(run[..n], k), run[n], k)
  {
    assert run[..n + 1][..n] == run[..n];
  }

  /** What a source stores is a suffix of the packets it sent. */
  ghost predicate Faithful(m: Sources, k: Key, times: seq<Time>) { k in m ==> IsSuffix(m[k].packets, times) }

  lemma {:induction false} SuffixGrows(a: seq<Time>, b: seq<Time>, c: seq<Time>, now: Time)
    requires IsSuffix(a, b) && IsSuffix(b, c)
    ensures IsSuffix(a + [now], c + [now])
  {
    assert a == c[|c| - |a|..];
  }

  /** The packets counted with the one at `now` are the source's last ones, all inside the window. */
  lemma {:induction false} CountedIsSuffix(p: Params, packets: seq<Time>, times: seq<Time>, now: Time)
    requires IsSuffix(packets, times) && Ordered(times)
    ensures var counted := Recent(p, packets, now) + [now];
            && IsSuffix(counted, times + [now])
            && forall i :: 0 <= i < |counted| - 1 ==> now - counted[i] < p.window
  {
    OrderedSuffix(packets, times);
    RecentIsSuffix(p, packets, now);
    RecentInWindow(p, packets, now);
    SuffixGrows(Recent(p, packets, now), packets, times, now);
  }

  lemma {:induction false} ArriveFaithful(p: Params, s: Source, times: seq<Time>, now: Time)
    requires ParamsOk(p) && IsSuffix(s.packets, times) && Ordered(times) && |s.packets| < p.threshold
    requires !Quiet(p, s, now) || s.packets == []
    ensures var (s', wake) := Arrive(p, s, now);
            && IsSuffix(s'.packets, times + [now])
            && (wake ==> |Recent(p, s.packets, now) + [now]| == p.threshold)
  {
    CountedIsSuffix(p, s.packets, times, now);
    assert IsSuffix([], times + [now]);
  }

  /** While a source is quiet it stores nothing. */
  ghost predicate QuietIsEmpty(p: Params, m: Sources, t: Time) { forall k :: k in m && Quiet(p, m[k], t) ==> m[k].packets == [] }

  lemma {:induction false} StepQuietIsEmpty(p: Params, m: Sources, ev: Event, t: Time)
    requires t <= ev.now && QuietIsEmpty(p, m, t)
    ensures QuietIsEmpty(p, Step(p, m, ev), ev.now)
  {
  }

  lemma {:induction false} RunQuietIsEmpty(p: Params, run: seq<Event>, n: nat, now: Time)
    requires ClockRuns(run) && n <= |run| && (n > 0 ==> run[n - 1].now <= now)
    ensures QuietIsEmpty(p, After(p, run[..n]), now)
  {
    if n > 0 {
      RunQuietIsEmpty(p, run, n - 1, run[n - 1].now);
      AfterStep(p, run, n - 1);
      StepQuietIsEmpty(p, After(p, run[..n - 1]), run[n - 1], run[n - 1].now);
    }
  }

  lemma {:induction false} OthersFaithful(p: Params, m: Sources, ev: Event, k: Key, times: seq<Time>)
    requires Faithful(m, k, times) && !(ev.Arrival? && ev.key == k)
    ensures Faithful(Step(p, m, ev), k, times)
  {
  }

  lemma {:induction false} SenderFaithful(p: Params, m: Sources, ev: Event, times: seq<Time>)
    requires ev.Arrival? && IsSuffix(Arrive(p, StateOf(m, ev.key, ev.now), ev.now).0.packets, times)
    ensures Faithful(Step(p, m, ev), ev.key, times)
  {
  }

  lemma {:induction false} RunFaithful(p: Params, run: seq<Event>, n: nat, k: Key, m: Sources, times: seq<Time>)
    requires ParamsOk(p) && ClockRuns(run) && VictimsOk(p, run) && n <= |run|
    requires m == After(p, run[..n]) && times == TimesOf(run[..n], k)
    ensures Faithful(m, k, times)
    decreases n
  {
    if n > 0 {
      var ev, before, timesBefore := run[n - 1], After(p, run[..n - 1]), TimesOf(run[..n - 1], k);
      RunFaithful(p, run, n - 1, k, before, timesBefore);
      AfterStep(p, run, n - 1);
      TimesStep(run, n - 1, k);
      if ev.Arrival? && ev.key == k {
        ArrivalFacts(p, run, n - 1);
        SenderFaithful(p, before, ev, times);
      } else {
        OthersFaithful(p, before, ev, k, times);
      }
    }
  }

  /** The state of the source an arrival meets, once room is made. */
  function Met(p: Params, run: seq<Event>, i: nat): Source
    requires i < |run| && run[i].Arrival?
  {
    StateOf(After(p, run[..i]), run[i].key, run[i].now)
  }

  lemma {:induction false} ArrivalFacts(p: Params, run: seq<Event>, i: nat)
    requires ParamsOk(p) && ClockRuns(run) && VictimsOk(p, run) && i < |run| && run[i].Arrival?
    requires Faithful(After(p, run[..i]), run[i].key, TimesOf(run[..i], run[i].key))
    ensures var s, times := Met(p, run, i), TimesOf(run[..i], run[i].key);
            && IsSuffix(s.packets, times) && Ordered(times) && |s.packets| < p.threshold
            && (!Quiet(p, s, run[i].now) || s.packets == [])
            && IsSuffix(Arrive(p, s, run[i].now).0.packets, times + [run[i].now])
  {
    var s, times := Met(p, run, i), TimesOf(run[..i], run[i].key);
    MemoryIsBounded(p, run, i);
    RunQuietIsEmpty(p, run, i, run[i].now);
    TimesOrdered(run[..i], run[i].key, run[i].now);
    ArriveFaithful(p, s, times, run[i].now);
  }

  /**
   A wake means that exactly `threshold` packets of that source are counted: this one
   and the ones just before it, all of those within the window.
   */
  lemma {:induction false} WakeMeansThreshold(p: Params, run: seq<Event>, i: nat)
    requires ParamsOk(p) && ClockRuns(run) && VictimsOk(p, run) && i < |run| && WakesAt(p, run, i)
    ensures var times := TimesOf(run[..i + 1], run[i].key);
            var counted := Recent(p, Met(p, run, i).packets, run[i].now) + [run[i].now];
            && |counted| == p.threshold && IsSuffix(counted, times)
            && forall j :: 0 <= j < |counted| - 1 ==> run[i].now - counted[j] < p.window
  {
    RunFaithful(p, run, i, run[i].key, After(p, run[..i]), TimesOf(run[..i], run[i].key));
    ArrivalFacts(p, run, i);
    TimesStep(run, i, run[i].key);
    ArriveFaithful(p, Met(p, run, i), TimesOf(run[..i], run[i].key), run[i].now);
    CountedIsSuffix(p, Met(p, run, i).packets, TimesOf(run[..i], run[i].key), run[i].now);
  }

  // ---------------------------------------------------------------- wakes are a window apart

  predicate EvictsAt(p: Params, run: seq<Event>, i: nat, k: Key)
    requires i < |run|
  {
    run[i].Arrival? && NeedsRoom(p, After(p, run[..i]), run[i].key) && run[i].victim == k
  }

  /** The source woke at `w`: it still knows, or a window has passed. */
  predicate Remembers(p: Params, m: Sources, k: Key, w: Time, now: Time) {
    (k in m && m[k].lastSeen >= w && m[k].wokenAt.Some? && m[k].wokenAt.value >= w) || now - w >= p.window
  }

  lemma {:induction false} StepRemembers(p: Params, m: Sources, ev: Event, k: Key, w: Time, t: Time)
    requires ParamsOk(p) && t <= ev.now && w <= t && Remembers(p, m, k, w, t)
    requires !(ev.Arrival? && NeedsRoom(p, m, ev.key) && ev.victim == k)
    ensures Remembers(p, Step(p, m, ev), k, w, ev.now)
    ensures ev.Arrival? && ev.key == k && Packet(p, m, k, ev.now, ev.victim).1 ==> ev.now - w >= p.window
  {
  }

  lemma {:induction false} WakeRemembers(p: Params, m: Sources, ev: Event)
    requires ev.Arrival? && Packet(p, m, ev.key, ev.now, ev.victim).1
    ensures Remembers(p, Step(p, m, ev), ev.key, ev.now, ev.now)
  {
  }

  lemma {:induction false} RunRemembers(p: Params, run: seq<Event>, i: nat, n: nat, k: Key, w: Time)
    requires ParamsOk(p) && ClockRuns(run) && i < n <= |run| && w <= run[i].now
    requires Remembers(p, After(p, run[..i + 1]), k, w, run[i].now)
    requires forall j :: i < j < n ==> !EvictsAt(p, run, j, k)
    ensures Remembers(p, After(p, run[..n]), k, w, run[n - 1].now)
  {
    if n > i + 1 {
      RunRemembers(p, run, i, n - 1, k, w);
      RemembersNext(p, run, n - 1, k, w);
    }
  }

  lemma {:induction false} RemembersNext(p: Params, run: seq<Event>, n: nat, k: Key, w: Time)
    requires ParamsOk(p) && ClockRuns(run) && 0 < n < |run| && w <= run[n - 1].now && !EvictsAt(p, run, n, k)
    requires Remembers(p, After(p, run[..n]), k, w, run[n - 1].now)
    ensures Remembers(p, After(p, run[..n + 1]), k, w, run[n].now)
  {
    AfterStep(p, run, n);
    StepRemembers(p, After(p, run[..n]), run[n], k, w, run[n - 1].now);
  }

  /** The sources that sent a packet at or after `t` among the first `n` events. */
  function SeenSince(run: seq<Event>, n: nat, t: Time): set<Key>
    requires n <= |run|
  {
    set i | 0 <= i < n && run[i].Arrival? && run[i].now >= t :: run[i].key
  }

  /** What the map says of a source's last packet is so. */
  predicate LastSeenOk(m: Sources, k: Key, times: seq<Time>) {
    k in m ==> times != [] && m[k].lastSeen == times[|times| - 1]
  }

  lemma {:induction false} StepLastSeen(p: Params, m: Sources, ev: Event, k: Key, times: seq<Time>)
    requires LastSeenOk(m, k, times)
    ensures LastSeenOk(Step(p, m, ev), k, Noted(times, ev, k))
  {
  }

  lemma {:induction false} RunLastSeen(p: Params, run: seq<Event>, n: nat, k: Key, m: Sources, times: seq<Time>)
    requires n <= |run| && m == After(p, run[..n]) && times == TimesOf(run[..n], k)
    ensures LastSeenOk(m, k, times)
    decreases n
  {
    if n > 0 {
      var before, timesBefore := After(p, run[..n - 1]), TimesOf(run[..n - 1], k);
      RunLastSeen(p, run, n - 1, k, before, timesBefore);
      AfterStep(p, run, n - 1);
      TimesStep(run, n - 1, k);
      StepLastSeen(p, before, run[n - 1], k, timesBefore);
    }
  }

  lemma {:induction false} LastTimeIsSeen(run: seq<Event>, n: nat, k: Key, times: seq<Time>, t: Time)
    requires n <= |run| && times == TimesOf(run[..n], k) && times != [] && times[|times| - 1] >= t
    ensures k in SeenSince(run, n, t)
    decreases n
  {
    assert n > 0;
    TimesStep(run, n - 1, k);
    if !(run[n - 1].Arrival? && run[n - 1].key == k) {
      LastTimeIsSeen(run, n - 1, k, times, t);
      assert SeenSince(run, n - 1, t) <= SeenSince(run, n, t);
    }
  }

  /** Every source tracked with a last packet at or after `t` was seen since. */
  lemma {:induction false} TrackedIsSeen(p: Params, run: seq<Event>, n: nat, k: Key, t: Time)
    requires n <= |run| && k in After(p, run[..n]) && After(p, run[..n])[k].lastSeen >= t
    ensures k in SeenSince(run, n, t)
  {
    RunLastSeen(p, run, n, k, After(p, run[..n]), TimesOf(run[..n], k));
    LastTimeIsSeen(run, n, k, TimesOf(run[..n], k), t);
  }

  lemma {:induction false} OthersThanVictim(m: Sources, k: Key, key: Key, seen: set<Key>)
    requires k in m && key !in m && key in seen && forall x :: x in m ==> x in seen
    ensures |seen - {k}| >= |m|
  {
    var others := m.Keys - {k} + {key};
    assert |m| == |m.Keys| && |others| == |m|;
    SubsetSize(others, seen - {k});
  }

  /** A source is evicted only when at least `max` other sources sent a packet at or after the time of its own last one. */
  lemma {:induction false} EvictionNeedsMaxOthers(p: Params, run: seq<Event>, j: nat, k: Key, times: seq<Time>)
    requires VictimsOk(p, run) && ClockRuns(run) && j < |run| && EvictsAt(p, run, j, k) && times == TimesOf(run[..j], k)
    ensures times != [] && |SeenSince(run, j + 1, times[|times| - 1]) - {k}| >= p.max
  {
    var m := After(p, run[..j]);
    RunLastSeen(p, run, j, k, m, times);
    var t := m[k].lastSeen;
    forall x | x in m
      ensures x in SeenSince(run, j + 1, t)
    {
      TrackedIsSeen(p, run, j, x, t);
    }
    SeenBefore(p, run, j, k, t);
    OthersThanVictim(m, k, run[j].key, SeenSince(run, j + 1, t));
  }

  /** A tracked source's last packet is not later than an event after it. */
  lemma {:induction false} SeenBefore(p: Params, run: seq<Event>, j: nat, k: Key, t: Time)
    requires ClockRuns(run) && j < |run| && run[j].Arrival? && k in After(p, run[..j]) && t == After(p, run[..j])[k].lastSeen
    ensures run[j].key in SeenSince(run, j + 1, t)
  {
    RunLastSeen(p, run, j, k, After(p, run[..j]), TimesOf(run[..j], k));
    LastTimeIsPast(run, j, k, TimesOf(run[..j], k), run[j].now);
  }

  lemma {:induction false} LastTimeIsPast(run: seq<Event>, n: nat, k: Key, times: seq<Time>, now: Time)
    requires n <= |run| && times == TimesOf(run[..n], k) && times != [] && forall i :: 0 <= i < n ==> run[i].now <= now
    ensures times[|times| - 1] <= now
    decreases n
  {
    assert n > 0;
    TimesStep(run, n - 1, k);
    if !(run[n - 1].Arrival? && run[n - 1].key == k) {
      LastTimeIsPast(run, n - 1, k, times, now);
    }
  }

  /** Two wakes of a source that is not evicted between them are at least a window apart, sweeps or not. */
  lemma {:induction false} WakesAreApart(p: Params, run: seq<Event>, i: nat, j: nat)
    requires ParamsOk(p) && ClockRuns(run) && i < j < |run| && run[i].Arrival? && run[j].Arrival? && run[i].key == run[j].key
    requires WakesAt(p, run, i) && WakesAt(p, run, j)
    requires forall n :: i < n < j ==> !EvictsAt(p, run, n, run[i].key)
    ensures run[j].now - run[i].now >= p.window
  {
    AfterStep(p, run, i);
    WakeRemembers(p, After(p, run[..i]), run[i]);
    RunRemembers(p, run, i, j, run[i].key, run[i].now);
    var m := After(p, run[..j]);
    if NeedsRoom(p, m, run[j].key) {
      assert run[i].key !in m;
    } else {
      StepRemembers(p, m, run[j], run[i].key, run[i].now, run[j - 1].now);
    }
  }

  // ---------------------------------------------------------------- the sweep is unobservable

  function PlainAfter(p: Params, run: seq<Event>): Sources {
    if run == [] then map[]
    else PlainStep(p, PlainAfter(p, run[..|run| - 1]), run[|run| - 1])
  }

  /** Nothing a source stores is later than its last packet. */
  predicate SaneSource(s: Source) {
    && (forall i :: 0 <= i < |s.packets| ==> s.packets[i] <= s.lastSeen)
    && (s.wokenAt.Some? ==> s.wokenAt.value <= s.lastSeen)
  }

  predicate Sane(m: Sources) { forall k :: k in m ==> SaneSource(m[k]) }

  /** Two states that answer alike from `t` on: only a wake long past may differ. */
  predicate Alike(p: Params, a: Source, b: Source, t: Time) {
    a.packets == b.packets && a.lastSeen == b.lastSeen
    && (a.wokenAt == b.wokenAt || (!Quiet(p, a, t) && !Quiet(p, b, t)))
  }

  /** A source silent for more than two windows: its next packet starts afresh. */
  predicate Spent(p: Params, s: Source, t: Time) { t - s.lastSeen > 2 * p.window }

  predicate Agrees(p: Params, m: Sources, plain: Sources, t: Time) {
    && (forall k :: k in m ==> k in plain && Alike(p, m[k], plain[k], t))
    && (forall k :: k in plain && k !in m ==> Spent(p, plain[k], t))
  }

  lemma {:induction false} RecentOfOld(p: Params, s: seq<Time>, now: Time)
    requires forall i :: 0 <= i < |s| ==> now - s[i] >= p.window
    ensures Recent(p, s, now) == []
  {
    if s != [] {
      RecentOfOld(p, s[1..], now);
    }
  }

  lemma {:induction false} SpentStartsAfresh(p: Params, s: Source, now: Time)
    requires ParamsOk(p) && Spent(p, s, now) && SaneSource(s) && s.lastSeen <= now
    ensures var a, b := Arrive(p, s, now), Arrive(p, Source([], now, None), now);
            a.1 == b.1 && Alike(p, b.0, a.0, now)
  {
    RecentOfOld(p, s.packets, now);
  }

  lemma {:induction false} AlikeArrive(p: Params, a: Source, b: Source, now: Time)
    requires Alike(p, a, b, now)
    ensures Arrive(p, a, now).1 == Arrive(p, b, now).1 && Alike(p, Arrive(p, a, now).0, Arrive(p, b, now).0, now)
  {
  }

  lemma {:induction false} AgreesLater(p: Params, m: Sources, plain: Sources, t: Time, t': Time)
    requires t <= t' && Agrees(p, m, plain, t)
    ensures Agrees(p, m, plain, t')
  {
  }

  lemma {:induction false} ArriveSane(p: Params, s: Source, now: Time)
    requires SaneSource(s) && s.lastSeen <= now
    ensures SaneSource(Arrive(p, s, now).0) && Arrive(p, s, now).0.lastSeen == now
  {
    var kept := Recent(p, s.packets, now);
    RecentMembers(p, s.packets, now);
    forall i | 0 <= i < |kept|
      ensures kept[i] <= now
    {
      assert kept[i] in kept;
    }
  }

  lemma {:induction false} RecentMembers(p: Params, s: seq<Time>, now: Time)
    ensures forall t :: t in Recent(p, s, now) ==> t in s
  {
    if s != [] {
      RecentMembers(p, s[1..], now);
    }
  }

  lemma {:induction false} PacketAgrees(p: Params, m: Sources, plain: Sources, key: Key, now: Time)
    requires ParamsOk(p) && Agrees(p, m, plain, now) && Sane(plain) && Past(plain, now)
    ensures PlainPacket(p, m, key, now).1 == PlainPacket(p, plain, key, now).1
    ensures Agrees(p, PlainPacket(p, m, key, now).0, PlainPacket(p, plain, key, now).0, now)
  {
    if key in plain && key !in m {
      SpentStartsAfresh(p, plain[key], now);
    } else {
      AlikeArrive(p, StateOf(m, key, now), StateOf(plain, key, now), now);
    }
  }

  function Keys(run: seq<Event>): set<Key> {
    if run == [] then {}
    else Keys(run[..|run| - 1]) + if run[|run| - 1].Arrival? then {run[|run| - 1].key} else {}
  }

  predicate Past(m: Sources, t: Time) { forall k :: k in m ==> m[k].lastSeen <= t }

  lemma {:induction false} PlainStaysSane(p: Params, m: Sources, key: Key, now: Time)
    requires Sane(m) && Past(m, now)
    ensures var m' := PlainPacket(p, m, key, now).0; Sane(m') && Past(m', now)
  {
    ArriveSane(p, StateOf(m, key, now), now);
  }

  lemma {:induction false} NoEviction(p: Params, m: Sources, key: Key, keys: set<Key>)
    requires m.Keys <= keys && |keys + {key}| <= p.max
    ensures !NeedsRoom(p, m, key)
  {
    if key !in m {
      SubsetSize(m.Keys + {key}, keys + {key});
      assert |m| == |m.Keys|;
    }
  }

  function PlainStep(p: Params, m: Sources, ev: Event): Sources {
    if ev.Arrival? then PlainPacket(p, m, ev.key, ev.now).0 else m
  }

  lemma {:induction false} StepAgrees(p: Params, m: Sources, plain: Sources, ev: Event, keys: set<Key>)
    requires ParamsOk(p) && Agrees(p, m, plain, ev.now) && Sane(plain) && Past(plain, ev.now)
    requires plain.Keys == keys && (ev.Arrival? ==> |keys + {ev.key}| <= p.max)
    ensures Agrees(p, Step(p, m, ev), PlainStep(p, plain, ev), ev.now)
    ensures Sane(PlainStep(p, plain, ev)) && Past(PlainStep(p, plain, ev), ev.now)
    ensures PlainStep(p, plain, ev).Keys == keys + (if ev.Arrival? then {ev.key} else {})
  {
    if ev.Arrival? {
      NoEviction(p, m, ev.key, keys);
      PacketAgrees(p, m, plain, ev.key, ev.now);
      PlainStaysSane(p, plain, ev.key, ev.now);
    } else {
      SweepAgrees(p, m, plain, ev.now);
    }
  }

  lemma {:induction false} PrefixStep(p: Params, run: seq<Event>, n: nat)
    requires n < |run|
    ensures PlainAfter(p, run[..n + 1]) == PlainStep(p, PlainAfter(p, run[..n]), run[n])
    ensures Keys(run[..n + 1]) == Keys(run[..n]) + (if run[n].Arrival? then {run[n].key} else {})
    ensures |Keys(run[..n])| <= |Keys(run[..n + 1])|
  {
    assert run[..n + 1][..n] == run[..n];
    SubsetSize(Keys(run[..n]), Keys(run[..n + 1]));
  }

  /** Below the cap the sources swept away are those that no longer matter. */
  lemma {:induction false} RunAgrees(p: Params, run: seq<Event>, n: nat, now: Time, m: Sources, plain: Sources)
    requires ParamsOk(p) && ClockRuns(run) && n <= |run| && (n > 0 ==> run[n - 1].now <= now)
    requires |Keys(run[..n])| <= p.max && m == After(p, run[..n]) && plain == PlainAfter(p, run[..n])
    ensures Agrees(p, m, plain, now) && Sane(plain) && Past(plain, now) && plain.Keys == Keys(run[..n])
    decreases n
  {
    if n > 0 {
      var ev := run[n - 1];
      var before, plainBefore := After(p, run[..n - 1]), PlainAfter(p, run[..n - 1]);
      AfterStep(p, run, n - 1);
      PrefixStep(p, run, n - 1);
      RunAgrees(p, run, n - 1, ev.now, before, plainBefore);
      StepAgrees(p, before, plainBefore, ev, Keys(run[..n - 1]));
      AgreesLater(p, m, plain, ev.now, now);
    }
  }

  lemma {:induction false} SweepAgrees(p: Params, m: Sources, plain: Sources, now: Time)
    requires Agrees(p, m, plain, now)
    ensures Agrees(p, SweepOnce(p, m, now), plain, now)
  {
  }

  /** While no more than `max` sources have been seen, every answer is that of a map never swept and never full. */
  lemma {:induction false} SweepIsUnobservable(p: Params, run: seq<Event>, i: nat)
    requires ParamsOk(p) && ClockRuns(run) && i < |run| && run[i].Arrival? && |Keys(run[..i + 1])| <= p.max
    ensures WakesAt(p, run, i) <==> PlainPacket(p, PlainAfter(p, run[..i]), run[i].key, run[i].now).1
  {
    PrefixStep(p, run, i);
    RunAgrees(p, run, i, run[i].now, After(p, run[..i]), PlainAfter(p, run[..i]));
    NoEviction(p, After(p, run[..i]), run[i].key, Keys(run[..i]));
    PacketAgrees(p, After(p, run[..i]), PlainAfter(p, run[..i]), run[i].key, run[i].now);
  }

  // ---------------------------------------------------------------- exactly when a source wakes

  /** A source's own history, with nothing thrown away: its last wake, and every packet counted since. */
  datatype History = History(woke: Option<Time>, since: seq<Time>)

  /** Whether a packet at `now` wakes: no wake within the window, and `threshold` packets counted inside it. */
  predicate Due(p: Params, h: History, now: Time) {
    !(h.woke.Some? && now - h.woke.value < p.window) && CountInWindow(p, h.since, now) + 1 >= p.threshold
  }

  /** How many of the packets lie inside the window that ends now. */
  function CountInWindow(p: Params, times: seq<Time>, now: Time): nat {
    if times == [] then 0 else CountInWindow(p, times[..|times| - 1], now) + if now - times[|times| - 1] < p.window then 1 else 0
  }

  lemma {:induction false} RecentCounts(p: Params, times: seq<Time>, now: Time)
    ensures |Recent(p, times, now)| == CountInWindow(p, times, now)
  {
    if times != [] {
      var init, last := times[..|times| - 1], times[|times| - 1];
      RecentCounts(p, init, now);
      RecentSnoc(p, init, last, now);
      assert times == init + [last];
    }
  }

  function HistoryOf(p: Params, times: seq<Time>): History {
    if times == [] then History(None, [])
    else
      var h, now := HistoryOf(p, times[..|times| - 1]), times[|times| - 1];
      if h.woke.Some? && now - h.woke.value < p.window then h
      else if Due(p, h, now) then History(Some(now), [])
      else History(h.woke, h.since + [now])
  }

  /** What a state keeps of a history: everything that can still count from `t` on. */
  predicate Keeps(p: Params, s: Source, h: History, t: Time) {
    s.wokenAt == h.woke && Recent(p, s.packets, t) == Recent(p, h.since, t)
  }

  lemma {:induction false} KeepsLater(p: Params, s: Source, h: History, t: Time, now: Time)
    requires Keeps(p, s, h, t) && t <= now
    ensures Keeps(p, s, h, now)
  {
    RecentAgain(p, s.packets, t, now);
    RecentAgain(p, h.since, t, now);
  }

  lemma {:induction false} RecentAgain(p: Params, s: seq<Time>, t: Time, now: Time)
    requires t <= now
    ensures Recent(p, Recent(p, s, t), now) == Recent(p, s, now)
  {
    if s != [] {
      RecentAgain(p, s[1..], t, now);
      if now - s[0] < p.window || t - s[0] < p.window {
        RecentCons(p, s[0], Recent(p, s[1..], t), now);
      }
    }
  }

  lemma {:induction false} RecentCons(p: Params, x: Time, s: seq<Time>, now: Time)
    ensures Recent(p, [x] + s, now) == if now - x < p.window then [x] + Recent(p, s, now) else Recent(p, s, now)
  {
    assert ([x] + s)[1..] == s;
  }

  lemma {:induction false} RecentSnoc(p: Params, s: seq<Time>, x: Time, now: Time)
    ensures Recent(p, s + [x], now) == if now - x < p.window then Recent(p, s, now) + [x] else Recent(p, s, now)
  {
    if s == [] {
      assert s + [x] == [x] + [];
      RecentCons(p, x, [], now);
    } else {
      assert s + [x] == [s[0]] + (s[1..] + [x]);
      RecentCons(p, s[0], s[1..] + [x], now);
      RecentSnoc(p, s[1..], x, now);
    }
  }

  lemma {:induction false} ArriveKeeps(p: Params, s: Source, times: seq<Time>, now: Time)
    requires Keeps(p, s, HistoryOf(p, times), now)
    ensures Arrive(p, s, now).1 == Due(p, HistoryOf(p, times), now)
    ensures Keeps(p, Arrive(p, s, now).0, HistoryOf(p, times + [now]), now)
  {
    var h := HistoryOf(p, times);
    assert (times + [now])[..|times|] == times;
    RecentSnoc(p, Recent(p, s.packets, now), now, now);
    RecentSnoc(p, h.since, now, now);
    RecentAgain(p, s.packets, now, now);
    RecentCounts(p, h.since, now);
  }

  /** One event, seen from the source `k`. */
  lemma {:induction false} EventKeeps(p: Params, plain: Sources, ev: Event, k: Key, times: seq<Time>, now: Time, s: Source, h: History)
    requires Keeps(p, StateOf(plain, k, ev.now), HistoryOf(p, times), ev.now) && ev.now <= now
    requires s == StateOf(PlainStep(p, plain, ev), k, now) && h == HistoryOf(p, Noted(times, ev, k))
    ensures Keeps(p, s, h, now)
  {
    if ev.Arrival? && ev.key == k {
      ArriveKeeps(p, StateOf(plain, k, ev.now), times, ev.now);
    }
    KeepsLater(p, StateOf(PlainStep(p, plain, ev), k, ev.now), h, ev.now, now);
  }

  lemma {:induction false} PlainKeeps(p: Params, run: seq<Event>, n: nat, k: Key, now: Time, s: Source, h: History)
    requires ClockRuns(run) && n <= |run| && (n > 0 ==> run[n - 1].now <= now)
    requires s == StateOf(PlainAfter(p, run[..n]), k, now) && h == HistoryOf(p, TimesOf(run[..n], k))
    ensures Keeps(p, s, h, now)
    decreases n
  {
    if n > 0 {
      var ev := run[n - 1];
      var before, times := PlainAfter(p, run[..n - 1]), TimesOf(run[..n - 1], k);
      PlainKeeps(p, run, n - 1, k, ev.now, StateOf(before, k, ev.now), HistoryOf(p, times));
      PrefixStep(p, run, n - 1);
      TimesStep(run, n - 1, k);
      EventKeeps(p, before, ev, k, times, now, s, h);
    }
  }

  /**
   While no more than `max` sources have been seen, a packet wakes exactly when its source
   has not woken within the window and, with this one, `threshold` of the packets counted
   since then lie inside the window.
   */
  lemma {:induction false} WakesExactlyWhenDue(p: Params, run: seq<Event>, i: nat)
    requires ParamsOk(p) && ClockRuns(run) && i < |run| && run[i].Arrival? && |Keys(run[..i + 1])| <= p.max
    ensures WakesAt(p, run, i) <==> Due(p, HistoryOf(p, TimesOf(run[..i], run[i].key)), run[i].now)
  {
    var times := TimesOf(run[..i], run[i].key);
    SweepIsUnobservable(p, run, i);
    var s := StateOf(PlainAfter(p, run[..i]), run[i].key, run[i].now);
    PlainKeeps(p, run, i, run[i].key, run[i].now, s, HistoryOf(p, times));
    ArriveKeeps(p, s, times, run[i].now);
  }

  // ---------------------------------------------------------------- the code

  class Heuristic {
    const p: Params
    var sources: Sources

    constructor (p: Params)
      ensures this.p == p && sources == map[]
    {
      this.p, sources := p, map[];
    }

    /** Some source seen longest ago, if any source is tracked. */
    method EvictOldest() returns (ghost victim: Key)
      modifies this
      ensures old(sources) == map[] ==> sources == map[]
      ensures old(sources) != map[] ==> Oldest(old(sources), victim) && sources == old(sources) - {victim}
    {
      var oldest: Option<Key> := None;
      var todo := sources.Keys;
      while todo != {}
        invariant todo <= sources.Keys && sources == old(sources)
        invariant oldest.None? ==> todo == sources.Keys
        invariant oldest.Some? ==> oldest.value in sources.Keys - todo
        invariant oldest.Some? ==> forall k :: k in sources.Keys - todo ==> sources[oldest.value].lastSeen <= sources[k].lastSeen
        decreases |todo|
      {
        var k :| k in todo;
        if oldest.None? || sources[k].lastSeen < sources[oldest.value].lastSeen {
          oldest := Some(k);
        }
        todo := todo - {k};
      }
      victim := 0;
      if oldest.Some? {
        victim := oldest.value;
        sources := sources - {oldest.value};
      }
    }

    method FilterRecent(packets: seq<Time>, now: Time) returns (filtered: seq<Time>)
      ensures filtered == Recent(p, packets, now)
    {
      filtered := [];
      for i := 0 to |packets|
        invariant filtered + Recent(p, packets[i..], now) == Recent(p, packets, now)
      {
        assert packets[i..][1..] == packets[i + 1..];
        if now - packets[i] < p.window {
          filtered := filtered + [packets[i]];
        }
      }
    }

    /** Records a packet and reports whether it pushed its source over the threshold. */
    method ShouldWake(key: Key, now: Time) returns (wake: bool, ghost victim: Key)
      modifies this
      ensures (sources, wake) == Packet(p, old(sources), key, now, victim)
      ensures NeedsRoom(p, old(sources), key) ==> Oldest(old(sources), victim)
    {
      victim := 0;
      if key !in sources && |sources| >= p.max {
        NoSources(sources);
        victim := EvictOldest();
      }
      var st := StateOf(sources, key, now);
      st := st.(lastSeen := now);
      if st.wokenAt.Some? && now - st.wokenAt.value < p.window {
        sources := sources[key := st];
        return false, victim;
      }
      var filtered := FilterRecent(st.packets, now);
      filtered := filtered + [now];
      st := st.(packets := filtered);
      if |filtered| < p.threshold {
        sources := sources[key := st];
        return false, victim;
      }
      st := st.(wokenAt := Some(now), packets := []);
      sources := sources[key := st];
      return true, victim;
    }

    method SweepIdle(now: Time)
      modifies this
      ensures sources == SweepOnce(p, old(sources), now)
      ensures forall k :: k in sources <==> k in old(sources) && now - old(sources)[k].lastSeen <= 2 * p.window
      ensures forall k :: k in sources ==> sources[k] == old(sources)[k]
    {
      var todo := sources.Keys;
      while todo != {}
        invariant todo <= sources.Keys
        invariant sources == map k | k in old(sources) && (k in todo || now - old(sources)[k].lastSeen <= 2 * p.window) :: old(sources)[k]
        decreases |todo|
      {
        var k :| k in todo;
        if now - sources[k].lastSeen > p.window * 2 {
          sources := sources - {k};
        }
        todo := todo - {k};
      }
    }
  }

  lemma {:induction false} NoSources(m: Sources)
    ensures |m| == 0 <==> m == map[]
  {
    assert |m| == |m.Keys|;
    assert m != map[] ==> m.Keys != {};
  }

  // ---------------------------------------------------------------- coalescing wake requests

  /** A wake request that was let through starts a patch; its end is recorded later. */
  datatype Signal = Request(now: Time) | Finish(now: Time)

  datatype WakerState = WakerState(inFlight: bool, lastPatch: Option<Time>)

  predicate Starts(interval: int, w: WakerState, now: Time) {
    !w.inFlight && (w.lastPatch.None? || now - w.lastPatch.value >= interval)
  }

  function OnSignal(interval: int, w: WakerState, s: Signal): WakerState {
    match s
    case Request(now) => if Starts(interval, w, now) then w.(inFlight := true) else w
    case Finish(now) => if w.inFlight then WakerState(false, Some(now)) else w
  }

  function WakerAfter(interval: int, run: seq<Signal>): WakerState {
    if run == [] then WakerState(false, None) else OnSignal(interval, WakerAfter(interval, run[..|run| - 1]), run[|run| - 1])
  }

  predicate PatchesAt(interval: int, run: seq<Signal>, i: nat)
    requires i < |run|
  {
    run[i].Request? && Starts(interval, WakerAfter(interval, run[..i]), run[i].now)
  }

  lemma {:induction false} WakerStep(interval: int, run: seq<Signal>, n: nat)
    requires n < |run|
    ensures WakerAfter(interval, run[..n + 1]) == OnSignal(interval, WakerAfter(interval, run[..n]), run[n])
  {
    assert run[..n + 1][..n] == run[..n];
  }

  /** Between two patches the first one finished, at a time the second is at least an interval after. */
  lemma {:induction false} PatchesAreApart(interval: int, run: seq<Signal>, i: nat, j: nat) returns (f: nat)
    requires i < j < |run| && PatchesAt(interval, run, i) && PatchesAt(interval, run, j)
    requires forall n :: i < n < j ==> !PatchesAt(interval, run, n)
    ensures i < f < j && run[f].Finish? && run[j].now - run[f].now >= interval
  {
    WakerStep(interval, run, i);
    f := FinishBefore(interval, run, i, j);
  }

  lemma {:induction false} FinishBefore(interval: int, run: seq<Signal>, i: nat, n: nat) returns (f: nat)
    requires i < n <= |run| && PatchesAt(interval, run, i)
    requires forall m :: i < m < n ==> !PatchesAt(interval, run, m)
    ensures var w := WakerAfter(interval, run[..n]);
            w.inFlight || (i < f < n && run[f].Finish? && w.lastPatch == Some(run[f].now))
  {
    f := i;
    WakerStep(interval, run, n - 1);
    if n > i + 1 {
      f := FinishBefore(interval, run, i, n - 1);
      if WakerAfter(interval, run[..n - 1]).inFlight && run[n - 1].Finish? {
        f := n - 1;
      } else {
        assert !PatchesAt(interval, run, n - 1);
      }
    }
  }

  /** The patch started at `k` was finished before `n`, first at `f`. */
  predicate FinishedAt(run: seq<Signal>, k: nat, f: nat, n: nat)
    requires n <= |run|
  {
    k < f < n && run[f].Finish? && forall g :: k < g < f ==> !run[g].Finish?
  }

  /** What the state says of the last patch started: in flight, or finished when. */
  lemma {:induction false} WakerKnows(interval: int, run: seq<Signal>, n: nat, w: WakerState)
    requires n <= |run| && w == WakerAfter(interval, run[..n])
    ensures w.inFlight ==> exists k :: 0 <= k < n && PatchesAt(interval, run, k) && forall g :: k < g < n ==> !run[g].Finish?
    ensures !w.inFlight && w.lastPatch.Some? ==>
              exists k: nat, f: nat :: k < n && PatchesAt(interval, run, k) && FinishedAt(run, k, f, n) && run[f].now == w.lastPatch.value
    decreases n
  {
    if n > 0 {
      var before := WakerAfter(interval, run[..n - 1]);
      WakerKnows(interval, run, n - 1, before);
      WakerStep(interval, run, n - 1);
      if run[n - 1].Request? && Starts(interval, before, run[n - 1].now) {
        assert PatchesAt(interval, run, n - 1);
      } else if before.inFlight {
        var k :| 0 <= k < n - 1 && PatchesAt(interval, run, k) && forall g :: k < g < n - 1 ==> !run[g].Finish?;
        if run[n - 1].Finish? {
          assert FinishedAt(run, k, n - 1, n);
        }
      } else if w.lastPatch.Some? {
        var k: nat, f: nat :| k < n - 1 && PatchesAt(interval, run, k) && FinishedAt(run, k, f, n - 1) && run[f].now == w.lastPatch.value;
        assert FinishedAt(run, k, f, n);
      }
    }
  }

  /** Every patch started so far is finished, and finished an interval ago. */
  ghost predicate AllFinished(interval: int, run: seq<Signal>, i: nat)
    requires i < |run|
  {
    forall k :: 0 <= k < i && PatchesAt(interval, run, k) ==>
      exists f: nat :: FinishedAt(run, k, f, i) && run[i].now - run[f].now >= interval
  }

  /** A request that finds every earlier patch finished an interval ago starts one itself. */
  lemma {:induction false} PatchesWhenFinished(interval: int, run: seq<Signal>, i: nat)
    requires i < |run| && run[i].Request? && AllFinished(interval, run, i)
    ensures PatchesAt(interval, run, i)
  {
    var w := WakerAfter(interval, run[..i]);
    WakerKnows(interval, run, i, w);
    if w.inFlight {
      assert false;
    } else if w.lastPatch.Some? {
      var k: nat, f: nat :| k < i && PatchesAt(interval, run, k) && FinishedAt(run, k, f, i) && run[f].now == w.lastPatch.value;
      var f': nat :| FinishedAt(run, k, f', i) && run[i].now - run[f'].now >= interval;
      assert f == f';
    }
  }

  class Waker {
    const interval: int
    var inFlight: bool
    var lastPatch: Option<Time>

    ghost function State(): WakerState
      reads this
    {
      WakerState(inFlight, lastPatch)
    }

    constructor (interval: int)
      ensures this.interval == interval && State() == WakerState(false, None)
    {
      this.interval, inFlight, lastPatch := interval, false, None;
    }

    /** The locked first half of a wake request: whether this one does the patch. */
    method Begin(now: Time) returns (go: bool)
      modifies this
      ensures go == Starts(interval, old(State()), now) && State() == OnSignal(interval, old(State()), Request(now))
    {
      if inFlight || (lastPatch.Some? && now - lastPatch.value < interval) {
        return false;
      }
      inFlight := true;
      return true;
    }

    /** The deferred second half, after the patch succeeded or failed. */
    method End(now: Time)
      requires inFlight
      modifies this
      ensures State() == OnSignal(interval, old(State()), Finish(now))
    {
      inFlight, lastPatch := false, Some(now);
    }
  }
}
