/**
 The per-source daily limiter of telemetry-receiver/ratelimit.go: counts in a map,
 sources in a recency list, the least recently used one evicted at capacity.
 A key stands for a source prefix; a day is a UTC day number.
 */
module DailyLimiter {

  type Key = nat

  // ---------------------------------------------------------------- recency

  function Without(s: seq<Key>, k: Key): (r: seq<Key>)
    ensures |r| <= |s| && forall x :: x in r <==> x in s && x != k
  {
    if s == [] then []
    else if s[0] == k then Without(s[1..], k)
    else [s[0]] + Without(s[1..], k)
  }

  /** The distinct keys of a log, last touched first. */
  function Recency(log: seq<Key>): (r: seq<Key>)
    ensures forall x :: x in r <==> x in log
  {
    if log == [] then []
    else
      assert log == log[..|log| - 1] + [log[|log| - 1]];
      [log[|log| - 1]] + Without(Recency(log[..|log| - 1]), log[|log| - 1])
  }

  predicate Distinct(s: seq<Key>) { forall i, j :: 0 <= i < j < |s| ==> s[i] != s[j] }

  function Elements(s: seq<Key>): set<Key> { set x | x in s }

  function First(s: seq<Key>, n: nat): seq<Key> { if |s| <= n then s else s[..n] }

  lemma {:induction false} WithoutDistinct(s: seq<Key>, k: Key)
    requires Distinct(s)
    ensures Distinct(Without(s, k))
  {
    if s != [] {
      assert forall i, j :: 0 <= i < j < |s[1..]| ==> s[1..][i] == s[i + 1] && s[1..][j] == s[j + 1];
      WithoutDistinct(s[1..], k);
      assert s[0] !in s[1..];
    }
  }

  lemma {:induction false} RecencyDistinct(log: seq<Key>)
    ensures Distinct(Recency(log))
  {
    if log != [] {
      RecencyDistinct(log[..|log| - 1]);
      WithoutDistinct(Recency(log[..|log| - 1]), log[|log| - 1]);
      ConsDistinct(log[|log| - 1], Without(Recency(log[..|log| - 1]), log[|log| - 1]));
    }
  }

  lemma {:induction false} ConsDistinct(x: Key, s: seq<Key>)
    requires Distinct(s) && x !in s
    ensures Distinct([x] + s)
  {
    var t := [x] + s;
    forall i, j | 0 <= i < j < |t|
      ensures t[i] != t[j]
    {
      assert t[j] == s[j - 1];
      assert i > 0 ==> t[i] == s[i - 1];
    }
  }

  lemma {:induction false} WithoutAbsent(s: seq<Key>, k: Key)
    requires k !in s
    ensures Without(s, k) == s
  {
    if s != [] {
      WithoutAbsent(s[1..], k);
    }
  }

  /** Moving a tracked key to the front commutes with cutting the list at `n`. */
  lemma {:induction false} FirstOfTouched(s: seq<Key>, n: nat, k: Key)
    requires Distinct(s) && k in First(s, n)
    ensures First([k] + Without(s, k), n) == [k] + Without(First(s, n), k)
  {
    FirstWithout(s, n, k);
    assert n > 0;
    var w := Without(s, k);
    assert First([k] + w, n) == [k] + First(w, n - 1);
  }

  /** Dropping a key from the first `n` leaves the first `n - 1` of the rest. */
  lemma {:induction false} FirstWithout(s: seq<Key>, n: nat, k: Key)
    requires Distinct(s) && k in First(s, n)
    ensures n > 0 && First(Without(s, k), n - 1) == Without(First(s, n), k)
    decreases |s|
  {
    assert n > 0;
    FirstOfTail(s, n);
    TailDistinct(s);
    if s[0] == k {
      WithoutAbsent(s[1..], k);
      WithoutAbsent(First(s[1..], n - 1), k);
    } else {
      FirstWithout(s[1..], n - 1, k);
      FirstOfTail([s[0]] + Without(s[1..], k), n - 1);
    }
  }

  lemma {:induction false} FirstOfTail(s: seq<Key>, n: nat)
    requires s != [] && n > 0
    ensures First(s, n) == [s[0]] + First(s[1..], n - 1) && First(s, n)[1..] == First(s[1..], n - 1)
  {
  }

  lemma {:induction false} TailDistinct(s: seq<Key>)
    requires Distinct(s) && s != []
    ensures Distinct(s[1..]) && s[0] !in s[1..]
  {
    assert forall i :: 0 <= i < |s[1..]| ==> s[1..][i] == s[i + 1];
  }

  /** A key beyond the first `n` does not matter to the first `n - 1` of the rest. */
  lemma {:induction false} FirstOfUntracked(s: seq<Key>, n: nat, k: Key)
    requires k !in First(s, n) && n > 0
    ensures First([k] + Without(s, k), n) == [k] + First(s, n - 1)
  {
    FirstPastKey(s, n, k);
    assert First([k] + Without(s, k), n) == [k] + First(Without(s, k), n - 1);
  }

  lemma {:induction false} FirstPastKey(s: seq<Key>, n: nat, k: Key)
    requires k !in First(s, n) && n > 0
    ensures First(Without(s, k), n - 1) == First(s, n - 1)
    decreases |s|
  {
    if s != [] && n > 1 {
      assert First(s, n)[0] == s[0] && First(s, n)[1..] == First(s[1..], n - 1);
      assert k !in First(s[1..], n - 1);
      FirstPastKey(s[1..], n - 1, k);
      assert First([s[0]] + Without(s[1..], k), n - 1) == [s[0]] + First(Without(s[1..], k), n - 2);
      assert First(s, n - 1) == [s[0]] + First(s[1..], n - 2);
    }
  }

  // ---------------------------------------------------------------- the limiter

  datatype Limiter = Limiter(day: int, lru: seq<Key>, counts: map<Key, nat>)

  function Fresh(day: int): Limiter { Limiter(day, [], map[]) }

  /** Puts `key` at the front, evicting the last key when a new one finds the list full. */
  function Touch(max: nat, l: Limiter, key: Key): (r: Limiter)
    ensures key in r.counts
  {
    if key in l.counts then l.(lru := [key] + Without(l.lru, key))
    else if |l.counts| >= max && l.lru != [] then
      var last := |l.lru| - 1;
      l.(lru := [key] + l.lru[..last], counts := (l.counts - {l.lru[last]})[key := 0])
    else l.(lru := [key] + l.lru, counts := l.counts[key := 0])
  }

  /** One report: whether it is accepted, and the limiter after it. A limit of zero or less keeps no state. */
  function Take(limit: int, max: nat, l: Limiter, key: Key, day: int): (Limiter, bool) {
    if limit <= 0 then (l, true)
    else
      var t := Touch(max, if day == l.day then l else Fresh(day), key);
      if t.counts[key] >= limit then (t, false)
      else (t.(counts := t.counts[key := t.counts[key] + 1]), true)
  }

  /** The limiter after a day's reports from the given keys, starting with that day's first. */
  function AfterDay(limit: int, max: nat, day: int, log: seq<Key>): Limiter {
    if log == [] then Fresh(day)
    else Take(limit, max, AfterDay(limit, max, day, log[..|log| - 1]), log[|log| - 1], day).0
  }

  function AcceptedAt(limit: int, max: nat, day: int, log: seq<Key>, i: nat): bool
    requires i < |log|
  {
    Take(limit, max, AfterDay(limit, max, day, log[..i]), log[i], day).1
  }

  /** A report on another day starts that day's log: nothing of the old day is left. */
  lemma {:induction false} NewDayStartsFresh(limit: int, max: nat, l: Limiter, key: Key, day: int)
    requires limit > 0 && day != l.day
    ensures Take(limit, max, l, key, day) == Take(limit, max, Fresh(day), key, day)
    ensures Take(limit, max, l, key, day).0 == AfterDay(limit, max, day, [key])
  {
    assert [key][..0] == [];
  }

  /** Map and list hold the same keys, once each, and the list is the recency order of the log cut at `max`. */
  predicate ListInvariant(max: nat, l: Limiter, log: seq<Key>) {
    && l.lru == First(Recency(log), max)
    && l.counts.Keys == Elements(l.lru)
    && Distinct(l.lru) && |l.counts| == |l.lru| <= max
  }

  lemma {:induction false} DistinctCardinality(s: seq<Key>)
    requires Distinct(s)
    ensures |Elements(s)| == |s|
  {
    if s != [] {
      assert Distinct(s[1..]) by {
        assert forall i :: 0 <= i < |s[1..]| ==> s[1..][i] == s[i + 1];
      }
      DistinctCardinality(s[1..]);
      assert Elements(s) == {s[0]} + Elements(s[1..]);
      assert s[0] !in s[1..];
    }
  }

  lemma {:induction false} FirstDistinct(s: seq<Key>, n: nat)
    requires Distinct(s)
    ensures Distinct(First(s, n)) && |First(s, n)| <= n
  {
  }

  lemma {:induction false} RecencyTouched(log: seq<Key>, key: Key)
    ensures Recency(log + [key]) == [key] + Without(Recency(log), key)
  {
    assert (log + [key])[..|log|] == log;
  }

  /** Every touch keeps the invariant for the longer log. */
  lemma {:induction false} TouchKeepsInvariant(max: nat, l: Limiter, log: seq<Key>, key: Key)
    requires ListInvariant(max, l, log) && max > 0
    ensures ListInvariant(max, Touch(max, l, key), log + [key])
  {
    var l' := Touch(max, l, key);
    RecencyTouched(log, key);
    RecencyDistinct(log);
    RecencyDistinct(log + [key]);
    TouchList(max, l, log, key);
    FirstDistinct(Recency(log + [key]), max);
    DistinctCardinality(l'.lru);
    TouchKeys(max, l, key);
    assert |l'.counts| == |l'.counts.Keys|;
  }

  lemma {:induction false} TouchList(max: nat, l: Limiter, log: seq<Key>, key: Key)
    requires ListInvariant(max, l, log) && max > 0 && Distinct(Recency(log))
    ensures Touch(max, l, key).lru == First([key] + Without(Recency(log), key), max)
  {
    var r := Recency(log);
    if key in l.counts {
      FirstOfTouched(r, max, key);
    } else {
      assert key !in l.lru;
      FirstOfUntracked(r, max, key);
      assert First(r, max - 1) == if |l.lru| >= max then l.lru[..max - 1] else l.lru;
    }
  }

  lemma {:induction false} TouchKeys(max: nat, l: Limiter, key: Key)
    requires l.counts.Keys == Elements(l.lru) && Distinct(l.lru) && |l.counts| == |l.lru| && max > 0
    ensures Touch(max, l, key).counts.Keys == Elements(Touch(max, l, key).lru)
  {
    var l' := Touch(max, l, key);
    if key !in l.counts && |l.counts| >= max {
      var last := |l.lru| - 1;
      assert forall x :: x in l.lru[..last] <==> x in l.lru && x != l.lru[last];
    }
    assert forall x :: x in l'.lru <==> x in l'.counts;
  }

  lemma {:induction false} TakeKeepsInvariant(limit: int, max: nat, l: Limiter, log: seq<Key>, key: Key)
    requires ListInvariant(max, l, log) && max > 0 && limit > 0
    ensures var l' := Take(limit, max, l, key, l.day).0; ListInvariant(max, l', log + [key]) && l'.day == l.day
  {
    TouchKeepsInvariant(max, l, log, key);
    var t := Touch(max, l, key);
    TakeIsTouchThenCount(limit, max, l, key, t);
    var n := Take(limit, max, l, key, l.day).0.counts[key];
    BumpKeepsInvariant(max, t, log + [key], key, n);
  }

  lemma {:induction false} TakeIsTouchThenCount(limit: int, max: nat, l: Limiter, key: Key, t: Limiter)
    requires limit > 0 && t == Touch(max, l, key)
    ensures var l' := Take(limit, max, l, key, l.day).0;
            key in l'.counts && l' == t.(counts := t.counts[key := l'.counts[key]]) && l'.day == l.day
  {
    var l' := Take(limit, max, l, key, l.day).0;
    assert t.counts[key := t.counts[key]] == t.counts;
  }

  lemma {:induction false} LogSplits(log: seq<Key>)
    requires log != []
    ensures log == log[..|log| - 1] + [log[|log| - 1]]
  {
  }

  /** On every run of a day the list is the recency order of the day's reports, cut at `max`. */
  lemma {:induction false} DayKeepsInvariant(limit: int, max: nat, day: int, log: seq<Key>)
    requires limit > 0 && max > 0
    ensures ListInvariant(max, AfterDay(limit, max, day, log), log)
    ensures AfterDay(limit, max, day, log).day == day
  {
    if log != [] {
      var init, key := log[..|log| - 1], log[|log| - 1];
      DayKeepsInvariant(limit, max, day, init);
      LogSplits(log);
      TakeKeepsInvariant(limit, max, AfterDay(limit, max, day, init), init, key);
    }
  }

  lemma {:induction false} BumpKeepsInvariant(max: nat, t: Limiter, log: seq<Key>, key: Key, n: nat)
    requires ListInvariant(max, t, log) && key in t.counts
    ensures ListInvariant(max, t.(counts := t.counts[key := n]), log)
  {
    assert t.counts[key := n].Keys == t.counts.Keys;
    assert |t.counts[key := n]| == |t.counts[key := n].Keys| && |t.counts| == |t.counts.Keys|;
  }

  // ---------------------------------------------------------------- eviction

  /** The part of a log after the last touch of `k`. */
  function SinceLast(log: seq<Key>, k: Key): (r: seq<Key>)
    requires k in log
    ensures k !in r
  {
    if log[|log| - 1] == k then []
    else
      assert log == log[..|log| - 1] + [log[|log| - 1]];
      SinceLast(log[..|log| - 1], k) + [log[|log| - 1]]
  }

  /** A key's place in the recency order is the number of other keys touched since its last touch. */
  lemma {:induction false} RecencyPlace(log: seq<Key>, k: Key) returns (i: nat)
    requires k in log
    ensures i < |Recency(log)| && Recency(log)[i] == k
    ensures Elements(Recency(log)[..i]) == Elements(SinceLast(log, k))
  {
    var last := |log| - 1;
    LogSplits(log);
    if log[last] == k {
      i := 0;
    } else {
      var before := RecencyPlace(log[..last], k);
      RecencyDistinct(log[..last]);
      var place := WithoutPlace(Recency(log[..last]), before, log[last]);
      i := place + 1;
      FrontElements(log[last], Without(Recency(log[..last]), log[last]), place);
      AppendElements(SinceLast(log[..last], k), log[last]);
    }
  }

  lemma {:induction false} FrontElements(x: Key, s: seq<Key>, n: nat)
    requires n < |s|
    ensures ([x] + s)[n + 1] == s[n] && Elements(([x] + s)[..n + 1]) == {x} + Elements(s[..n])
  {
    assert ([x] + s)[..n + 1] == [x] + s[..n];
  }

  lemma {:induction false} AppendElements(s: seq<Key>, x: Key)
    ensures Elements(s + [x]) == Elements(s) + {x}
  {
  }

  /** Where the key at `i` stands once another key is dropped, and what stands before it. */
  lemma {:induction false} WithoutPlace(s: seq<Key>, i: nat, x: Key) returns (j: nat)
    requires Distinct(s) && i < |s| && s[i] != x
    ensures j < |Without(s, x)| && Without(s, x)[j] == s[i]
    ensures Elements(Without(s, x)[..j]) == Elements(s[..i]) - {x}
  {
    if i == 0 {
      j := 0;
    } else {
      assert Distinct(s[1..]) by {
        assert forall a :: 0 <= a < |s[1..]| ==> s[1..][a] == s[a + 1];
      }
      var j' := WithoutPlace(s[1..], i - 1, x);
      assert s[..i] == [s[0]] + s[1..][..i - 1];
      assert Elements(s[..i]) == {s[0]} + Elements(s[1..][..i - 1]);
      if s[0] == x {
        j := j';
        assert x !in s[1..];
      } else {
        j := j' + 1;
        assert Without(s, x)[..j] == [s[0]] + Without(s[1..], x)[..j'];
        assert Elements(Without(s, x)[..j]) == {s[0]} + Elements(Without(s[1..], x)[..j']);
      }
    }
  }

  /** A source that reported today and is not tracked was pushed out by at least `max` other sources since. */
  lemma {:induction false} EvictedOnlyAfterMaxOthers(limit: int, max: nat, day: int, log: seq<Key>, k: Key)
    requires limit > 0 && max > 0 && k in log
    requires k !in AfterDay(limit, max, day, log).counts
    ensures |Elements(SinceLast(log, k))| >= max
  {
    DayKeepsInvariant(limit, max, day, log);
    var l := AfterDay(limit, max, day, log);
    var i := RecencyPlace(log, k);
    var r := Recency(log);
    RecencyDistinct(log);
    assert forall j :: 0 <= j < |r| && j < max ==> r[j] == First(r, max)[j] && r[j] in l.lru;
    DistinctCardinality(r[..i]);
  }

  // ---------------------------------------------------------------- the budget

  function Touches(log: seq<Key>, k: Key): nat {
    if log == [] then 0 else Touches(log[..|log| - 1], k) + if log[|log| - 1] == k then 1 else 0
  }

  /** How many of the day's reports from `k` were accepted. */
  function Accepted(limit: int, max: nat, day: int, log: seq<Key>, k: Key): nat {
    if log == [] then 0
    else
      var last := |log| - 1;
      Accepted(limit, max, day, log[..last], k)
      + if log[last] == k && AcceptedAt(limit, max, day, log, last) then 1 else 0
  }

  function Min(a: int, b: int): int { if a <= b then a else b }

  lemma {:induction false} FewSourcesAllTracked(limit: int, max: nat, day: int, log: seq<Key>, k: Key)
    requires limit > 0 && max > 0 && |Elements(log)| <= max
    ensures k in AfterDay(limit, max, day, log).counts <==> k in log
  {
    DayKeepsInvariant(limit, max, day, log);
    RecencyDistinct(log);
    DistinctCardinality(Recency(log));
    assert Elements(Recency(log)) == Elements(log);
  }

  lemma {:induction false} ElementsOfPrefix(log: seq<Key>, n: nat)
    requires n <= |log|
    ensures Elements(log[..n]) <= Elements(log) && |Elements(log[..n])| <= |Elements(log)|
  {
    var a, b := Elements(log[..n]), Elements(log);
    assert a <= b && a + (b - a) == b;
  }

  /**
   On a day with at most `max` sources every source gets exactly its budget: as many
   accepted reports as it sent, up to the limit.
   */
  lemma {:induction false} BudgetIsExact(limit: int, max: nat, day: int, log: seq<Key>, k: Key)
    requires limit > 0 && max > 0 && |Elements(log)| <= max
    ensures Accepted(limit, max, day, log, k) == CountOf(AfterDay(limit, max, day, log), k) == Min(limit, Touches(log, k))
  {
    if log != [] {
      var init, key := log[..|log| - 1], log[|log| - 1];
      ElementsOfPrefix(log, |log| - 1);
      BudgetIsExact(limit, max, day, init, k);
      BudgetIsExact(limit, max, day, init, key);
      var l := AfterDay(limit, max, day, init);
      RoomForNext(limit, max, day, log, l);
      TakeCounts(limit, max, l, key, day, k);
    }
  }

  /** On a day with at most `max` sources the next report finds its source tracked, or room for it. */
  lemma {:induction false} RoomForNext(limit: int, max: nat, day: int, log: seq<Key>, l: Limiter)
    requires limit > 0 && max > 0 && log != [] && |Elements(log)| <= max
    requires l == AfterDay(limit, max, day, log[..|log| - 1])
    ensures l.day == day && (log[|log| - 1] in l.counts || |l.counts| < max)
  {
    var last := |log| - 1;
    ElementsOfPrefix(log, last);
    DayKeepsInvariant(limit, max, day, log[..last]);
    FewSourcesAllTracked(limit, max, day, log[..last], log[last]);
    if log[last] !in l.counts {
      NewSourceFits(max, log, last, l);
    }
  }

  function CountOf(l: Limiter, k: Key): nat { if k in l.counts then l.counts[k] else 0 }

  /** With room for the key, a report changes its own count only: by one while it is under the limit. */
  lemma {:induction false} TakeCounts(limit: int, max: nat, l: Limiter, key: Key, day: int, k: Key)
    requires limit > 0 && l.day == day && (key in l.counts || |l.counts| < max)
    ensures var (l', ok) := Take(limit, max, l, key, day);
            && (ok <==> CountOf(l, key) < limit)
            && (k in l'.counts <==> k in l.counts || k == key)
            && CountOf(l', k) == CountOf(l, k) + if k == key && ok then 1 else 0
  {
  }

  /** A source not seen before today finds room while the day has at most `max` sources. */
  lemma {:induction false} NewSourceFits(max: nat, log: seq<Key>, last: nat, l: Limiter)
    requires |log| == last + 1 && |Elements(log)| <= max && log[last] !in log[..last]
    requires ListInvariant(max, l, log[..last])
    ensures |l.counts| < max
  {
    var before := Elements(log[..last]);
    assert log == log[..last] + [log[last]];
    assert Elements(log) == before + {log[last]};
    assert l.counts.Keys <= before;
    assert l.counts.Keys + (before - l.counts.Keys) == before;
    assert |l.counts| == |l.counts.Keys| <= |before|;
  }

  // ---------------------------------------------------------------- the code

  class DailyLimits {
    const limit: int
    const max: nat
    var day: int
    var counts: map<Key, nat>
    var lru: seq<Key>

    ghost predicate Valid()
      reads this
    {
      max > 0 && counts.Keys == Elements(lru) && Distinct(lru) && |counts| == |lru| <= max
    }

    ghost function State(): Limiter
      reads this
    {
      Limiter(day, lru, counts)
    }

    constructor (limit: int, max: nat, day: int)
      requires max > 0
      ensures Valid() && State() == Fresh(day) && this.limit == limit && this.max == max
    {
      this.limit, this.max, this.day := limit, max, day;
      counts, lru := map[], [];
    }

    /** Tracks `key` as the most recently used source, evicting the least recently used one at capacity. */
    method TouchKey(key: Key)
      requires Valid()
      modifies this
      ensures Valid() && State() == Touch(max, old(State()), key)
    {
      ghost var start := State();
      TouchKeys(max, start, key);
      TouchDistinct(max, start, key);
      if key !in counts {
        if |counts| >= max {
          var last := |lru| - 1;
          counts, lru := counts - {lru[last]}, lru[..last];
        }
        lru := [key] + lru;
        counts := counts[key := 0];
      } else {
        lru := [key] + Without(lru, key);
      }
      assert State() == Touch(max, start, key);
      DistinctCardinality(lru);
      assert |counts| == |counts.Keys|;
    }

    /** Records one accepted report from `key`, or refuses it. */
    method TakeOne(key: Key, today: int) returns (ok: bool)
      requires Valid()
      modifies this
      ensures Valid() && (State(), ok) == Take(limit, max, old(State()), key, today)
    {
      if limit <= 0 {
        return true;
      }
      if today != day {
        day, counts, lru := today, map[], [];
      }
      TouchKey(key);
      if counts[key] >= limit {
        return false;
      }
      ghost var keys := counts.Keys;
      counts := counts[key := counts[key] + 1];
      assert counts.Keys == keys && |counts| == |counts.Keys|;
      return true;
    }
  }

  lemma {:induction false} TouchDistinct(max: nat, l: Limiter, key: Key)
    requires l.counts.Keys == Elements(l.lru) && Distinct(l.lru) && |l.counts| == |l.lru| <= max && max > 0
    ensures Distinct(Touch(max, l, key).lru) && |Touch(max, l, key).lru| <= max
  {
    WithoutDistinct(l.lru, key);
    if key in l.counts {
      WithoutShorter(l.lru, key);
    }
  }

  lemma {:induction false} WithoutShorter(s: seq<Key>, k: Key)
    requires k in s
    ensures |Without(s, k)| < |s|
  {
    if s[0] != k {
      WithoutShorter(s[1..], k);
    }
  }
}
