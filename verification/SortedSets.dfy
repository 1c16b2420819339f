/**
 Sorted duplicate-free lists of strings in byte order, and sums over maps: the values
 telemetryschema normalises to.
 */
module SortedSets {
  import opened Basics

  /** Byte-wise lexicographic order. */
  predicate Less(a: string, b: string) {
    if b == "" then false
    else if a == "" then true
    else a[0] < b[0] || (a[0] == b[0] && Less(a[1..], b[1..]))
  }

  lemma {:induction false} Trichotomy(a: string, b: string)
    ensures Less(a, b) || a == b || Less(b, a)
    ensures !(Less(a, b) && Less(b, a)) && !Less(a, a)
  {
    if a != "" && b != "" {
      Trichotomy(a[1..], b[1..]);
      assert a == [a[0]] + a[1..] && b == [b[0]] + b[1..];
    }
    if a != "" {
      Trichotomy(a[1..], a[1..]);
    }
  }

  lemma {:induction false} Transitive(a: string, b: string, c: string)
    requires Less(a, b) && Less(b, c)
    ensures Less(a, c)
  {
    if a != "" && a[0] == b[0] == c[0] {
      Transitive(a[1..], b[1..], c[1..]);
    }
  }

  predicate Sorted(s: seq<string>) { forall i, j :: 0 <= i < j < |s| ==> Less(s[i], s[j]) }

  function Insert(x: string, s: seq<string>): seq<string> {
    if s == [] || Less(x, s[0]) then [x] + s
    else if x == s[0] then s
    else [s[0]] + Insert(x, s[1..])
  }

  /** What sorting and then dropping repeats leaves of a list. */
  function SortedSet(s: seq<string>): seq<string> { if s == [] then [] else Insert(s[0], SortedSet(s[1..])) }

  lemma {:induction false} InsertMembers(x: string, s: seq<string>)
    ensures forall y :: y in Insert(x, s) <==> y == x || y in s
  {
    if s != [] && !Less(x, s[0]) && x != s[0] {
      InsertMembers(x, s[1..]);
      assert s == [s[0]] + s[1..];
    }
  }

  lemma {:induction false} SortedMembers(s: seq<string>)
    ensures forall y :: y in SortedSet(s) <==> y in s
  {
    if s != [] {
      SortedMembers(s[1..]);
      InsertMembers(s[0], SortedSet(s[1..]));
      assert s == [s[0]] + s[1..];
    }
  }

  lemma {:induction false} ConsSorted(x: string, s: seq<string>)
    requires Sorted(s) && forall y :: y in s ==> Less(x, y)
    ensures Sorted([x] + s)
  {
    var t := [x] + s;
    forall i, j | 0 <= i < j < |t|
      ensures Less(t[i], t[j])
    {
      assert t[j] == s[j - 1] && t[j] in s;
      assert i > 0 ==> t[i] == s[i - 1];
    }
  }

  lemma {:induction false} TailSorted(s: seq<string>)
    requires Sorted(s) && s != []
    ensures Sorted(s[1..]) && forall y :: y in s[1..] ==> Less(s[0], y)
  {
    assert forall i :: 0 <= i < |s[1..]| ==> s[1..][i] == s[i + 1];
  }

  lemma {:induction false} InsertSorted(x: string, s: seq<string>)
    requires Sorted(s)
    ensures Sorted(Insert(x, s))
  {
    if s != [] {
      TailSorted(s);
      Trichotomy(x, s[0]);
      if Less(x, s[0]) {
        forall y | y in s
          ensures Less(x, y)
        {
          if y != s[0] {
            assert s == [s[0]] + s[1..];
            Transitive(x, s[0], y);
          }
        }
        ConsSorted(x, s);
      } else if x != s[0] {
        InsertSorted(x, s[1..]);
        InsertMembers(x, s[1..]);
        ConsSorted(s[0], Insert(x, s[1..]));
      }
    }
  }

  lemma {:induction false} SortedSetIsSorted(s: seq<string>)
    ensures Sorted(SortedSet(s))
  {
    if s != [] {
      SortedSetIsSorted(s[1..]);
      InsertSorted(s[0], SortedSet(s[1..]));
    }
  }

  /** Only one sorted list has given members. */
  lemma {:induction false} SortedIsUnique(a: seq<string>, b: seq<string>)
    requires Sorted(a) && Sorted(b) && forall y :: y in a <==> y in b
    ensures a == b
  {
    if a != [] {
      assert a[0] in b;
    }
    if b != [] {
      assert b[0] in a;
    }
    if a != [] {
      TailSorted(a);
      TailSorted(b);
      SameHead(a, b);
      forall y
        ensures y in a[1..] <==> y in b[1..]
      {
        Trichotomy(a[0], a[0]);
        assert y in a[1..] ==> y in a && y != a[0];
        assert y in b[1..] ==> y in b && y != b[0];
        assert a == [a[0]] + a[1..] && b == [b[0]] + b[1..];
      }
      SortedIsUnique(a[1..], b[1..]);
      assert a == [a[0]] + a[1..] && b == [b[0]] + b[1..];
    }
  }

  lemma {:induction false} SameHead(a: seq<string>, b: seq<string>)
    requires a != [] && b != [] && Sorted(a) && Sorted(b) && forall y :: y in a <==> y in b
    ensures a[0] == b[0]
  {
    assert a[0] in b && b[0] in a;
    var i :| 0 <= i < |b| && b[i] == a[0];
    var j :| 0 <= j < |a| && a[j] == b[0];
    Trichotomy(a[0], b[0]);
  }

  /** A sorted list is its own sorted set. */
  lemma {:induction false} SortedSetOfSorted(s: seq<string>)
    requires Sorted(s)
    ensures SortedSet(s) == s
  {
    SortedSetIsSorted(s);
    SortedMembers(s);
    SortedIsUnique(SortedSet(s), s);
  }

  // ---------------------------------------------------------------- sums over maps

  ghost function Sum(m: map<string, nat>): nat
    decreases |m|
  {
    if m == map[] then 0
    else
      var k :| k in m;
      assert |m - {k}| < |m| by { Smaller(m, k); }
      m[k] + Sum(m - {k})
  }

  lemma {:induction false} SumOfAny(m: map<string, nat>, k: string)
    requires k in m
    ensures Sum(m) == m[k] + Sum(m - {k})
    decreases |m|
  {
    var j :| j in m && Sum(m) == m[j] + Sum(m - {j});
    if j != k {
      var a, b := m - {j}, m - {k};
      Smaller(m, j);
      Smaller(m, k);
      SumOfAny(a, k);
      SumOfAny(b, j);
      assert a[k] == m[k] && b[j] == m[j];
      assert a - {k} == b - {j};
      assert Sum(a - {k}) == Sum(b - {j});
    }
  }

  function Part(m: map<string, nat>, keys: set<string>): map<string, nat> { map k | k in m && k in keys :: m[k] }

  lemma {:induction false} PartWithout(m: map<string, nat>, keys: set<string>, k: string)
    ensures Part(m - {k}, keys) == Part(m, keys) - {k}
    ensures k !in keys ==> Part(m - {k}, keys) == Part(m, keys)
  {
  }

  /** Splitting a map by its keys splits its sum. */
  lemma {:induction false} SumSplits(m: map<string, nat>, yes: set<string>, no: set<string>)
    requires m.Keys <= yes + no && yes !! no
    ensures Sum(m) == Sum(Part(m, yes)) + Sum(Part(m, no))
    decreases |m|
  {
    if m == map[] {
      assert Part(m, yes) == map[] && Part(m, no) == map[];
    } else {
      var k :| k in m;
      Smaller(m, k);
      SumOfAny(m, k);
      PartWithout(m, yes, k);
      PartWithout(m, no, k);
      SumSplits(m - {k}, yes, no);
      if k in yes {
        SumOfAny(Part(m, yes), k);
      } else {
        SumOfAny(Part(m, no), k);
      }
    }
  }
}
