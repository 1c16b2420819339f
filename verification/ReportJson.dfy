/**
 JSON values as telemetryschema/decode.go reads them: an object keeps its members as
 written, so repeated keys stay visible until they are refused.
 */
module ReportJson {
  import opened Wrappers
  import opened Basics

  /** Fraction stands for any number that is not an integer literal. */
  datatype Json =
    | Null | Bool(b: bool) | Number(n: int) | Fraction | Text(s: string)
    | Array(items: seq<Json>) | Object(members: seq<(string, Json)>)

  type Members = map<string, Json>

  const MAX_INT: int := 0x7fff_ffff_ffff_ffff

  /** The members of an object by key; nothing when a key repeats or a value is null. */
  function ReadMembers(members: seq<(string, Json)>): Option<Members> {
    if members == [] then Some(map[])
    else
      var last := members[|members| - 1];
      match ReadMembers(members[..|members| - 1])
      case None => None
      case Some(m) => if last.0 in m || last.1.Null? then None else Some(m[last.0 := last.1])
  }

  function ReadObject(j: Json): Option<Members> { if j.Object? then ReadMembers(j.members) else None }

  /** Every required key is there, and no key is neither required nor optional. */
  predicate Expect(m: Members, required: seq<string>, optional: seq<string>) {
    (forall k :: k in required ==> k in m) && (forall k :: k in m ==> k in required || k in optional)
  }

  function Field(m: Members, k: string): Json { if k in m then m[k] else Null }

  predicate IsCount(j: Json, least: int) { j.Number? && least <= j.n <= MAX_INT }

  predicate IsTexts(j: Json) { j.Array? && forall i :: 0 <= i < |j.items| ==> j.items[i].Text? }

  function TextsOf(j: Json): (r: seq<string>)
    requires IsTexts(j)
    ensures |r| == |j.items| && forall i :: 0 <= i < |r| ==> r[i] == j.items[i].s
  {
    seq(|j.items|, i requires 0 <= i < |j.items| => j.items[i].s)
  }

  // ---------------------------------------------------------------- building objects

  function Zip(keys: seq<string>, values: seq<Json>): seq<(string, Json)>
    requires |keys| == |values|
  {
    if keys == [] then [] else Zip(keys[..|keys| - 1], values[..|keys| - 1]) + [(keys[|keys| - 1], values[|keys| - 1])]
  }

  predicate NoNulls(values: seq<Json>) { forall i :: 0 <= i < |values| ==> !values[i].Null? }

  function Build(keys: seq<string>, values: seq<Json>): Json
    requires |keys| == |values|
  {
    Object(Zip(keys, values))
  }

  /** What is built from distinct keys is read back, each key with its value. */
  lemma {:induction false} BuiltIsRead(keys: seq<string>, values: seq<Json>)
    requires |keys| == |values| && NoRepeat(keys) && NoNulls(values)
    ensures ReadObject(Build(keys, values)).Some?
    ensures var m := ReadObject(Build(keys, values)).value;
            && (forall k :: k in m <==> k in keys)
            && (forall i :: 0 <= i < |keys| ==> Field(m, keys[i]) == values[i])
  {
    if keys != [] {
      var n := |keys| - 1;
      BuiltIsRead(keys[..n], values[..n]);
      var z := Zip(keys, values);
      assert z[..|z| - 1] == Zip(keys[..n], values[..n]);
      assert keys == keys[..n] + [keys[n]];
      assert keys[n] !in keys[..n];
      assert forall i :: 0 <= i < n ==> keys[..n][i] == keys[i];
    }
  }

  lemma {:induction false} BuiltIsExpected(keys: seq<string>, values: seq<Json>, optional: seq<string>)
    requires |keys| == |values| && NoRepeat(keys) && NoNulls(values)
    ensures ReadObject(Build(keys, values)).Some? && Expect(ReadObject(Build(keys, values)).value, keys, optional)
    ensures forall i :: 0 <= i < |keys| ==> Field(ReadObject(Build(keys, values)).value, keys[i]) == values[i]
  {
    BuiltIsRead(keys, values);
  }

  function Strings(s: seq<string>): (j: Json)
    ensures IsTexts(j)
  {
    Array(seq(|s|, i requires 0 <= i < |s| => Text(s[i])))
  }

  lemma {:induction false} StringsRead(s: seq<string>)
    ensures TextsOf(Strings(s)) == s
  {
  }

  // ---------------------------------------------------------------- member order

  predicate KeysDiffer(members: seq<(string, Json)>) { forall i, j :: 0 <= i < j < |members| ==> members[i].0 != members[j].0 }

  function KeySet(members: seq<(string, Json)>): set<string> { set i | 0 <= i < |members| :: members[i].0 }

  /** Where a key is. */
  function Place(members: seq<(string, Json)>, k: string): (i: nat)
    requires k in KeySet(members)
    ensures i < |members| && members[i].0 == k
  {
    var n := |members| - 1;
    if members[n].0 == k then n
    else
      assert k in KeySet(members[..n]) by {
        var i :| 0 <= i < |members| && members[i].0 == k;
        assert members[..n][i].0 == k;
      }
      Place(members[..n], k)
  }

  /**
   The same value but for the order of object members, at every depth. Two objects that
   repeat a key count as alike: both are refused.
   */
  ghost predicate Alike(a: Json, b: Json)
    decreases a
  {
    match a
    case Array(items) => b.Array? && |items| == |b.items| && forall i :: 0 <= i < |items| ==> Alike(items[i], b.items[i])
    case Object(members) =>
      && b.Object? && (KeysDiffer(members) <==> KeysDiffer(b.members))
      && (KeysDiffer(members) ==>
            && KeySet(members) == KeySet(b.members)
            && forall i :: 0 <= i < |members| ==>
                 members[i].0 in KeySet(b.members) && Alike(members[i].1, b.members[Place(b.members, members[i].0)].1))
    case _ => a == b
  }

  /** Two objects read alike: the same keys, with values alike. */
  ghost predicate MapsAlike(a: Members, b: Members) {
    a.Keys == b.Keys && forall k :: k in a ==> Alike(a[k], b[k])
  }

  /** What was read holds each member and nothing else. */
  lemma {:induction false} ReadHolds(members: seq<(string, Json)>)
    requires ReadMembers(members).Some?
    ensures var m := ReadMembers(members).value;
            && (forall i :: 0 <= i < |members| ==> members[i].0 in m && m[members[i].0] == members[i].1 && !members[i].1.Null?)
            && (forall k :: k in m ==> exists i :: 0 <= i < |members| && members[i].0 == k)
  {
    if members != [] {
      var n := |members| - 1;
      ReadHolds(members[..n]);
      assert forall i :: 0 <= i < n ==> members[..n][i] == members[i];
    }
  }

  /** Reading succeeds exactly when no key repeats and no value is null. */
  lemma {:induction false} ReadExactly(members: seq<(string, Json)>)
    ensures ReadMembers(members).Some? <==> KeysDiffer(members) && forall i :: 0 <= i < |members| ==> !members[i].1.Null?
  {
    if members != [] {
      var n := |members| - 1;
      var init, last := members[..n], members[n];
      ReadExactly(init);
      assert forall i :: 0 <= i < n ==> init[i] == members[i];
      if ReadMembers(init).Some? {
        ReadHolds(init);
        if last.0 in ReadMembers(init).value {
          var i :| 0 <= i < |init| && init[i].0 == last.0;
          assert members[i].0 == members[n].0;
        }
      }
    }
  }

  lemma {:induction false} AlikeNull(a: Json, b: Json)
    requires Alike(a, b)
    ensures a.Null? <==> b.Null?
  {
  }

  /** With distinct keys a key has one place. */
  lemma {:induction false} PlaceIsUnique(members: seq<(string, Json)>, i: nat)
    requires KeysDiffer(members) && i < |members|
    ensures members[i].0 in KeySet(members) && Place(members, members[i].0) == i
  {
    var j := Place(members, members[i].0);
    assert members[j].0 == members[i].0;
  }

  lemma {:induction false} AlikeValue(a: seq<(string, Json)>, b: seq<(string, Json)>, k: string)
    requires Alike(Object(a), Object(b)) && KeysDiffer(a) && k in KeySet(a)
    ensures k in KeySet(b) && Alike(a[Place(a, k)].1, b[Place(b, k)].1)
  {
  }

  lemma {:induction false} NoNullTransfers(a: seq<(string, Json)>, b: seq<(string, Json)>)
    requires Alike(Object(a), Object(b)) && KeysDiffer(a)
    ensures (forall i :: 0 <= i < |a| ==> !a[i].1.Null?) <==> (forall j :: 0 <= j < |b| ==> !b[j].1.Null?)
  {
    forall i | 0 <= i < |a|
      ensures a[i].0 in KeySet(b) && (a[i].1.Null? <==> b[Place(b, a[i].0)].1.Null?)
    {
      PlaceIsUnique(a, i);
      AlikeValue(a, b, a[i].0);
      AlikeNull(a[i].1, b[Place(b, a[i].0)].1);
    }
    forall j | 0 <= j < |b|
      ensures b[j].0 in KeySet(a) && (b[j].1.Null? <==> a[Place(a, b[j].0)].1.Null?)
    {
      PlaceIsUnique(b, j);
      AlikeValue(a, b, b[j].0);
      AlikeNull(a[Place(a, b[j].0)].1, b[j].1);
    }
  }

  lemma {:induction false} ReadAt(members: seq<(string, Json)>)
    requires ReadMembers(members).Some?
    ensures var m := ReadMembers(members).value;
            m.Keys == KeySet(members) && forall k :: k in m ==> m[k] == members[Place(members, k)].1
  {
    ReadHolds(members);
  }

  /** Objects alike are read alike, or refused alike. */
  lemma {:induction false} AlikeRead(a: Json, b: Json)
    requires Alike(a, b)
    ensures ReadObject(a).Some? <==> ReadObject(b).Some?
    ensures ReadObject(a).Some? ==> MapsAlike(ReadObject(a).value, ReadObject(b).value)
  {
    if a.Object? {
      ReadExactly(a.members);
      ReadExactly(b.members);
      if KeysDiffer(a.members) {
        NoNullTransfers(a.members, b.members);
      }
      if ReadObject(a).Some? {
        MembersAlike(a.members, b.members);
      }
    }
  }

  lemma {:induction false} MembersAlike(a: seq<(string, Json)>, b: seq<(string, Json)>)
    requires Alike(Object(a), Object(b)) && KeysDiffer(a) && ReadMembers(a).Some? && ReadMembers(b).Some?
    ensures MapsAlike(ReadMembers(a).value, ReadMembers(b).value)
  {
    ReadAt(a);
    ReadAt(b);
    forall k | k in KeySet(a)
      ensures k in KeySet(b) && Alike(a[Place(a, k)].1, b[Place(b, k)].1)
    {
      AlikeValue(a, b, k);
    }
  }

  lemma {:induction false} AlikeItself(a: Json)
    ensures Alike(a, a)
    decreases a
  {
    match a
    case Array(items) =>
      forall i | 0 <= i < |items|
        ensures Alike(items[i], items[i])
      {
        AlikeItself(items[i]);
      }
    case Object(members) =>
      if KeysDiffer(members) {
        forall i | 0 <= i < |members|
          ensures members[i].0 in KeySet(members) && Alike(members[i].1, members[Place(members, members[i].0)].1)
        {
          PlaceIsUnique(members, i);
          AlikeItself(members[i].1);
        }
      }
    case _ =>
  }

  lemma {:induction false} TwoPlacesMeanTwice(s: seq<(string, Json)>, i: nat, j: nat)
    requires i < j < |s| && s[i] == s[j]
    ensures multiset(s)[s[i]] >= 2
  {
    assert s == s[..j] + [s[j]] + s[j + 1..];
    assert s[..j][i] == s[i] && s[i] in multiset(s[..j]);
    assert multiset(s) == multiset(s[..j]) + multiset{s[j]} + multiset(s[j + 1..]);
  }

  lemma {:induction false} DifferMeansOnce(s: seq<(string, Json)>, x: (string, Json))
    requires KeysDiffer(s)
    ensures multiset(s)[x] <= 1
  {
    if s != [] {
      var n := |s| - 1;
      assert s == s[..n] + [s[n]];
      assert forall i :: 0 <= i < n ==> s[..n][i] == s[i];
      DifferMeansOnce(s[..n], x);
      assert s[n] !in s[..n];
    }
  }

  lemma {:induction false} ReorderedKeysDiffer(a: seq<(string, Json)>, b: seq<(string, Json)>)
    requires multiset(a) == multiset(b) && KeysDiffer(a)
    ensures KeysDiffer(b)
  {
    forall i, j | 0 <= i < j < |b|
      ensures b[i].0 != b[j].0
    {
      var x, y := PlaceOf(a, b, i), PlaceOf(a, b, j);
      if b[i] == b[j] {
        TwoPlacesMeanTwice(b, i, j);
        DifferMeansOnce(a, b[i]);
        assert false;
      } else {
        assert x < y || y < x;
      }
    }
  }

  lemma {:induction false} MemberOf(a: seq<(string, Json)>, b: seq<(string, Json)>, i: nat)
    requires multiset(a) == multiset(b) && i < |b|
    ensures b[i] in a
  {
    assert b[i] in multiset(b);
  }

  ghost function PlaceOf(a: seq<(string, Json)>, b: seq<(string, Json)>, i: nat): (x: nat)
    requires multiset(a) == multiset(b) && i < |b|
    ensures x < |a| && a[x] == b[i]
  {
    MemberOf(a, b, i);
    var x :| 0 <= x < |a| && a[x] == b[i];
    x
  }

  /** Every reordering of an object's members is alike to it. */
  lemma {:induction false} ReorderedIsAlike(a: seq<(string, Json)>, b: seq<(string, Json)>)
    requires multiset(a) == multiset(b)
    ensures Alike(Object(a), Object(b))
  {
    if KeysDiffer(a) {
      ReorderedKeysDiffer(a, b);
    }
    if KeysDiffer(b) {
      ReorderedKeysDiffer(b, a);
      SameKeySet(a, b);
      forall i | 0 <= i < |a|
        ensures a[i].0 in KeySet(b) && Alike(a[i].1, b[Place(b, a[i].0)].1)
      {
        var j := PlaceOf(b, a, i);
        PlaceIsUnique(b, j);
        AlikeItself(a[i].1);
      }
    }
  }

  lemma {:induction false} SameKeySet(a: seq<(string, Json)>, b: seq<(string, Json)>)
    requires multiset(a) == multiset(b)
    ensures KeySet(a) == KeySet(b)
  {
    forall i | 0 <= i < |a|
      ensures a[i].0 in KeySet(b)
    {
      var j := PlaceOf(b, a, i);
      assert b[j].0 in KeySet(b);
    }
    forall i | 0 <= i < |b|
      ensures b[i].0 in KeySet(a)
    {
      var j := PlaceOf(a, b, i);
      assert a[j].0 in KeySet(a);
    }
  }
}
