/**
 What telemetryschema/decode.go does with member order, and its loops: reading an
 object, folding an array into its enumeration, and sorting games into the catalog's
 and the rest in whatever order the map yields them.
 */
module ReportDecoder {
  import opened Wrappers
  import opened SortedSets
  import opened ReportJson
  import opened ReportSchema

  // ---------------------------------------------------------------- member order

  lemma {:induction false} AlikeField(a: Members, b: Members, k: string)
    requires MapsAlike(a, b)
    ensures Alike(Field(a, k), Field(b, k)) && (k in a <==> k in b)
  {
    AlikeItself(Null);
  }

  lemma {:induction false} AlikeScalar(a: Json, b: Json)
    requires Alike(a, b)
    ensures !a.Object? && !a.Array? ==> a == b
    ensures (a.Object? <==> b.Object?) && (a.Array? <==> b.Array?)
  {
  }

  lemma {:induction false} AlikeTexts(a: Json, b: Json)
    requires Alike(a, b)
    ensures IsTexts(a) <==> IsTexts(b)
    ensures IsTexts(a) ==> a == b
  {
    if a.Array? && b.Array? {
      forall i | 0 <= i < |a.items|
        ensures (a.items[i].Text? <==> b.items[i].Text?) && (a.items[i].Text? ==> a.items[i] == b.items[i])
      {
        AlikeScalar(a.items[i], b.items[i]);
      }
      assert IsTexts(a) ==> a.items == b.items;
    }
  }

  lemma {:induction false} AlikeExpect(a: Members, b: Members, required: seq<string>, optional: seq<string>)
    requires MapsAlike(a, b)
    ensures Expect(a, required, optional) <==> Expect(b, required, optional)
  {
  }

  /** A field that holds no object is the same on both sides, as far as decoding looks. */
  lemma {:induction false} SameField(a: Members, b: Members, k: string)
    requires MapsAlike(a, b)
    ensures var x, y := Field(a, k), Field(b, k);
            && (x.Text? <==> y.Text?) && (x.Bool? <==> y.Bool?) && (x.Number? <==> y.Number?) && (IsTexts(x) <==> IsTexts(y))
            && (x.Text? || x.Bool? || x.Number? || IsTexts(x) ==> x == y)
  {
    AlikeField(a, b, k);
    AlikeScalar(Field(a, k), Field(b, k));
    AlikeTexts(Field(a, k), Field(b, k));
  }

  lemma {:induction false} EnvIgnoresOrder(v: Vocabulary, a: Json, b: Json, schema: int)
    requires Alike(a, b)
    ensures DecodeEnv(v, a, schema) == DecodeEnv(v, b, schema)
  {
    AlikeRead(a, b);
    if ReadObject(a).Some? {
      var ma, mb := ReadObject(a).value, ReadObject(b).value;
      Env2IgnoresOrder(v, ma, mb);
      Env1IgnoresOrder(v, ma, mb);
    }
  }

  lemma {:induction false} Env2IgnoresOrder(v: Vocabulary, a: Members, b: Members)
    requires MapsAlike(a, b)
    ensures DecodeEnv2(v, a) == DecodeEnv2(v, b)
  {
    AlikeExpect(a, b, EnvKeys2(), []);
    SameField(a, b, K8S);
    SameField(a, b, DISTRO);
    SameField(a, b, ARCH);
    SameField(a, b, NODES);
    SameField(a, b, DEPLOYMENT);
  }

  lemma {:induction false} Env1IgnoresOrder(v: Vocabulary, a: Members, b: Members)
    requires MapsAlike(a, b)
    ensures DecodeEnv1(v, a) == DecodeEnv1(v, b)
  {
    AlikeExpect(a, b, EnvKeys1(), []);
    SameField(a, b, K8S);
    SameField(a, b, DISTRO);
    SameField(a, b, ARCH);
    SameField(a, b, NODES);
  }

  lemma {:induction false} CountsIgnoreOrder(a: Members, b: Members)
    requires MapsAlike(a, b)
    ensures AllCounts(a) <==> AllCounts(b)
    ensures AllCounts(a) ==> CountsOf(a) == CountsOf(b)
  {
    forall k | k in a
      ensures IsCount(a[k], 1) <==> IsCount(b[k], 1)
      ensures IsCount(a[k], 1) ==> a[k] == b[k]
    {
      AlikeScalar(a[k], b[k]);
    }
  }

  lemma {:induction false} GamesIgnoreOrder(v: Vocabulary, a: Json, b: Json)
    requires Alike(a, b)
    ensures DecodeGames(v, a) == DecodeGames(v, b)
  {
    AlikeRead(a, b);
    if ReadObject(a).Some? {
      var ma, mb := ReadObject(a).value, ReadObject(b).value;
      AlikeExpect(ma, mb, GameKeys(), []);
      SameField(ma, mb, CUSTOM);
      AlikeField(ma, mb, OFFICIAL);
      AlikeRead(Field(ma, OFFICIAL), Field(mb, OFFICIAL));
      if ReadObject(Field(ma, OFFICIAL)).Some? {
        CountsIgnoreOrder(ReadObject(Field(ma, OFFICIAL)).value, ReadObject(Field(mb, OFFICIAL)).value);
      }
    }
  }

  lemma {:induction false} FeaturesIgnoreOrder(v: Vocabulary, a: Json, b: Json)
    requires Alike(a, b)
    ensures DecodeFeatures(v, a) == DecodeFeatures(v, b)
  {
    AlikeRead(a, b);
    if ReadObject(a).Some? {
      var ma, mb := ReadObject(a).value, ReadObject(b).value;
      AlikeExpect(ma, mb, FeatureKeys(), []);
      FeatureFieldsAlike(v, ma, mb);
    }
  }

  lemma {:induction false} FeatureFieldsAlike(v: Vocabulary, a: Members, b: Members)
    requires MapsAlike(a, b)
    ensures FeatureTypes(a) <==> FeatureTypes(b)
    ensures FeatureTypes(a) ==> FeaturesIn(v, a) == FeaturesIn(v, b)
  {
    SameField(a, b, WAKE);
    SameField(a, b, TUNNELS);
    SameField(a, b, CAPTURE);
    SameField(a, b, BACKUPS);
    SameField(a, b, SSO);
    SameField(a, b, AUDIT);
    SameField(a, b, CLUSTERS);
    SameField(a, b, DB);
    SameField(a, b, LANGUAGE);
  }

  lemma {:induction false} ExtFieldsAlike(v: Vocabulary, a: Members, b: Members)
    requires MapsAlike(a, b)
    ensures ExtIn(v, a) == ExtIn(v, b) && SchemaFault(a) == SchemaFault(b)
  {
    SameField(a, b, SCHEMA);
    SameField(a, b, INSTALL_ID);
    SameField(a, b, KEY);
    SameField(a, b, SENT_AT);
    AlikeField(a, b, SCHEMA);
    AlikeField(a, b, ENV);
    AlikeField(a, b, GAMES);
    AlikeField(a, b, FEATURES);
    if ExtTypes(v, a) {
      EnvIgnoresOrder(v, Field(a, ENV), Field(b, ENV), Field(a, SCHEMA).n);
    }
    GamesIgnoreOrder(v, Field(a, GAMES), Field(b, GAMES));
    FeaturesIgnoreOrder(v, Field(a, FEATURES), Field(b, FEATURES));
  }

  lemma {:induction false} ExtIgnoresOrder(v: Vocabulary, a: Json, b: Json)
    requires Alike(a, b)
    ensures DecodeExt(v, a) == DecodeExt(v, b)
  {
    AlikeRead(a, b);
    if ReadObject(a).Some? {
      var ma, mb := ReadObject(a).value, ReadObject(b).value;
      ExtFieldsAlike(v, ma, mb);
      AlikeExpect(ma, mb, ExtKeys(), []);
    }
  }

  /** The order of members, at any depth, never changes what a report decodes to. */
  lemma {:induction false} DecodeIgnoresOrder(v: Vocabulary, a: Json, b: Json)
    requires Alike(a, b)
    ensures Decode(v, a) == Decode(v, b)
  {
    AlikeRead(a, b);
    if ReadObject(a).Some? {
      var ma, mb := ReadObject(a).value, ReadObject(b).value;
      AlikeExpect(ma, mb, TopKeys(), [EXT]);
      SameField(ma, mb, VERSION);
      SameField(ma, mb, SERVERS);
      SameField(ma, mb, TEMPLATES);
      if EXT in ma {
        ExtIgnoresOrder(v, ma[EXT], mb[EXT]);
      }
    }
  }

  /** In particular, reordering a report's own members. */
  lemma {:induction false} DecodeIgnoresReordering(v: Vocabulary, a: seq<(string, Json)>, b: seq<(string, Json)>)
    requires multiset(a) == multiset(b)
    ensures Decode(v, Object(a)) == Decode(v, Object(b))
  {
    ReorderedIsAlike(a, b);
    DecodeIgnoresOrder(v, Object(a), Object(b));
  }

  // ---------------------------------------------------------------- the loops

  method ReadStrictly(members: seq<(string, Json)>) returns (m: Option<Members>)
    ensures m == ReadMembers(members)
  {
    var o: Members := map[];
    for i := 0 to |members|
      invariant ReadMembers(members[..i]) == Some(o)
    {
      assert members[..i + 1][..i] == members[..i];
      var (key, value) := members[i];
      if key in o || value.Null? {
        StaysRefused(members, i + 1);
        return None;
      }
      o := o[key := value];
    }
    assert members[..|members|] == members;
    return Some(o);
  }

  /** Nothing later mends a refused object. */
  lemma {:induction false} StaysRefused(members: seq<(string, Json)>, i: nat)
    requires i <= |members| && ReadMembers(members[..i]).None?
    ensures ReadMembers(members).None?
    decreases |members|
  {
    if i == |members| {
      assert members[..i] == members;
    } else {
      var n := |members| - 1;
      assert members[..n][..i] == members[..i];
      StaysRefused(members[..n], i);
    }
  }

  method FoldSet(known: string -> bool, items: seq<Json>) returns (r: Option<seq<string>>)
    ensures r == DecodeSet(known, Array(items))
  {
    var out: seq<string> := [];
    for i := 0 to |items|
      invariant |out| == i && forall j :: 0 <= j < i ==> items[j].Text? && out[j] == Fold(known, items[j].s)
    {
      if !items[i].Text? {
        assert !IsTexts(Array(items));
        return None;
      }
      out := out + [Fold(known, items[i].s)];
    }
    assert IsTexts(Array(items));
    assert out == FoldAll(known, TextsOf(Array(items)));
    return Some(SortedSet(out));
  }

  /** Sorts the counts in the order the map yields them, refusing an overflow as soon as one comes. */
  method SortGames(v: Vocabulary, counts: map<string, nat>, custom: nat) returns (g: Option<Games>)
    requires custom <= MAX_INT && forall k :: k in counts ==> 1 <= counts[k] <= MAX_INT
    ensures g == Sort(v, counts, custom)
  {
    var official: map<string, nat> := map[];
    var total: nat := custom;
    var todo := counts.Keys;
    ghost var known := Known(v, counts.Keys);
    ghost var unknown := counts.Keys - known;
    NothingDone(counts, known, unknown);
    while todo != {}
      invariant todo <= counts.Keys && total <= MAX_INT
      invariant official == Part(counts, known - todo)
      invariant total == custom + Sum(Part(counts, unknown - todo))
      decreases |todo|
    {
      var name :| name in todo;
      OneMore(counts, known, todo, name);
      OneMore(counts, unknown, todo, name);
      var n := counts[name];
      if v.official(name) {
        official := official[name := n];
      } else {
        if total > MAX_INT - n {
          MoreIsMore(counts, unknown, todo - {name});
          return None;
        }
        total := total + n;
      }
      todo := todo - {name};
    }
    assert known - {} == known && unknown - {} == unknown;
    return Some(Games(official, total));
  }

  lemma {:induction false} NothingDone(counts: map<string, nat>, known: set<string>, unknown: set<string>)
    requires known <= counts.Keys && unknown <= counts.Keys
    ensures Part(counts, known - counts.Keys) == map[] && Part(counts, unknown - counts.Keys) == map[]
  {
  }

  /** Taking a name off the list adds its count to the part it belongs to. */
  lemma {:induction false} OneMore(counts: map<string, nat>, keys: set<string>, todo: set<string>, name: string)
    requires name in todo && todo <= counts.Keys
    ensures var before, after := Part(counts, keys - todo), Part(counts, keys - (todo - {name}));
            if name in keys then after == before[name := counts[name]] && Sum(after) == Sum(before) + counts[name]
            else after == before
  {
    var before, after := Part(counts, keys - todo), Part(counts, keys - (todo - {name}));
    if name in keys {
      assert after == before[name := counts[name]];
      SumOfAny(after, name);
      assert after - {name} == before;
    } else {
      assert after == before;
    }
  }

  /** The sum over a part is at most the sum over the whole. */
  lemma {:induction false} MoreIsMore(counts: map<string, nat>, keys: set<string>, todo: set<string>)
    ensures Sum(Part(counts, keys - todo)) <= Sum(Part(counts, keys))
  {
    var whole := Part(counts, keys);
    SumSplits(whole, keys - todo, todo);
    assert Part(whole, keys - todo) == Part(counts, keys - todo);
  }
}
