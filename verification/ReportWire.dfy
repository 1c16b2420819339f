/**
 What telemetryschema/report.go writes for any report, normalised or not: every member
 under its name on the wire, arrays sorted and without repeats, single values in schema 1.
 */
module ReportWire {
  import opened Wrappers
  import opened Basics
  import opened SortedSets
  import opened ReportJson
  import opened ReportSchema
  import opened ReportAcceptance

  // ---------------------------------------------------------------- what is written

  /** An array that holds the members of `s`, each once, in increasing order. */
  ghost predicate WritesSet(x: Json, s: seq<string>) {
    IsTexts(x) && Sorted(TextsOf(x)) && forall y :: y in TextsOf(x) <==> y in s
  }

  /** The one value of `s`; empty when there is none and "other" when there are more. */
  ghost predicate WritesOne(x: Json, s: seq<string>) {
    x.Text? && x.s == if s == [] then "" else if forall i :: 0 <= i < |s| ==> s[i] == s[0] then s[0] else "other"
  }

  ghost predicate WritesEnv(j: Json, e: Env, schema: int) {
    && At(j, "nodes") == Text(e.nodes) && WritesSet(At(j, "arch"), e.arch)
    && if schema < 2 then
         HasMembers(j, ["k8s", "distro", "arch", "nodes"], []) && WritesOne(At(j, "k8s"), e.k8s) && WritesOne(At(j, "distro"), e.distro)
       else
         && HasMembers(j, ["k8s", "distro", "arch", "nodes", "deployment"], [])
         && WritesSet(At(j, "k8s"), e.k8s) && WritesSet(At(j, "distro"), e.distro) && At(j, "deployment") == Text(e.deployment)
  }

  ghost predicate WritesGames(j: Json, g: Games) {
    && HasMembers(j, ["official", "custom"], []) && At(j, "custom") == Number(g.custom)
    && WritesCounts(At(j, "official"), g.official)
  }

  ghost predicate WritesCounts(j: Json, counts: map<string, nat>) {
    IsPlain(j) && KeySet(j.members) == counts.Keys && forall k :: k in counts ==> At(j, k) == Number(counts[k])
  }

  ghost predicate WritesFeatures(j: Json, f: Features) {
    && HasMembers(j, ["wakeOnConnect", "tunnels", "capture", "backups", "sso", "auditForwarding", "clusters", "db", "language"], [])
    && At(j, "wakeOnConnect") == Bool(f.wakeOnConnect) && At(j, "capture") == Bool(f.capture) && At(j, "backups") == Bool(f.backups)
    && At(j, "sso") == Bool(f.sso) && At(j, "auditForwarding") == Bool(f.auditForwarding) && WritesSet(At(j, "tunnels"), f.tunnels)
    && At(j, "clusters") == Text(f.clusters) && At(j, "db") == Text(f.db) && At(j, "language") == Text(f.language)
  }

  ghost predicate WritesExt(v: Vocabulary, j: Json, e: Extended) {
    && HasMembers(j, ["schema", "installId", "env", "games", "features", "key", "sentAt"], [])
    && At(j, "schema") == Number(e.schema) && At(j, "installId") == Text(e.installId) && At(j, "key") == Text(e.key)
    && At(j, "sentAt") == Text(v.formatTime(e.sentAt))
    && WritesEnv(At(j, "env"), e.env, e.schema) && WritesGames(At(j, "games"), e.games) && WritesFeatures(At(j, "features"), e.features)
  }

  ghost predicate WritesReport(v: Vocabulary, j: Json, r: Report) {
    && HasMembers(j, ["version", "servers", "templates"], ["ext"])
    && At(j, "version") == Text(r.version) && At(j, "servers") == Number(r.servers) && At(j, "templates") == Number(r.templates)
    && ("ext" in KeySet(j.members) <==> r.ext.Some?)
    && (r.ext.Some? ==> WritesExt(v, At(j, "ext"), r.ext.value))
  }

  // ---------------------------------------------------------------- the parts

  lemma {:induction false} BuiltSays(keys: seq<string>, values: seq<Json>, j: Json)
    requires |keys| == |values| && NoRepeat(keys) && NoNulls(values) && j == Build(keys, values)
    ensures HasMembers(j, keys, []) && forall k :: k in KeySet(j.members) <==> k in keys
    ensures forall i :: 0 <= i < |keys| ==> At(j, keys[i]) == values[i]
  {
    BuiltIsRead(keys, values);
    ReadIsPlain(j);
    var m := ReadObject(j).value;
    assert forall k :: k in KeySet(j.members) <==> k in m;
    forall i | 0 <= i < |keys|
      ensures At(j, keys[i]) == values[i]
    {
      assert Field(m, keys[i]) == values[i];
    }
  }

  lemma {:induction false} SetIsWritten(s: seq<string>)
    ensures WritesSet(Strings(SortedSet(s)), s)
  {
    SortedSetIsSorted(s);
    SortedMembers(s);
    StringsRead(SortedSet(s));
  }

  lemma {:induction false} OneIsWritten(s: seq<string>)
    ensures WritesOne(Text(Single(s)), s)
  {
    var r := SortedSet(s);
    SortedSetIsSorted(s);
    SortedMembers(s);
    if s != [] {
      assert s[0] in r;
      if |r| == 1 {
        forall i | 0 <= i < |s|
          ensures s[i] == s[0]
        {
          assert s[i] in r;
        }
      } else {
        Trichotomy(r[0], r[1]);
        assert r[0] in s && r[1] in s;
      }
    } else {
      assert r == [];
    }
  }

  lemma {:induction false} EnvIsWritten(e: Env, schema: int)
    ensures WritesEnv(EncodeEnv(e, schema), e, schema)
  {
    EnvDiffer();
    SetIsWritten(e.arch);
    if schema < 2 {
      OneIsWritten(e.k8s);
      OneIsWritten(e.distro);
      var keys, values := EnvKeys1(), [Text(Single(e.k8s)), Text(Single(e.distro)), Strings(SortedSet(e.arch)), Text(e.nodes)];
      BuiltSays(keys, values, EncodeEnv(e, schema));
      FourAre(EncodeEnv(e, schema), keys, values);
    } else {
      SetIsWritten(e.k8s);
      SetIsWritten(e.distro);
      var keys := EnvKeys2();
      var values := [Strings(SortedSet(e.k8s)), Strings(SortedSet(e.distro)), Strings(SortedSet(e.arch)), Text(e.nodes), Text(e.deployment)];
      BuiltSays(keys, values, EncodeEnv(e, schema));
      FourAre(EncodeEnv(e, schema), keys, values);
      assert At(EncodeEnv(e, schema), keys[4]) == values[4];
    }
  }

  lemma {:induction false} FourAre(j: Json, keys: seq<string>, values: seq<Json>)
    requires 4 <= |keys| == |values| && forall i :: 0 <= i < |keys| ==> At(j, keys[i]) == values[i]
    ensures At(j, keys[0]) == values[0] && At(j, keys[1]) == values[1] && At(j, keys[2]) == values[2] && At(j, keys[3]) == values[3]
  {
  }

  lemma {:induction false} CountsAreWritten(m: map<string, nat>)
    ensures WritesCounts(EncodeOfficial(m), m)
  {
    var names := SortedKeys(m);
    SortedSetIsSorted(Listed(m.Keys));
    SortedHasNoRepeat(names);
    BuiltSays(names, Numbers(names, m), EncodeOfficial(m));
    forall k | k in m
      ensures At(EncodeOfficial(m), k) == Number(m[k])
    {
      assert k in names;
      var i :| 0 <= i < |names| && names[i] == k;
    }
  }

  lemma {:induction false} GamesAreWritten(g: Games)
    ensures WritesGames(EncodeGames(g), g)
  {
    GamesDiffer();
    CountsAreWritten(g.official);
    var keys, values := GameKeys(), [EncodeOfficial(g.official), Number(g.custom)];
    BuiltSays(keys, values, EncodeGames(g));
    assert At(EncodeGames(g), keys[0]) == values[0] && At(EncodeGames(g), keys[1]) == values[1];
  }

  lemma {:induction false} FeaturesAreWritten(f: Features)
    ensures WritesFeatures(EncodeFeatures(f), f)
  {
    FeaturesDiffer();
    SetIsWritten(f.tunnels);
    BuiltSays(FeatureKeys(), FeatureValues(f), EncodeFeatures(f));
    NineAre(EncodeFeatures(f), FeatureKeys(), FeatureValues(f), f);
  }

  lemma {:induction false} NineAre(j: Json, keys: seq<string>, values: seq<Json>, f: Features)
    requires keys == FeatureKeys() && values == FeatureValues(f) && WritesSet(values[1], f.tunnels)
    requires HasMembers(j, keys, []) && forall i :: 0 <= i < |keys| ==> At(j, keys[i]) == values[i]
    ensures WritesFeatures(j, f)
  {
    assert At(j, keys[0]) == values[0] && At(j, keys[1]) == values[1] && At(j, keys[2]) == values[2];
    assert At(j, keys[3]) == values[3] && At(j, keys[4]) == values[4] && At(j, keys[5]) == values[5];
    assert At(j, keys[6]) == values[6] && At(j, keys[7]) == values[7] && At(j, keys[8]) == values[8];
  }

  lemma {:induction false} ExtIsWritten(v: Vocabulary, e: Extended)
    ensures WritesExt(v, EncodeExt(v, e), e)
  {
    EnvIsWritten(e.env, e.schema);
    GamesAreWritten(e.games);
    FeaturesAreWritten(e.features);
    ExtValuesOk(v, e);
    PartsAreWritten(v, e, EncodeEnv(e.env, e.schema), EncodeGames(e.games), EncodeFeatures(e.features), ExtValues(v, e), EncodeExt(v, e));
  }

  lemma {:induction false} PartsAreWritten(v: Vocabulary, e: Extended, env: Json, games: Json, features: Json, values: seq<Json>, j: Json)
    requires values == [Number(e.schema), Text(e.installId), env, games, features, Text(e.key), Text(v.formatTime(e.sentAt))]
    requires WritesEnv(env, e.env, e.schema) && WritesGames(games, e.games) && WritesFeatures(features, e.features)
    requires NoNulls(values) && j == Build(ExtKeys(), values)
    ensures WritesExt(v, j, e)
  {
    SevenAre(ExtKeys(), values, j);
  }

  lemma {:induction false} SevenAre(keys: seq<string>, values: seq<Json>, j: Json)
    requires keys == ExtKeys() && |values| == 7 && NoNulls(values) && j == Build(keys, values)
    ensures HasMembers(j, ["schema", "installId", "env", "games", "features", "key", "sentAt"], [])
    ensures At(j, "schema") == values[0] && At(j, "installId") == values[1] && At(j, "env") == values[2]
    ensures At(j, "games") == values[3] && At(j, "features") == values[4] && At(j, "key") == values[5] && At(j, "sentAt") == values[6]
  {
    ExtDiffer();
    BuiltSays(keys, values, j);
    assert At(j, keys[0]) == values[0] && At(j, keys[1]) == values[1] && At(j, keys[2]) == values[2];
    assert At(j, keys[3]) == values[3] && At(j, keys[4]) == values[4] && At(j, keys[5]) == values[5];
    assert At(j, keys[6]) == values[6];
  }

  // ---------------------------------------------------------------- reports

  lemma {:induction false} TopIsWritten(v: Vocabulary, r: Report, keys: seq<string>, values: seq<Json>, j: Json)
    requires r.ext.None? && keys == TopKeys() && values == [Text(r.version), Number(r.servers), Number(r.templates)]
    requires j == Build(keys, values)
    ensures WritesReport(v, j, r)
  {
    TopDiffer();
    BuiltSays(keys, values, j);
    assert At(j, keys[0]) == values[0] && At(j, keys[1]) == values[1] && At(j, keys[2]) == values[2];
    NotAmong(keys);
  }

  lemma {:induction false} WholeIsWritten(v: Vocabulary, r: Report, j: Json)
    requires HasMembers(j, ["version", "servers", "templates"], ["ext"]) && "ext" in KeySet(j.members)
    requires At(j, "version") == Text(r.version) && At(j, "servers") == Number(r.servers) && At(j, "templates") == Number(r.templates)
    requires r.ext.Some? && WritesExt(v, At(j, "ext"), r.ext.value)
    ensures WritesReport(v, j, r)
  {
  }

  lemma {:induction false} TopAndExtAre(keys: seq<string>, values: seq<Json>, j: Json)
    requires keys == TopKeys() + [EXT] && |values| == 4 && NoNulls(values) && j == Build(keys, values)
    ensures HasMembers(j, ["version", "servers", "templates"], ["ext"]) && "ext" in KeySet(j.members)
    ensures At(j, "version") == values[0] && At(j, "servers") == values[1] && At(j, "templates") == values[2] && At(j, "ext") == values[3]
  {
    TopDiffer();
    BuiltSays(keys, values, j);
    FourAre(j, keys, values);
    assert keys[3] in keys;
  }

  /** The members of an extended report. */
  lemma {:induction false} EncodedIs(v: Vocabulary, r: Report, ext: Json, j: Json)
    requires r.ext.Some? && !ext.Null? && j == Build(TopKeys() + [EXT], [Text(r.version), Number(r.servers), Number(r.templates)] + [ext])
    ensures HasMembers(j, ["version", "servers", "templates"], ["ext"]) && "ext" in KeySet(j.members)
    ensures At(j, "version") == Text(r.version) && At(j, "servers") == Number(r.servers) && At(j, "templates") == Number(r.templates)
    ensures At(j, "ext") == ext
  {
    TopAndExtAre(TopKeys() + [EXT], [Text(r.version), Number(r.servers), Number(r.templates)] + [ext], j);
  }

  /** A report is refused exactly for a negative count; otherwise everything it holds is written, and nothing else. */
  lemma {:induction false} EncodeWrites(v: Vocabulary, r: Report)
    ensures Encode(v, r).Success? <==> r.servers >= 0 && r.templates >= 0
    ensures Encode(v, r).Success? ==> WritesReport(v, Encode(v, r).value, r)
  {
    if Encode(v, r).Success? {
      EncodedIsWritten(v, r, Encode(v, r).value);
    }
  }

  lemma {:induction false} EncodedIsWritten(v: Vocabulary, r: Report, j: Json)
    requires Encode(v, r) == Success(j)
    ensures WritesReport(v, j, r)
  {
    if r.ext.None? {
      TopIsWritten(v, r, TopKeys(), [Text(r.version), Number(r.servers), Number(r.templates)], j);
    } else {
      ExtIsWritten(v, r.ext.value);
      EncodedIs(v, r, EncodeExt(v, r.ext.value), j);
      WholeIsWritten(v, r, j);
    }
  }

  // ---------------------------------------------------------------- one text for one report

  ghost predicate SameMembers(a: seq<string>, b: seq<string>) { forall y :: y in a <==> y in b }

  lemma {:induction false} SameSorted(a: seq<string>, b: seq<string>)
    requires SameMembers(a, b)
    ensures SortedSet(a) == SortedSet(b)
  {
    SortedSetIsSorted(a);
    SortedSetIsSorted(b);
    SortedMembers(a);
    SortedMembers(b);
    SortedIsUnique(SortedSet(a), SortedSet(b));
  }

  /** The same report but for the order and the repeats of its sets. */
  ghost predicate SameExt(a: Extended, b: Extended) {
    && SameMembers(a.env.k8s, b.env.k8s) && SameMembers(a.env.distro, b.env.distro) && SameMembers(a.env.arch, b.env.arch)
    && SameMembers(a.features.tunnels, b.features.tunnels)
    && a == b.(env := b.env.(k8s := a.env.k8s, distro := a.env.distro, arch := a.env.arch),
               features := b.features.(tunnels := a.features.tunnels))
  }

  /** The encoding is canonical: such reports are written the same. */
  lemma {:induction false} EncodeIsCanonical(v: Vocabulary, a: Report, b: Report)
    requires a.ext.Some? && b.ext.Some? && SameExt(a.ext.value, b.ext.value) && a == b.(ext := a.ext)
    ensures Encode(v, a) == Encode(v, b)
  {
    var e, f := a.ext.value, b.ext.value;
    SameSorted(e.env.k8s, f.env.k8s);
    SameSorted(e.env.distro, f.env.distro);
    SameSorted(e.env.arch, f.env.arch);
    SameSorted(e.features.tunnels, f.features.tunnels);
    assert EncodeEnv(e.env, e.schema) == EncodeEnv(f.env, f.schema);
    assert EncodeFeatures(e.features) == EncodeFeatures(f.features);
    assert ExtValues(v, e) == ExtValues(v, f);
  }
}
