/**
 Exactly which report bodies telemetryschema/decode.go accepts, and what it makes of
 them, member by member with the names as they are written on the wire.
 */
module ReportAcceptance {
  import opened Wrappers
  import opened SortedSets
  import opened ReportJson
  import opened ReportSchema

  // ---------------------------------------------------------------- objects

  /** The value written under a key; Null when there is none. */
  function At(j: Json, k: string): Json {
    if j.Object? && k in KeySet(j.members) then j.members[Place(j.members, k)].1 else Null
  }

  predicate NoNullMembers(members: seq<(string, Json)>) { forall i :: 0 <= i < |members| ==> !members[i].1.Null? }

  /** An object without repeated keys and without nulls. */
  predicate IsPlain(j: Json) { j.Object? && KeysDiffer(j.members) && NoNullMembers(j.members) }

  /** Such an object with every required member, and no member that is neither required nor optional. */
  predicate HasMembers(j: Json, required: seq<string>, optional: seq<string>) {
    && IsPlain(j) && (forall k :: k in required ==> k in KeySet(j.members))
    && (forall k :: k in KeySet(j.members) ==> k in required || k in optional)
  }

  /** Reading an object into a map keeps exactly that. */
  lemma {:induction false} ReadIsPlain(j: Json)
    ensures ReadObject(j).Some? <==> IsPlain(j)
    ensures ReadObject(j).Some? ==> ReadObject(j).value.Keys == KeySet(j.members)
    ensures ReadObject(j).Some? ==> forall k :: Field(ReadObject(j).value, k) == At(j, k)
  {
    if j.Object? {
      ReadExactly(j.members);
      if ReadObject(j).Some? {
        ReadAt(j.members);
      }
    }
  }

  lemma {:induction false} ExpectIsMembers(j: Json, required: seq<string>, optional: seq<string>)
    ensures ReadObject(j).Some? && Expect(ReadObject(j).value, required, optional) <==> HasMembers(j, required, optional)
  {
    ReadIsPlain(j);
  }

  predicate CountAt(j: Json, k: string, least: int) { At(j, k).Number? && least <= At(j, k).n <= 0x7fff_ffff_ffff_ffff }

  /** A non-empty array of texts. */
  predicate ListAt(j: Json, k: string) { IsTexts(At(j, k)) && |At(j, k).items| > 0 }

  // ---------------------------------------------------------------- what is accepted

  predicate AcceptsEnv(j: Json, schema: int) {
    if schema < 2 then
      && HasMembers(j, ["k8s", "distro", "arch", "nodes"], [])
      && At(j, "k8s").Text? && At(j, "distro").Text? && ListAt(j, "arch") && At(j, "nodes").Text?
    else
      && HasMembers(j, ["k8s", "distro", "arch", "nodes", "deployment"], [])
      && ListAt(j, "k8s") && ListAt(j, "distro") && ListAt(j, "arch") && At(j, "nodes").Text? && At(j, "deployment").Text?
  }

  predicate IsCounter(x: Json) { x.Number? && 1 <= x.n <= 0x7fff_ffff_ffff_ffff }

  predicate AreCounters(j: Json) { IsPlain(j) && forall i :: 0 <= i < |j.members| ==> IsCounter(j.members[i].1) }

  /** The servers of the first `n` members that are not in the catalog. */
  function Unlisted(v: Vocabulary, members: seq<(string, Json)>, n: nat): (total: nat)
    requires n <= |members| && forall i :: 0 <= i < |members| ==> IsCounter(members[i].1)
  {
    if n == 0 then 0
    else Unlisted(v, members, n - 1) + if v.official(members[n - 1].0) then 0 else members[n - 1].1.n
  }

  predicate AcceptsGames(v: Vocabulary, j: Json) {
    && HasMembers(j, ["official", "custom"], []) && CountAt(j, "custom", 0) && AreCounters(At(j, "official"))
    && At(j, "custom").n + Unlisted(v, At(j, "official").members, |At(j, "official").members|) <= 0x7fff_ffff_ffff_ffff
  }

  predicate AcceptsFeatures(j: Json) {
    && HasMembers(j, ["wakeOnConnect", "tunnels", "capture", "backups", "sso", "auditForwarding", "clusters", "db", "language"], [])
    && At(j, "wakeOnConnect").Bool? && At(j, "capture").Bool? && At(j, "backups").Bool? && At(j, "sso").Bool?
    && At(j, "auditForwarding").Bool? && IsTexts(At(j, "tunnels"))
    && At(j, "clusters").Text? && At(j, "db").Text? && At(j, "language").Text?
  }

  predicate AcceptsExt(v: Vocabulary, j: Json) {
    && HasMembers(j, ["schema", "installId", "env", "games", "features", "key", "sentAt"], [])
    && CountAt(j, "schema", 1) && At(j, "schema").n <= 2
    && At(j, "installId").Text? && At(j, "key").Text? && v.key(At(j, "key").s)
    && At(j, "sentAt").Text? && v.parseTime(At(j, "sentAt").s).Some?
    && AcceptsEnv(At(j, "env"), At(j, "schema").n) && AcceptsGames(v, At(j, "games")) && AcceptsFeatures(At(j, "features"))
  }

  /** The outer object: a version and two counts, with or without an extended part. */
  predicate AcceptsOuter(j: Json) {
    && HasMembers(j, ["version", "servers", "templates"], ["ext"])
    && At(j, "version").Text? && CountAt(j, "servers", 0) && CountAt(j, "templates", 0)
  }

  predicate Accepts(v: Vocabulary, j: Json) {
    AcceptsOuter(j) && ("ext" in KeySet(j.members) ==> AcceptsExt(v, At(j, "ext")))
  }

  /** An object whose schema is a number above 2. */
  predicate IsNewer(j: Json) { IsPlain(j) && At(j, "schema").Number? && 2 < At(j, "schema").n <= 0x7fff_ffff_ffff_ffff }

  lemma {:induction false} EnvExactly(v: Vocabulary, j: Json, schema: int)
    ensures DecodeEnv(v, j, schema).Some? <==> AcceptsEnv(j, schema)
  {
    ReadIsPlain(j);
    if schema < 2 {
      ExpectIsMembers(j, ["k8s", "distro", "arch", "nodes"], []);
      ListDecodes(v.arches, At(j, "arch"));
    } else {
      ExpectIsMembers(j, ["k8s", "distro", "arch", "nodes", "deployment"], []);
      ListDecodes(v.k8s, At(j, "k8s"));
      ListDecodes(v.distros, At(j, "distro"));
      ListDecodes(v.arches, At(j, "arch"));
    }
  }

  lemma {:induction false} ListDecodes(known: string -> bool, x: Json)
    ensures DecodeSet(known, x).Some? <==> IsTexts(x)
    ensures IsTexts(x) ==> (DecodeSet(known, x).value != [] <==> |x.items| > 0)
  {
    if IsTexts(x) {
      var folded := FoldAll(known, TextsOf(x));
      SortedMembers(folded);
      if |x.items| > 0 {
        assert folded[0] in SortedSet(folded);
      }
    }
  }

  lemma {:induction false} FeaturesExactly(v: Vocabulary, j: Json)
    ensures DecodeFeatures(v, j).Some? <==> AcceptsFeatures(j)
  {
    ReadIsPlain(j);
    ExpectIsMembers(j, ["wakeOnConnect", "tunnels", "capture", "backups", "sso", "auditForwarding", "clusters", "db", "language"], []);
  }

  // ---------------------------------------------------------------- games

  /** The counts of modules that are not in the catalog. */
  function Others(v: Vocabulary, counts: map<string, nat>): map<string, nat> { map k | k in counts && !v.official(k) :: counts[k] }

  lemma {:induction false} OthersGrow(v: Vocabulary, counts: map<string, nat>, k: string, n: nat)
    requires k !in counts
    ensures Sum(Others(v, counts[k := n])) == Sum(Others(v, counts)) + if v.official(k) then 0 else n
  {
    var more := Others(v, counts[k := n]);
    if v.official(k) {
      assert more == Others(v, counts);
    } else {
      assert more - {k} == Others(v, counts) && more[k] == n;
      SumOfAny(more, k);
    }
  }

  lemma {:induction false} UnlistedSum(v: Vocabulary, members: seq<(string, Json)>, n: nat, m: Members)
    requires n <= |members| && (forall i :: 0 <= i < |members| ==> IsCounter(members[i].1)) && ReadMembers(members[..n]) == Some(m)
    ensures AllCounts(m) && Sum(Others(v, CountsOf(m))) == Unlisted(v, members, n)
    decreases n
  {
    if n == 0 {
      assert members[..0] == [] && Others(v, CountsOf(m)) == map[];
    } else {
      var last := members[n - 1];
      assert members[..n][..n - 1] == members[..n - 1];
      var before := ReadMembers(members[..n - 1]).value;
      UnlistedSum(v, members, n - 1, before);
      assert CountsOf(m) == CountsOf(before)[last.0 := last.1.n];
      OthersGrow(v, CountsOf(before), last.0, last.1.n);
    }
  }

  lemma {:induction false} SortExactly(v: Vocabulary, counts: map<string, nat>, custom: int)
    requires custom >= 0
    ensures Sort(v, counts, custom).Some? <==> custom + Sum(Others(v, counts)) <= 0x7fff_ffff_ffff_ffff
    ensures Sort(v, counts, custom).Some? ==>
              var g := Sort(v, counts, custom).value;
              && g.custom == custom + Sum(Others(v, counts))
              && (forall k :: k in g.official <==> k in counts && v.official(k)) && (forall k :: k in g.official ==> g.official[k] == counts[k])
  {
    assert Part(counts, counts.Keys - Known(v, counts.Keys)) == Others(v, counts);
  }

  lemma {:induction false} CountersExactly(j: Json)
    ensures AreCounters(j) <==> ReadObject(j).Some? && AllCounts(ReadObject(j).value)
  {
    ReadIsPlain(j);
    if ReadObject(j).Some? {
      ReadHolds(j.members);
      var m := ReadObject(j).value;
      if AreCounters(j) {
        forall k | k in m
          ensures IsCount(m[k], 1)
        {
          var i :| 0 <= i < |j.members| && j.members[i].0 == k;
        }
      }
    }
  }

  lemma {:induction false} GamesExactly(v: Vocabulary, j: Json)
    ensures DecodeGames(v, j).Some? <==> AcceptsGames(v, j)
  {
    ReadIsPlain(j);
    ExpectIsMembers(j, ["official", "custom"], []);
    CountersExactly(At(j, "official"));
    if HasMembers(j, ["official", "custom"], []) && CountAt(j, "custom", 0) && AreCounters(At(j, "official")) {
      OfficialSum(v, At(j, "official"), At(j, "custom").n);
    }
  }

  lemma {:induction false} OfficialSum(v: Vocabulary, official: Json, custom: int)
    requires AreCounters(official) && custom >= 0
    ensures ReadObject(official).Some? && AllCounts(ReadObject(official).value)
    ensures Sort(v, CountsOf(ReadObject(official).value), custom).Some?
            <==> custom + Unlisted(v, official.members, |official.members|) <= 0x7fff_ffff_ffff_ffff
    ensures Sum(Others(v, CountsOf(ReadObject(official).value))) == Unlisted(v, official.members, |official.members|)
  {
    CountersExactly(official);
    var n := |official.members|;
    assert official.members[..n] == official.members;
    UnlistedSum(v, official.members, n, ReadObject(official).value);
    SortExactly(v, CountsOf(ReadObject(official).value), custom);
  }

  // ---------------------------------------------------------------- the whole report

  lemma {:induction false} ExtExactly(v: Vocabulary, j: Json)
    ensures DecodeExt(v, j).Success? <==> AcceptsExt(v, j)
    ensures DecodeExt(v, j) == Failure(Unsupported) <==> IsNewer(j)
  {
    ReadIsPlain(j);
    ExpectIsMembers(j, ["schema", "installId", "env", "games", "features", "key", "sentAt"], []);
    if IsPlain(j) {
      PartsExactly(v, j, ReadObject(j).value);
    }
  }

  lemma {:induction false} PartsExactly(v: Vocabulary, j: Json, m: Members)
    requires IsPlain(j) && m.Keys == KeySet(j.members) && forall k :: Field(m, k) == At(j, k)
    ensures ExtIn(v, m).Some? <==>
            && CountAt(j, "schema", 1) && At(j, "installId").Text? && At(j, "key").Text? && v.key(At(j, "key").s)
            && At(j, "sentAt").Text? && v.parseTime(At(j, "sentAt").s).Some?
            && AcceptsEnv(At(j, "env"), At(j, "schema").n) && AcceptsGames(v, At(j, "games")) && AcceptsFeatures(At(j, "features"))
  {
    if At(j, "schema").Number? {
      EnvExactly(v, At(j, "env"), At(j, "schema").n);
    }
    GamesExactly(v, At(j, "games"));
    FeaturesExactly(v, At(j, "features"));
  }

  /**
   A body decodes exactly when it is accepted, and is called unsupported exactly when
   its outer object is and its extended part announces a schema above 2; every other
   body is invalid.
   */
  lemma {:induction false} DecodesExactly(v: Vocabulary, j: Json)
    ensures Decode(v, j).Success? <==> Accepts(v, j)
    ensures Decode(v, j) == Failure(Unsupported) <==> AcceptsOuter(j) && "ext" in KeySet(j.members) && IsNewer(At(j, "ext"))
  {
    OuterExactly(j);
    ExtExactly(v, At(j, "ext"));
  }

  lemma {:induction false} OuterExactly(j: Json)
    ensures AcceptsOuter(j) <==> ReadObject(j).Some? && Expect(ReadObject(j).value, TopKeys(), [EXT]) && TopTypes(ReadObject(j).value)
    ensures AcceptsOuter(j) ==>
              var m := ReadObject(j).value;
              && (EXT in m <==> "ext" in KeySet(j.members)) && (EXT in m ==> m[EXT] == At(j, "ext"))
              && Field(m, VERSION) == At(j, "version") && Field(m, SERVERS) == At(j, "servers") && Field(m, TEMPLATES) == At(j, "templates")
  {
    ReadIsPlain(j);
    ExpectIsMembers(j, ["version", "servers", "templates"], ["ext"]);
  }

  // ---------------------------------------------------------------- what an accepted report says

  function Folded(known: string -> bool, t: string): string { if known(t) then t else "other" }

  /** The sorted set of the texts, those outside the enumeration folded to "other". */
  ghost predicate ListSays(known: string -> bool, x: Json, s: seq<string>) {
    IsTexts(x) && Sorted(s) && forall y :: y in s <==> exists i :: 0 <= i < |x.items| && y == Folded(known, x.items[i].s)
  }

  ghost predicate EnvSays(v: Vocabulary, j: Json, schema: int, e: Env) {
    && ListSays(v.arches, At(j, "arch"), e.arch) && At(j, "nodes").Text? && e.nodes == Folded(v.nodeBands, At(j, "nodes").s)
    && if schema < 2 then
         && At(j, "k8s").Text? && e.k8s == [Folded(v.k8s, At(j, "k8s").s)]
         && At(j, "distro").Text? && e.distro == [Folded(v.distros, At(j, "distro").s)] && e.deployment == "other"
       else
         && ListSays(v.k8s, At(j, "k8s"), e.k8s) && ListSays(v.distros, At(j, "distro"), e.distro)
         && At(j, "deployment").Text? && e.deployment == Folded(v.deployments, At(j, "deployment").s)
  }

  ghost predicate GamesSay(v: Vocabulary, j: Json, g: Games) {
    var official := At(j, "official");
    && AreCounters(official) && At(j, "custom").Number?
    && g.custom == At(j, "custom").n + Unlisted(v, official.members, |official.members|)
    && (forall k :: k in g.official <==> k in KeySet(official.members) && v.official(k))
    && (forall i :: 0 <= i < |official.members| && v.official(official.members[i].0) ==>
          official.members[i].0 in g.official && g.official[official.members[i].0] == official.members[i].1.n)
  }

  ghost predicate FeaturesSay(v: Vocabulary, j: Json, f: Features) {
    && At(j, "wakeOnConnect") == Bool(f.wakeOnConnect) && At(j, "capture") == Bool(f.capture) && At(j, "backups") == Bool(f.backups)
    && At(j, "sso") == Bool(f.sso) && At(j, "auditForwarding") == Bool(f.auditForwarding)
    && ListSays(v.tunnels, At(j, "tunnels"), f.tunnels)
    && At(j, "clusters").Text? && f.clusters == Folded(v.clusterBands, At(j, "clusters").s)
    && At(j, "db").Text? && f.db == Folded(v.dbs, At(j, "db").s)
    && At(j, "language").Text? && f.language == Folded(v.languages, At(j, "language").s)
  }

  ghost predicate ExtSays(v: Vocabulary, j: Json, e: Extended) {
    && At(j, "schema") == Number(e.schema) && At(j, "installId") == Text(e.installId) && At(j, "key") == Text(e.key)
    && At(j, "sentAt").Text? && v.parseTime(At(j, "sentAt").s) == Some(e.sentAt)
    && EnvSays(v, At(j, "env"), e.schema, e.env) && GamesSay(v, At(j, "games"), e.games) && FeaturesSay(v, At(j, "features"), e.features)
  }

  lemma {:induction false} SetSays(known: string -> bool, x: Json)
    requires IsTexts(x)
    ensures ListSays(known, x, DecodeSet(known, x).value)
  {
    var folded := FoldAll(known, TextsOf(x));
    SortedSetIsSorted(folded);
    SortedMembers(folded);
    forall y
      ensures y in folded <==> exists i :: 0 <= i < |x.items| && y == Folded(known, x.items[i].s)
    {
      if y in folded {
        var i :| 0 <= i < |folded| && folded[i] == y;
        assert y == Folded(known, x.items[i].s);
      }
      if exists i :: 0 <= i < |x.items| && y == Folded(known, x.items[i].s) {
        var i :| 0 <= i < |x.items| && y == Folded(known, x.items[i].s);
        assert folded[i] == y;
      }
    }
  }

  lemma {:induction false} DecodedEnvSays(v: Vocabulary, j: Json, schema: int)
    requires DecodeEnv(v, j, schema).Some?
    ensures EnvSays(v, j, schema, DecodeEnv(v, j, schema).value)
  {
    ReadIsPlain(j);
    SetSays(v.arches, At(j, "arch"));
    if schema >= 2 {
      SetSays(v.k8s, At(j, "k8s"));
      SetSays(v.distros, At(j, "distro"));
    }
  }

  lemma {:induction false} DecodedFeaturesSay(v: Vocabulary, j: Json)
    requires DecodeFeatures(v, j).Some?
    ensures FeaturesSay(v, j, DecodeFeatures(v, j).value)
  {
    ReadIsPlain(j);
    SetSays(v.tunnels, At(j, "tunnels"));
  }

  lemma {:induction false} DecodedGamesSay(v: Vocabulary, j: Json)
    requires DecodeGames(v, j).Some?
    ensures GamesSay(v, j, DecodeGames(v, j).value)
  {
    ReadIsPlain(j);
    GamesExactly(v, j);
    var official := At(j, "official");
    OfficialSum(v, official, At(j, "custom").n);
    SortExactly(v, CountsOf(ReadObject(official).value), At(j, "custom").n);
    ReadIsPlain(official);
    ReadHolds(official.members);
  }

  lemma {:induction false} DecodedExtSays(v: Vocabulary, j: Json, e: Extended)
    requires DecodeExt(v, j) == Success(Some(e))
    ensures ExtSays(v, j, e) && v.installId(e.installId)
  {
    ReadIsPlain(j);
    DecodedEnvSays(v, At(j, "env"), e.schema);
    DecodedGamesSay(v, At(j, "games"));
    DecodedFeaturesSay(v, At(j, "features"));
  }

  /** The part has a well-formed install ID. */
  predicate IsNamed(v: Vocabulary, j: Json) { At(j, "installId").Text? && v.installId(At(j, "installId").s) }

  lemma {:induction false} DroppedExactly(v: Vocabulary, j: Json)
    requires DecodeExt(v, j).Success?
    ensures DecodeExt(v, j).value.None? <==> !IsNamed(v, j)
  {
    ReadIsPlain(j);
  }

  /**
   What an accepted body says is what the report holds: its own version and counts, and
   the extended part member by member; the part is dropped exactly when its install ID
   is malformed.
   */
  lemma {:induction false} DecodedSays(v: Vocabulary, j: Json)
    requires Decode(v, j).Success?
    ensures var d := Decode(v, j).value;
            && At(j, "version") == Text(d.report.version)
            && At(j, "servers") == Number(d.report.servers) && At(j, "templates") == Number(d.report.templates)
            && j.Object? && (d.dropped <==> "ext" in KeySet(j.members) && !IsNamed(v, At(j, "ext")))
            && (d.report.ext.Some? <==> "ext" in KeySet(j.members) && !d.dropped)
            && (d.report.ext.Some? ==> ExtSays(v, At(j, "ext"), d.report.ext.value))
  {
    OuterExactly(j);
    DecodesExactly(v, j);
    if "ext" in KeySet(j.members) {
      DroppedExactly(v, At(j, "ext"));
      if DecodeExt(v, At(j, "ext")).value.Some? {
        DecodedExtSays(v, At(j, "ext"), DecodeExt(v, At(j, "ext")).value.value);
      }
    }
  }
}
