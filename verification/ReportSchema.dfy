/**
 The telemetry report of telemetryschema: the strict decoder (decode.go) and the
 canonical encoder (report.go). The enumerations, the identifier and key syntax and the
 RFC 3339 clock are parameters; a value outside its enumeration becomes "other".
 */
module ReportSchema {
  import opened Wrappers
  import opened Basics
  import opened SortedSets
  import opened ReportJson

  const OTHER: string := "other"
  const SCHEMA_VERSION: int := 2
  const SECOND: int := 1_000_000_000

  datatype Vocabulary = Vocabulary(
    k8s: string -> bool, distros: string -> bool, arches: string -> bool, deployments: string -> bool,
    tunnels: string -> bool, dbs: string -> bool, languages: string -> bool,
    nodeBands: string -> bool, clusterBands: string -> bool, official: string -> bool,
    installId: string -> bool, key: string -> bool,
    formatTime: int -> string, parseTime: string -> Option<int>)

  /** Nanoseconds since the epoch whose UTC year has four digits. */
  predicate FourDigitYear(t: int) { -62_167_219_200 * SECOND <= t < 253_402_300_800 * SECOND }

  function ToSecond(t: int): int { t - t % SECOND }

  /** What is written at second precision is read back exactly when its year has four digits. */
  ghost predicate ClockLaw(v: Vocabulary) {
    forall t :: v.parseTime(v.formatTime(t)) == if FourDigitYear(t) then Some(ToSecond(t)) else None
  }

  datatype Env = Env(k8s: seq<string>, distro: seq<string>, arch: seq<string>, nodes: string, deployment: string)
  datatype Games = Games(official: map<string, nat>, custom: int)
  datatype Features = Features(
    wakeOnConnect: bool, tunnels: seq<string>, capture: bool, backups: bool, sso: bool, auditForwarding: bool,
    clusters: string, db: string, language: string)
  datatype Extended = Extended(
    schema: int, installId: string, env: Env, games: Games, features: Features, key: string, sentAt: int)
  datatype Report = Report(version: string, servers: int, templates: int, ext: Option<Extended>)

  datatype Fault = Invalid | Unsupported

  // ---------------------------------------------------------------- member names

  const VERSION := "version"
  const SERVERS := "servers"
  const TEMPLATES := "templates"
  const EXT := "ext"
  const SCHEMA := "schema"
  const INSTALL_ID := "installId"
  const ENV := "env"
  const GAMES := "games"
  const FEATURES := "features"
  const KEY := "key"
  const SENT_AT := "sentAt"
  const K8S := "k8s"
  const DISTRO := "distro"
  const ARCH := "arch"
  const NODES := "nodes"
  const DEPLOYMENT := "deployment"
  const OFFICIAL := "official"
  const CUSTOM := "custom"
  const WAKE := "wakeOnConnect"
  const TUNNELS := "tunnels"
  const CAPTURE := "capture"
  const BACKUPS := "backups"
  const SSO := "sso"
  const AUDIT := "auditForwarding"
  const CLUSTERS := "clusters"
  const DB := "db"
  const LANGUAGE := "language"

  function TopKeys(): seq<string> { [VERSION, SERVERS, TEMPLATES] }
  function ExtKeys(): seq<string> { [SCHEMA, INSTALL_ID, ENV, GAMES, FEATURES, KEY, SENT_AT] }
  function EnvKeys1(): seq<string> { [K8S, DISTRO, ARCH, NODES] }
  function EnvKeys2(): seq<string> { [K8S, DISTRO, ARCH, NODES, DEPLOYMENT] }
  function GameKeys(): seq<string> { [OFFICIAL, CUSTOM] }
  function FeatureKeys(): seq<string> { [WAKE, TUNNELS, CAPTURE, BACKUPS, SSO, AUDIT, CLUSTERS, DB, LANGUAGE] }

  lemma {:induction false} TopDiffer()
    ensures NoRepeat(TopKeys() + [EXT]) && NoRepeat(TopKeys())
  {
    assert VERSION[0] == 'v' && SERVERS[0] == 's' && TEMPLATES[0] == 't' && EXT[0] == 'e';
  }

  lemma {:induction false} ExtDiffer()
    ensures NoRepeat(ExtKeys())
  {
    assert SCHEMA[0] == 's' && INSTALL_ID[0] == 'i' && ENV[0] == 'e' && GAMES[0] == 'g' && FEATURES[0] == 'f' && KEY[0] == 'k';
    assert SENT_AT[0] == 's' && SCHEMA[1] == 'c' && SENT_AT[1] == 'e';
  }

  lemma {:induction false} EnvDiffer()
    ensures NoRepeat(EnvKeys1()) && NoRepeat(EnvKeys2())
  {
    assert K8S[0] == 'k' && DISTRO[0] == 'd' && ARCH[0] == 'a' && NODES[0] == 'n' && DEPLOYMENT[0] == 'd';
    assert DISTRO[1] == 'i' && DEPLOYMENT[1] == 'e';
  }

  lemma {:induction false} GamesDiffer()
    ensures NoRepeat(GameKeys())
  {
    assert OFFICIAL[0] == 'o' && CUSTOM[0] == 'c';
  }

  lemma {:induction false} FeaturesDiffer()
    ensures NoRepeat(FeatureKeys())
  {
    assert WAKE[0] == 'w' && TUNNELS[0] == 't' && CAPTURE[0] == 'c' && BACKUPS[0] == 'b' && SSO[0] == 's';
    assert AUDIT[0] == 'a' && CLUSTERS[0] == 'c' && DB[0] == 'd' && LANGUAGE[0] == 'l';
    assert CAPTURE[1] == 'a' && CLUSTERS[1] == 'l';
  }

  // ---------------------------------------------------------------- enumerations

  function Fold(known: string -> bool, s: string): string { if known(s) then s else OTHER }

  function FoldAll(known: string -> bool, s: seq<string>): (r: seq<string>)
    ensures |r| == |s| && forall i :: 0 <= i < |s| ==> r[i] == Fold(known, s[i])
  {
    seq(|s|, i requires 0 <= i < |s| => Fold(known, s[i]))
  }

  function DecodeSet(known: string -> bool, j: Json): Option<seq<string>> {
    if IsTexts(j) then Some(SortedSet(FoldAll(known, TextsOf(j)))) else None
  }

  predicate ValueOk(known: string -> bool, s: string) { known(s) || s == OTHER }

  predicate SetOk(known: string -> bool, s: seq<string>) { Sorted(s) && forall i :: 0 <= i < |s| ==> ValueOk(known, s[i]) }

  lemma {:induction false} DecodedSetOk(known: string -> bool, j: Json)
    requires IsTexts(j)
    ensures SetOk(known, DecodeSet(known, j).value)
  {
    var folded := FoldAll(known, TextsOf(j));
    SortedSetIsSorted(folded);
    SortedMembers(folded);
    var r := SortedSet(folded);
    forall i | 0 <= i < |r|
      ensures ValueOk(known, r[i])
    {
      assert r[i] in folded;
    }
  }

  lemma {:induction false} SetRoundTrip(known: string -> bool, s: seq<string>)
    requires SetOk(known, s)
    ensures SortedSet(s) == s && DecodeSet(known, Strings(SortedSet(s))) == Some(s)
  {
    SortedSetOfSorted(s);
    StringsRead(s);
    assert FoldAll(known, s) == s;
  }

  // ---------------------------------------------------------------- env

  function DecodeEnv(v: Vocabulary, j: Json, schema: int): Option<Env> {
    match ReadObject(j)
    case None => None
    case Some(m) => if schema >= 2 then DecodeEnv2(v, m) else DecodeEnv1(v, m)
  }

  function DecodeEnv2(v: Vocabulary, m: Members): Option<Env> {
    if !Expect(m, EnvKeys2(), []) || !Field(m, NODES).Text? || !Field(m, DEPLOYMENT).Text? then None
    else
      var k8s, distro, arch := DecodeSet(v.k8s, Field(m, K8S)), DecodeSet(v.distros, Field(m, DISTRO)), DecodeSet(v.arches, Field(m, ARCH));
      if k8s.None? || distro.None? || arch.None? || k8s.value == [] || distro.value == [] || arch.value == [] then None
      else Some(Env(k8s.value, distro.value, arch.value,
                    Fold(v.nodeBands, Field(m, NODES).s), Fold(v.deployments, Field(m, DEPLOYMENT).s)))
  }

  function DecodeEnv1(v: Vocabulary, m: Members): Option<Env> {
    if !Expect(m, EnvKeys1(), []) || !Field(m, K8S).Text? || !Field(m, DISTRO).Text? || !Field(m, NODES).Text? then None
    else
      var arch := DecodeSet(v.arches, Field(m, ARCH));
      if arch.None? || arch.value == [] then None
      else Some(Env([Fold(v.k8s, Field(m, K8S).s)], [Fold(v.distros, Field(m, DISTRO).s)], arch.value,
                    Fold(v.nodeBands, Field(m, NODES).s), OTHER))
  }

  predicate EnvOk(v: Vocabulary, e: Env, schema: int) {
    && SetOk(v.k8s, e.k8s) && SetOk(v.distros, e.distro) && SetOk(v.arches, e.arch)
    && e.k8s != [] && e.distro != [] && e.arch != []
    && ValueOk(v.nodeBands, e.nodes) && ValueOk(v.deployments, e.deployment)
    && (schema < 2 ==> |e.k8s| == 1 && |e.distro| == 1 && e.deployment == OTHER)
  }

  function Single(values: seq<string>): string {
    var s := SortedSet(values);
    if |s| == 0 then "" else if |s| == 1 then s[0] else OTHER
  }

  function EncodeEnv(e: Env, schema: int): Json {
    if schema < 2 then
      Build(EnvKeys1(), [Text(Single(e.k8s)), Text(Single(e.distro)), Strings(SortedSet(e.arch)), Text(e.nodes)])
    else
      Build(EnvKeys2(), [Strings(SortedSet(e.k8s)), Strings(SortedSet(e.distro)), Strings(SortedSet(e.arch)),
                         Text(e.nodes), Text(e.deployment)])
  }

  lemma {:induction false} DecodedEnvOk(v: Vocabulary, j: Json, schema: int)
    requires DecodeEnv(v, j, schema).Some?
    ensures EnvOk(v, DecodeEnv(v, j, schema).value, schema)
  {
    var m := ReadObject(j).value;
    DecodedSetOk(v.arches, Field(m, ARCH));
    if schema >= 2 {
      DecodedSetOk(v.k8s, Field(m, K8S));
      DecodedSetOk(v.distros, Field(m, DISTRO));
    }
  }

  lemma {:induction false} Env1RoundTrip(v: Vocabulary, e: Env)
    requires EnvOk(v, e, 1)
    ensures DecodeEnv(v, EncodeEnv(e, 1), 1) == Some(e)
  {
    SetRoundTrip(v.k8s, e.k8s);
    SetRoundTrip(v.distros, e.distro);
    SetRoundTrip(v.arches, e.arch);
    EnvDiffer();
    var keys, values := EnvKeys1(), [Text(e.k8s[0]), Text(e.distro[0]), Strings(SortedSet(e.arch)), Text(e.nodes)];
    BuiltIsExpected(keys, values, []);
    var m := ReadObject(Build(keys, values)).value;
    assert Field(m, keys[0]) == values[0] && Field(m, keys[1]) == values[1];
    assert Field(m, keys[2]) == values[2] && Field(m, keys[3]) == values[3];
    assert [e.k8s[0]] == e.k8s && [e.distro[0]] == e.distro;
  }

  lemma {:induction false} Env2RoundTrip(v: Vocabulary, e: Env, schema: int)
    requires EnvOk(v, e, schema) && schema >= 2
    ensures DecodeEnv(v, EncodeEnv(e, schema), schema) == Some(e)
  {
    SetRoundTrip(v.k8s, e.k8s);
    SetRoundTrip(v.distros, e.distro);
    SetRoundTrip(v.arches, e.arch);
    Env2Built(v, e, Strings(SortedSet(e.k8s)), Strings(SortedSet(e.distro)), Strings(SortedSet(e.arch)));
  }

  lemma {:induction false} Env2Built(v: Vocabulary, e: Env, k8s: Json, distro: Json, arch: Json)
    requires EnvOk(v, e, 2) && k8s.Array? && distro.Array? && arch.Array?
    requires DecodeSet(v.k8s, k8s) == Some(e.k8s) && DecodeSet(v.distros, distro) == Some(e.distro)
    requires DecodeSet(v.arches, arch) == Some(e.arch)
    ensures DecodeEnv(v, Build(EnvKeys2(), [k8s, distro, arch, Text(e.nodes), Text(e.deployment)]), 2) == Some(e)
  {
    EnvDiffer();
    var keys, values := EnvKeys2(), [k8s, distro, arch, Text(e.nodes), Text(e.deployment)];
    BuiltIsExpected(keys, values, []);
    var m := ReadObject(Build(keys, values)).value;
    assert Field(m, keys[0]) == values[0] && Field(m, keys[1]) == values[1] && Field(m, keys[2]) == values[2];
    assert Field(m, keys[3]) == values[3] && Field(m, keys[4]) == values[4];
    Env2FromParts(v, e, m);
  }

  lemma {:induction false} Env2FromParts(v: Vocabulary, e: Env, m: Members)
    requires EnvOk(v, e, 2) && Expect(m, EnvKeys2(), [])
    requires DecodeSet(v.k8s, Field(m, K8S)) == Some(e.k8s) && DecodeSet(v.distros, Field(m, DISTRO)) == Some(e.distro)
    requires DecodeSet(v.arches, Field(m, ARCH)) == Some(e.arch)
    requires Field(m, NODES) == Text(e.nodes) && Field(m, DEPLOYMENT) == Text(e.deployment)
    ensures DecodeEnv2(v, m) == Some(e)
  {
  }

  // ---------------------------------------------------------------- games

  predicate AllCounts(m: Members) { forall k :: k in m ==> IsCount(m[k], 1) }

  function CountsOf(m: Members): map<string, nat>
    requires AllCounts(m)
  {
    map k | k in m :: m[k].n
  }

  function Known(v: Vocabulary, keys: set<string>): set<string> { set k | k in keys && v.official(k) }

  /** The counts of catalog modules by name; all the others are added to `custom`. */
  ghost function Sort(v: Vocabulary, counts: map<string, nat>, custom: int): Option<Games>
    requires custom >= 0
  {
    var known := Known(v, counts.Keys);
    var total := custom + Sum(Part(counts, counts.Keys - known));
    if total > MAX_INT then None else Some(Games(Part(counts, known), total))
  }

  ghost function DecodeGames(v: Vocabulary, j: Json): Option<Games> {
    match ReadObject(j)
    case None => None
    case Some(m) =>
      if !Expect(m, GameKeys(), []) || !IsCount(Field(m, CUSTOM), 0) then None
      else match ReadObject(Field(m, OFFICIAL))
        case None => None
        case Some(o) => if AllCounts(o) then Sort(v, CountsOf(o), Field(m, CUSTOM).n) else None
  }

  /** No server is lost: the total over all modules and custom games stays the same. */
  lemma {:induction false} GameTotalIsKept(v: Vocabulary, counts: map<string, nat>, custom: int)
    requires custom >= 0 && Sort(v, counts, custom).Some?
    ensures var g := Sort(v, counts, custom).value; g.custom + Sum(g.official) == custom + Sum(counts)
  {
    var known := Known(v, counts.Keys);
    SumSplits(counts, known, counts.Keys - known);
  }

  /** Of a decoded games object: what it announced is what the report counts. */
  lemma {:induction false} DecodeKeepsGameTotal(v: Vocabulary, j: Json)
    requires DecodeGames(v, j).Some?
    ensures var g, m := DecodeGames(v, j).value, ReadObject(j).value;
            g.custom + Sum(g.official) == Field(m, CUSTOM).n + Sum(CountsOf(ReadObject(Field(m, OFFICIAL)).value))
  {
    var m := ReadObject(j).value;
    GameTotalIsKept(v, CountsOf(ReadObject(Field(m, OFFICIAL)).value), Field(m, CUSTOM).n);
  }

  predicate GamesOk(v: Vocabulary, g: Games) {
    (forall k :: k in g.official ==> v.official(k) && 1 <= g.official[k] <= MAX_INT) && 0 <= g.custom <= MAX_INT
  }

  lemma {:induction false} DecodedGamesOk(v: Vocabulary, j: Json)
    requires DecodeGames(v, j).Some?
    ensures GamesOk(v, DecodeGames(v, j).value)
  {
  }

  /** The keys of a map, in some order. */
  ghost function Listed(keys: set<string>): (r: seq<string>)
    ensures forall k :: k in r <==> k in keys
  {
    if keys == {} then []
    else
      var k :| k in keys;
      [k] + Listed(keys - {k})
  }

  function Numbers(names: seq<string>, m: map<string, nat>): (r: seq<Json>)
    requires forall k :: k in names ==> k in m
    ensures |r| == |names| && forall i :: 0 <= i < |r| ==> r[i] == Number(m[names[i]])
  {
    seq(|names|, i requires 0 <= i < |names| => Number(m[names[i]]))
  }

  ghost function SortedKeys(m: map<string, nat>): (r: seq<string>)
    ensures forall k :: k in r <==> k in m
  {
    SortedMembers(Listed(m.Keys));
    SortedSet(Listed(m.Keys))
  }

  ghost function EncodeOfficial(m: map<string, nat>): Json { Build(SortedKeys(m), Numbers(SortedKeys(m), m)) }

  ghost function EncodeGames(g: Games): Json { Build(GameKeys(), [EncodeOfficial(g.official), Number(g.custom)]) }

  lemma {:induction false} SortedHasNoRepeat(s: seq<string>)
    requires Sorted(s)
    ensures NoRepeat(s)
  {
    forall i, j | 0 <= i < j < |s|
      ensures s[i] != s[j]
    {
      Trichotomy(s[i], s[j]);
    }
  }

  lemma {:induction false} OfficialRead(m: map<string, nat>)
    requires forall k :: k in m ==> 1 <= m[k] <= MAX_INT
    ensures ReadObject(EncodeOfficial(m)).Some?
    ensures var o := ReadObject(EncodeOfficial(m)).value; AllCounts(o) && CountsOf(o) == m
  {
    SortedSetIsSorted(Listed(m.Keys));
    SortedHasNoRepeat(SortedKeys(m));
    CountsRead(SortedKeys(m), Numbers(SortedKeys(m), m), m);
  }

  lemma {:induction false} CountsRead(names: seq<string>, values: seq<Json>, m: map<string, nat>)
    requires NoRepeat(names) && (forall k :: k in names <==> k in m) && (forall k :: k in m ==> 1 <= m[k] <= MAX_INT)
    requires |values| == |names| && forall i :: 0 <= i < |names| ==> values[i] == Number(m[names[i]])
    ensures ReadObject(Build(names, values)).Some?
    ensures var o := ReadObject(Build(names, values)).value; AllCounts(o) && CountsOf(o) == m
  {
    BuiltIsRead(names, values);
    var o := ReadObject(Build(names, values)).value;
    forall k | k in o
      ensures k in m && o[k] == Number(m[k])
    {
      assert k in names;
      var i :| 0 <= i < |names| && names[i] == k;
      assert Field(o, names[i]) == values[i];
    }
    assert forall k :: k in m ==> k in names;
  }

  lemma {:induction false} SortKeepsOfficial(v: Vocabulary, g: Games)
    requires GamesOk(v, g)
    ensures Sort(v, g.official, g.custom) == Some(g)
  {
    var keys := g.official.Keys;
    assert Known(v, keys) == keys;
    assert keys - keys == {};
    assert Part(g.official, {}) == map[];
    assert Part(g.official, keys) == g.official;
  }

  lemma {:induction false} GamesRoundTrip(v: Vocabulary, g: Games)
    requires GamesOk(v, g)
    ensures DecodeGames(v, EncodeGames(g)) == Some(g)
  {
    OfficialRead(g.official);
    SortKeepsOfficial(v, g);
    GamesDiffer();
    var keys, values := GameKeys(), [EncodeOfficial(g.official), Number(g.custom)];
    BuiltIsExpected(keys, values, []);
    var m := ReadObject(Build(keys, values)).value;
    assert Field(m, keys[0]) == values[0] && Field(m, keys[1]) == values[1];
  }

  // ---------------------------------------------------------------- features

  predicate FeatureTypes(m: Members) {
    && Field(m, WAKE).Bool? && Field(m, CAPTURE).Bool? && Field(m, BACKUPS).Bool? && Field(m, SSO).Bool?
    && Field(m, AUDIT).Bool? && IsTexts(Field(m, TUNNELS))
    && Field(m, CLUSTERS).Text? && Field(m, DB).Text? && Field(m, LANGUAGE).Text?
  }

  function FeaturesIn(v: Vocabulary, m: Members): Features
    requires FeatureTypes(m)
  {
    Features(Field(m, WAKE).b, DecodeSet(v.tunnels, Field(m, TUNNELS)).value, Field(m, CAPTURE).b, Field(m, BACKUPS).b,
             Field(m, SSO).b, Field(m, AUDIT).b, Fold(v.clusterBands, Field(m, CLUSTERS).s), Fold(v.dbs, Field(m, DB).s),
             Fold(v.languages, Field(m, LANGUAGE).s))
  }

  function DecodeFeatures(v: Vocabulary, j: Json): Option<Features> {
    match ReadObject(j)
    case None => None
    case Some(m) => if Expect(m, FeatureKeys(), []) && FeatureTypes(m) then Some(FeaturesIn(v, m)) else None
  }

  predicate FeaturesOk(v: Vocabulary, f: Features) {
    SetOk(v.tunnels, f.tunnels) && ValueOk(v.clusterBands, f.clusters) && ValueOk(v.dbs, f.db) && ValueOk(v.languages, f.language)
  }

  function FeatureValues(f: Features): seq<Json> {
    [Bool(f.wakeOnConnect), Strings(SortedSet(f.tunnels)), Bool(f.capture), Bool(f.backups), Bool(f.sso), Bool(f.auditForwarding),
     Text(f.clusters), Text(f.db), Text(f.language)]
  }

  function EncodeFeatures(f: Features): Json { Build(FeatureKeys(), FeatureValues(f)) }

  lemma {:induction false} DecodedFeaturesOk(v: Vocabulary, j: Json)
    requires DecodeFeatures(v, j).Some?
    ensures FeaturesOk(v, DecodeFeatures(v, j).value)
  {
    DecodedSetOk(v.tunnels, Field(ReadObject(j).value, TUNNELS));
  }

  lemma {:induction false} FeaturesRoundTrip(v: Vocabulary, f: Features)
    requires FeaturesOk(v, f)
    ensures DecodeFeatures(v, EncodeFeatures(f)) == Some(f)
  {
    SetRoundTrip(v.tunnels, f.tunnels);
    FeaturesDiffer();
    var keys, values := FeatureKeys(), FeatureValues(f);
    BuiltIsExpected(keys, values, []);
    FeaturesAt(v, f, ReadObject(Build(keys, values)).value, keys, values);
  }

  lemma {:induction false} FeaturesAt(v: Vocabulary, f: Features, m: Members, keys: seq<string>, values: seq<Json>)
    requires keys == FeatureKeys() && values == FeatureValues(f)
    requires forall i :: 0 <= i < |keys| ==> Field(m, keys[i]) == values[i]
    requires FeaturesOk(v, f) && DecodeSet(v.tunnels, Strings(SortedSet(f.tunnels))) == Some(f.tunnels)
    ensures FeatureTypes(m) && FeaturesIn(v, m) == f
  {
    assert Field(m, keys[0]) == values[0] && Field(m, keys[1]) == values[1] && Field(m, keys[2]) == values[2];
    assert Field(m, keys[3]) == values[3] && Field(m, keys[4]) == values[4] && Field(m, keys[5]) == values[5];
    assert Field(m, keys[6]) == values[6] && Field(m, keys[7]) == values[7] && Field(m, keys[8]) == values[8];
  }

  // ---------------------------------------------------------------- the extended part

  /** The extended part; None inside Success when it is dropped for a malformed install ID. */
  ghost function DecodeExt(v: Vocabulary, j: Json): Result<Option<Extended>, Fault> {
    match ReadObject(j)
    case None => Failure(Invalid)
    case Some(m) =>
      match SchemaFault(m)
      case Some(f) => Failure(f)
      case None => if Expect(m, ExtKeys(), []) then KeepIfNamed(v, ExtIn(v, m)) else Failure(Invalid)
  }

  /** A newer schema is reported before anything else about the part. */
  function SchemaFault(m: Members): Option<Fault> {
    if SCHEMA !in m then None
    else if !IsCount(m[SCHEMA], 0) then Some(Invalid)
    else if m[SCHEMA].n > SCHEMA_VERSION then Some(Unsupported)
    else None
  }

  function KeepIfNamed(v: Vocabulary, e: Option<Extended>): Result<Option<Extended>, Fault> {
    if e.None? then Failure(Invalid) else Success(if v.installId(e.value.installId) then e else None)
  }

  predicate ExtTypes(v: Vocabulary, m: Members) {
    && IsCount(Field(m, SCHEMA), 1) && Field(m, INSTALL_ID).Text? && Field(m, KEY).Text? && Field(m, SENT_AT).Text?
    && v.key(Field(m, KEY).s) && v.parseTime(Field(m, SENT_AT).s).Some?
  }

  ghost function ExtIn(v: Vocabulary, m: Members): Option<Extended> {
    if !ExtTypes(v, m) then None
    else
      var env := DecodeEnv(v, Field(m, ENV), Field(m, SCHEMA).n);
      var games := DecodeGames(v, Field(m, GAMES));
      var features := DecodeFeatures(v, Field(m, FEATURES));
      if env.None? || games.None? || features.None? then None
      else Some(Extended(Field(m, SCHEMA).n, Field(m, INSTALL_ID).s, env.value, games.value, features.value,
                         Field(m, KEY).s, v.parseTime(Field(m, SENT_AT).s).value))
  }

  predicate ExtOk(v: Vocabulary, e: Extended) {
    && 1 <= e.schema <= SCHEMA_VERSION && v.installId(e.installId) && v.key(e.key)
    && EnvOk(v, e.env, e.schema) && GamesOk(v, e.games) && FeaturesOk(v, e.features)
  }

  lemma {:induction false} DecodedExtOk(v: Vocabulary, j: Json)
    requires DecodeExt(v, j).Success? && DecodeExt(v, j).value.Some?
    ensures ExtOk(v, DecodeExt(v, j).value.value)
  {
    var m := ReadObject(j).value;
    assert SCHEMA in m;
    DecodedEnvOk(v, Field(m, ENV), Field(m, SCHEMA).n);
    DecodedGamesOk(v, Field(m, GAMES));
    DecodedFeaturesOk(v, Field(m, FEATURES));
  }

  ghost function ExtValues(v: Vocabulary, e: Extended): seq<Json> {
    [Number(e.schema), Text(e.installId), EncodeEnv(e.env, e.schema), EncodeGames(e.games), EncodeFeatures(e.features),
     Text(e.key), Text(v.formatTime(e.sentAt))]
  }

  ghost function EncodeExt(v: Vocabulary, e: Extended): Json { Build(ExtKeys(), ExtValues(v, e)) }

  /** Where the fields of an extended part are found. */
  predicate ExtFields(m: Members, values: seq<Json>)
    requires |values| == 7
  {
    && Field(m, SCHEMA) == values[0] && Field(m, INSTALL_ID) == values[1] && Field(m, ENV) == values[2]
    && Field(m, GAMES) == values[3] && Field(m, FEATURES) == values[4] && Field(m, KEY) == values[5]
    && Field(m, SENT_AT) == values[6]
  }

  lemma {:induction false} ExtFieldsAt(m: Members, keys: seq<string>, values: seq<Json>)
    requires keys == ExtKeys() && |values| == 7 && forall i :: 0 <= i < |keys| ==> Field(m, keys[i]) == values[i]
    ensures ExtFields(m, values)
  {
    assert Field(m, keys[0]) == values[0] && Field(m, keys[1]) == values[1] && Field(m, keys[2]) == values[2];
    assert Field(m, keys[3]) == values[3] && Field(m, keys[4]) == values[4] && Field(m, keys[5]) == values[5];
    assert Field(m, keys[6]) == values[6];
  }

  lemma {:induction false} PartsRoundTrip(v: Vocabulary, e: Extended)
    requires ExtOk(v, e)
    ensures DecodeEnv(v, EncodeEnv(e.env, e.schema), e.schema) == Some(e.env)
    ensures DecodeGames(v, EncodeGames(e.games)) == Some(e.games)
    ensures DecodeFeatures(v, EncodeFeatures(e.features)) == Some(e.features)
  {
    if e.schema < 2 {
      Env1RoundTrip(v, e.env);
    } else {
      Env2RoundTrip(v, e.env, e.schema);
    }
    GamesRoundTrip(v, e.games);
    FeaturesRoundTrip(v, e.features);
  }

  /** The extended part whose pieces decode to those of `e`. */
  lemma {:induction false} ExtFromParts(v: Vocabulary, e: Extended, m: Members, env: Json, games: Json, features: Json, sent: string)
    requires ExtFields(m, [Number(e.schema), Text(e.installId), env, games, features, Text(e.key), Text(sent)])
    requires 1 <= e.schema <= SCHEMA_VERSION && v.key(e.key)
    requires DecodeEnv(v, env, e.schema) == Some(e.env) && DecodeGames(v, games) == Some(e.games)
    requires DecodeFeatures(v, features) == Some(e.features)
    ensures v.parseTime(sent).None? ==> ExtIn(v, m).None?
    ensures v.parseTime(sent).Some? ==> ExtIn(v, m) == Some(e.(sentAt := v.parseTime(sent).value))
  {
    ExtTypesOf(v, e, m, sent);
    if v.parseTime(sent).Some? {
      ExtBuilt(v, e, m, sent);
    }
  }

  lemma {:induction false} ExtTypesOf(v: Vocabulary, e: Extended, m: Members, sent: string)
    requires Field(m, SCHEMA) == Number(e.schema) && Field(m, INSTALL_ID) == Text(e.installId)
    requires Field(m, KEY) == Text(e.key) && Field(m, SENT_AT) == Text(sent) && 1 <= e.schema <= SCHEMA_VERSION && v.key(e.key)
    ensures ExtTypes(v, m) <==> v.parseTime(sent).Some?
  {
  }

  lemma {:induction false} ExtBuilt(v: Vocabulary, e: Extended, m: Members, sent: string)
    requires ExtTypes(v, m) && Field(m, SCHEMA) == Number(e.schema) && Field(m, INSTALL_ID) == Text(e.installId)
    requires Field(m, KEY) == Text(e.key) && Field(m, SENT_AT) == Text(sent) && v.parseTime(sent).Some?
    requires DecodeEnv(v, Field(m, ENV), e.schema) == Some(e.env) && DecodeGames(v, Field(m, GAMES)) == Some(e.games)
    requires DecodeFeatures(v, Field(m, FEATURES)) == Some(e.features)
    ensures ExtIn(v, m) == Some(e.(sentAt := v.parseTime(sent).value))
  {
  }

  lemma {:induction false} SchemaIsFine(m: Members, schema: int)
    requires Field(m, SCHEMA) == Number(schema) && 1 <= schema <= SCHEMA_VERSION
    ensures SchemaFault(m).None?
  {
  }

  lemma {:induction false} ExtRoundTrip(v: Vocabulary, e: Extended)
    requires ClockLaw(v) && ExtOk(v, e)
    ensures DecodeExt(v, EncodeExt(v, e))
            == if FourDigitYear(e.sentAt) then Success(Some(e.(sentAt := ToSecond(e.sentAt)))) else Failure(Invalid)
  {
    var back := if FourDigitYear(e.sentAt) then Some(e.(sentAt := ToSecond(e.sentAt))) else None;
    ExtReadsAs(v, e, back);
    ExtValuesOk(v, e);
    BuiltExt(v, ExtValues(v, e), e.schema, back);
  }

  /** Wherever these values stand under their keys, they read as `e`. */
  ghost predicate ReadAs(v: Vocabulary, values: seq<Json>, e: Option<Extended>)
    requires |values| == 7
  {
    forall m: Members :: ExtFields(m, values) ==> ExtIn(v, m) == e
  }

  lemma {:induction false} ExtReadsAs(v: Vocabulary, e: Extended, back: Option<Extended>)
    requires ClockLaw(v) && ExtOk(v, e)
    requires back == if FourDigitYear(e.sentAt) then Some(e.(sentAt := ToSecond(e.sentAt))) else None
    ensures ReadAs(v, ExtValues(v, e), back)
  {
    forall m: Members | ExtFields(m, ExtValues(v, e))
      ensures ExtIn(v, m) == back
    {
      ExtReadsBack(v, e, m, back);
    }
  }

  lemma {:induction false} ExtValuesOk(v: Vocabulary, e: Extended)
    ensures NoNulls(ExtValues(v, e))
  {
    SevenValues(Number(e.schema), Text(e.installId), EncodeEnv(e.env, e.schema), EncodeGames(e.games), EncodeFeatures(e.features),
                Text(e.key), Text(v.formatTime(e.sentAt)));
  }

  lemma {:induction false} SevenValues(a: Json, b: Json, c: Json, d: Json, e: Json, f: Json, g: Json)
    requires !a.Null? && !b.Null? && !c.Null? && !d.Null? && !e.Null? && !f.Null? && !g.Null?
    ensures NoNulls([a, b, c, d, e, f, g])
  {
  }

  lemma {:induction false} ExtReadsBack(v: Vocabulary, e: Extended, m: Members, back: Option<Extended>)
    requires ClockLaw(v) && ExtOk(v, e) && ExtFields(m, ExtValues(v, e))
    requires back == if FourDigitYear(e.sentAt) then Some(e.(sentAt := ToSecond(e.sentAt))) else None
    ensures ExtIn(v, m) == back
  {
    PartsRoundTrip(v, e);
    ExtFromParts(v, e, m, EncodeEnv(e.env, e.schema), EncodeGames(e.games), EncodeFeatures(e.features), v.formatTime(e.sentAt));
    assert v.parseTime(v.formatTime(e.sentAt)) == if FourDigitYear(e.sentAt) then Some(ToSecond(e.sentAt)) else None;
  }

  lemma {:induction false} BuiltExt(v: Vocabulary, values: seq<Json>, schema: int, e: Option<Extended>)
    requires |values| == 7 && values[0] == Number(schema) && 1 <= schema <= SCHEMA_VERSION
    requires NoNulls(values)
    requires ReadAs(v, values, e)
    ensures DecodeExt(v, Build(ExtKeys(), values)) == KeepIfNamed(v, e)
  {
    ExtIsRead(values);
    SchemaIsFine(ReadObject(Build(ExtKeys(), values)).value, schema);
  }

  lemma {:induction false} ExtIsRead(values: seq<Json>)
    requires |values| == 7 && NoNulls(values)
    ensures ReadObject(Build(ExtKeys(), values)).Some?
    ensures var m := ReadObject(Build(ExtKeys(), values)).value; Expect(m, ExtKeys(), []) && ExtFields(m, values)
  {
    ExtDiffer();
    BuiltIsExpected(ExtKeys(), values, []);
    ExtFieldsAt(ReadObject(Build(ExtKeys(), values)).value, ExtKeys(), values);
  }

  // ---------------------------------------------------------------- reports

  /** A decoded report, and whether its extended part was dropped. */
  datatype Decoded = Decoded(report: Report, dropped: bool)

  predicate TopTypes(m: Members) {
    Field(m, VERSION).Text? && IsCount(Field(m, SERVERS), 0) && IsCount(Field(m, TEMPLATES), 0)
  }

  function BasicIn(m: Members, ext: Option<Extended>): Report
    requires TopTypes(m)
  {
    Report(Field(m, VERSION).s, Field(m, SERVERS).n, Field(m, TEMPLATES).n, ext)
  }

  ghost function Decode(v: Vocabulary, j: Json): Result<Decoded, Fault> {
    match ReadObject(j)
    case None => Failure(Invalid)
    case Some(m) =>
      if !Expect(m, TopKeys(), [EXT]) || !TopTypes(m) then Failure(Invalid)
      else if EXT !in m then Success(Decoded(BasicIn(m, None), false))
      else match DecodeExt(v, m[EXT])
        case Failure(f) => Failure(f)
        case Success(ext) => Success(Decoded(BasicIn(m, ext), ext.None?))
  }

  predicate ReportOk(v: Vocabulary, r: Report) {
    0 <= r.servers <= MAX_INT && 0 <= r.templates <= MAX_INT && (r.ext.Some? ==> ExtOk(v, r.ext.value))
  }

  /** Every decoded report has sorted duplicate-free sets inside their enumerations and counts in range. */
  lemma {:induction false} DecodedReportOk(v: Vocabulary, j: Json)
    requires Decode(v, j).Success?
    ensures ReportOk(v, Decode(v, j).value.report)
  {
    var m := ReadObject(j).value;
    if EXT in m && DecodeExt(v, m[EXT]).value.Some? {
      DecodedExtOk(v, m[EXT]);
    }
  }

  ghost function Encode(v: Vocabulary, r: Report): Result<Json, Fault> {
    if r.servers < 0 || r.templates < 0 then Failure(Invalid)
    else
      var basic := [Text(r.version), Number(r.servers), Number(r.templates)];
      Success(if r.ext.None? then Build(TopKeys(), basic)
              else Build(TopKeys() + [EXT], basic + [EncodeExt(v, r.ext.value)]))
  }

  function CutToSecond(r: Report): Report {
    if r.ext.None? then r else r.(ext := Some(r.ext.value.(sentAt := ToSecond(r.ext.value.sentAt))))
  }

  lemma {:induction false} BasicRoundTrip(v: Vocabulary, r: Report)
    requires ReportOk(v, r) && r.ext.None?
    ensures Encode(v, r).Success? && Decode(v, Encode(v, r).value) == Success(Decoded(r, false))
  {
    TopDiffer();
    var keys, values := TopKeys(), [Text(r.version), Number(r.servers), Number(r.templates)];
    BuiltIsRead(keys, values);
    var m := ReadObject(Build(keys, values)).value;
    assert Field(m, keys[0]) == values[0] && Field(m, keys[1]) == values[1] && Field(m, keys[2]) == values[2];
    NotAmong(keys);
  }

  lemma {:induction false} NotAmong(keys: seq<string>)
    requires keys == TopKeys()
    ensures EXT !in keys
  {
    TopDiffer();
    var all := keys + [EXT];
    assert all[3] == EXT && all[0] == keys[0] && all[1] == keys[1] && all[2] == keys[2];
  }

  lemma {:induction false} ExtendedRead(v: Vocabulary, r: Report, m: Members, keys: seq<string>, values: seq<Json>, ext: Json)
    requires keys == TopKeys() + [EXT] && values == [Text(r.version), Number(r.servers), Number(r.templates)] + [ext]
    requires (forall k :: k in m <==> k in keys) && (forall i :: 0 <= i < |keys| ==> Field(m, keys[i]) == values[i])
    requires ReportOk(v, r)
    ensures Expect(m, TopKeys(), [EXT]) && TopTypes(m) && EXT in m && m[EXT] == ext
    ensures forall x :: BasicIn(m, x) == Report(r.version, r.servers, r.templates, x)
  {
    assert Field(m, keys[0]) == values[0] && Field(m, keys[1]) == values[1];
    assert Field(m, keys[2]) == values[2] && Field(m, keys[3]) == values[3];
    assert keys[3] == EXT && EXT in keys;
    assert forall k :: k in TopKeys() ==> k in keys;
  }

  lemma {:induction false} BuiltReport(v: Vocabulary, r: Report, ext: Json)
    requires ReportOk(v, r) && ext.Object?
    ensures Decode(v, Build(TopKeys() + [EXT], [Text(r.version), Number(r.servers), Number(r.templates)] + [ext]))
            == match DecodeExt(v, ext)
               case Failure(f) => Failure(f)
               case Success(x) => Success(Decoded(Report(r.version, r.servers, r.templates, x), x.None?))
  {
    TopDiffer();
    var keys, values := TopKeys() + [EXT], [Text(r.version), Number(r.servers), Number(r.templates)] + [ext];
    BuiltIsRead(keys, values);
    ExtendedRead(v, r, ReadObject(Build(keys, values)).value, keys, values, ext);
  }

  /**
   A decoded report survives encoding and decoding, with its send time cut to the
   second, exactly when the year of that time has four digits; both schemas.
   */
  lemma {:induction false} ReportRoundTrip(v: Vocabulary, r: Report)
    requires ClockLaw(v) && ReportOk(v, r)
    ensures Encode(v, r).Success?
    ensures Decode(v, Encode(v, r).value)
            == if r.ext.Some? && !FourDigitYear(r.ext.value.sentAt) then Failure(Invalid)
               else Success(Decoded(CutToSecond(r), false))
  {
    if r.ext.None? {
      BasicRoundTrip(v, r);
    } else {
      ExtRoundTrip(v, r.ext.value);
      BuiltReport(v, r, EncodeExt(v, r.ext.value));
    }
  }

  predicate YearIsWritten(r: Report) { r.ext.Some? ==> FourDigitYear(r.ext.value.sentAt) }

  lemma {:induction false} CutIsOk(v: Vocabulary, r: Report)
    requires ReportOk(v, r)
    ensures var c := CutToSecond(r); ReportOk(v, c) && CutToSecond(c) == c && (YearIsWritten(c) <==> YearIsWritten(r))
  {
  }

  /** Encoding is stable: a decoded report, once cut to the second, is unchanged by another round exactly when its year has four digits. */
  lemma {:induction false} SecondRoundTripIsExact(v: Vocabulary, j: Json)
    requires ClockLaw(v) && Decode(v, j).Success?
    ensures var r := CutToSecond(Decode(v, j).value.report);
            && Encode(v, r).Success?
            && (Decode(v, Encode(v, r).value) == Success(Decoded(r, false)) <==> YearIsWritten(Decode(v, j).value.report))
  {
    DecodedReportOk(v, j);
    CutIsOk(v, Decode(v, j).value.report);
    ReportRoundTrip(v, CutToSecond(Decode(v, j).value.report));
  }
}
