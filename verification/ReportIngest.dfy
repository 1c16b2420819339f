/**
 The way from a decoded report to the store (telemetry-receiver/ingest_ext.go): what the
 schema guarantees of every decoded report is what the tables' sums rely on.
 */
module ReportIngest {
  import opened Wrappers
  import Json = ReportJson
  import Schema = ReportSchema
  import Tables = StoreTables
  import Ingest = StoreIngest
  import Runs = StoreRuns

  /** The keyed hash of an install id and the fingerprint of a public key. */
  datatype Hashes = Hashes(install: string -> string, fingerprint: string -> string)

  /** The extended part as the store receives it. */
  function Stored(h: Hashes, e: Schema.Extended): Ingest.Extended
    requires e.games.custom >= 0
  {
    Ingest.Extended(
      h.install(e.installId), h.fingerprint(e.key), e.sentAt,
      e.env.nodes, e.env.deployment, e.features.clusters, e.features.db, e.features.language,
      e.env.k8s, e.env.distro, e.env.arch, e.features.tunnels,
      e.features.wakeOnConnect, e.features.capture, e.features.backups, e.features.sso, e.features.auditForwarding,
      e.games.official, e.games.custom)
  }

  /** What a body decodes to, when it decodes with an extended part. */
  ghost predicate DecodesTo(v: Schema.Vocabulary, j: Json.Json, e: Schema.Extended) {
    var r := Schema.Decode(v, j);
    r.Success? && r.value.report.ext == Some(e)
  }

  /** Every decoded extended part is one the store's sums allow for. */
  lemma {:induction false} DecodedIsStorable(v: Schema.Vocabulary, j: Json.Json, h: Hashes, e: Schema.Extended)
    requires DecodesTo(v, j, e)
    ensures e.games.custom >= 0 && Ingest.ReportOk(Stored(h, e))
  {
    Schema.DecodedReportOk(v, j);
    Schema.SortedHasNoRepeat(e.env.k8s);
    Schema.SortedHasNoRepeat(e.env.distro);
    Schema.SortedHasNoRepeat(e.env.arch);
    Schema.SortedHasNoRepeat(e.features.tunnels);
  }

  /** A stored extended part that some body decodes to. */
  ghost predicate Received(v: Schema.Vocabulary, h: Hashes, x: Ingest.Extended) {
    exists j: Json.Json, e: Schema.Extended :: DecodesTo(v, j, e) && e.games.custom >= 0 && x == Stored(h, e)
  }

  /** On every run whose signed reports were decoded from some body, every day's tables agree. */
  lemma {:induction false} DecodedRunsConserve(v: Schema.Vocabulary, h: Hashes, cfg: Ingest.Config, run: seq<Runs.Event>, d: Tables.Day)
    requires forall i :: 0 <= i < |run| && run[i].SignedReport? ==> Received(v, h, run[i].ext)
    ensures Ingest.Conserved(Runs.After(cfg, run), d)
  {
    forall i | 0 <= i < |run| && run[i].SignedReport?
      ensures Ingest.ReportOk(run[i].ext)
    {
      var j: Json.Json, e: Schema.Extended :| DecodesTo(v, j, e) && e.games.custom >= 0 && run[i].ext == Stored(h, e);
      DecodedIsStorable(v, j, h, e);
    }
    Runs.Conservation(cfg, run, d);
  }
}
