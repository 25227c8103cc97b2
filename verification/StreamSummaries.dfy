/** What a record stream says of itself (sim/artifacts.ts). */
module StreamSummaries {
  import opened ArtifactStream
  import opened Wrappers

  /** The latest time is the greatest, wherever in the stream it stands. */
  lemma {:induction false} LatestIsGreatest(records: seq<Record>)
    ensures Latest(records).None? <==> records == []
    ensures records != [] ==> exists r <- records :: Some(r.t) == Latest(records)
    ensures records != [] ==> forall r <- records :: r.t <= Latest(records).value
  {
    if records != [] {
      var rest, last := records[..|records| - 1], records[|records| - 1];
      assert records == rest + [last] && last in records;
      LatestIsGreatest(rest);
    }
  }

  predicate CarriesVerdict(r: Record) { r.kind.Result? && r.kind.verdict.Some? }

  predicate CarriesFingerprint(r: Record) { r.kind.Meta? && r.kind.fingerprint.Some? }

  /** The verdict of a stream is that of the last result with one; there is none only if no result has one. */
  lemma {:induction false} VerdictIsTheLast(records: seq<Record>, k: nat)
    requires k < |records| && CarriesVerdict(records[k])
    requires forall j | k < j < |records| :: !CarriesVerdict(records[j])
    ensures LastVerdict(records) == records[k].kind.verdict
  {
    if k < |records| - 1 {
      VerdictIsTheLast(records[..|records| - 1], k);
    }
  }

  lemma {:induction false} NoVerdict(records: seq<Record>)
    ensures LastVerdict(records).None? <==> forall r <- records :: !CarriesVerdict(r)
  {
    if records != [] {
      assert records == records[..|records| - 1] + [records[|records| - 1]];
      assert records[|records| - 1] in records;
      NoVerdict(records[..|records| - 1]);
    }
  }

  /** So with its fingerprint and the last meta record that carries one. */
  lemma {:induction false} FingerprintIsTheLast(records: seq<Record>, k: nat)
    requires k < |records| && CarriesFingerprint(records[k])
    requires forall j | k < j < |records| :: !CarriesFingerprint(records[j])
    ensures LastFingerprint(records) == records[k].kind.fingerprint
  {
    if k < |records| - 1 {
      FingerprintIsTheLast(records[..|records| - 1], k);
    }
  }

  lemma {:induction false} NoFingerprint(records: seq<Record>)
    ensures LastFingerprint(records).None? <==> forall r <- records :: !CarriesFingerprint(r)
  {
    if records != [] {
      assert records == records[..|records| - 1] + [records[|records| - 1]];
      assert records[|records| - 1] in records;
      NoFingerprint(records[..|records| - 1]);
    }
  }
}
