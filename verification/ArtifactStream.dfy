/** Cutting a record stream into one part per install (sim/artifacts.ts). */
module ArtifactStream {
  import opened Wrappers

  datatype Verdict = Verdict(reached: bool, timeToGoalMs: Option<int>, validity: string, stoppedBecause: string)

  /** A result event carries a verdict unless its data is malformed; a reader of the stream keeps the last one. */
  datatype Kind = Prestige | Meta(fingerprint: Option<string>) | Result(verdict: Option<Verdict>) | Plain

  datatype Record = Record(t: int, kind: Kind, line: string)

  ghost function Concat(parts: seq<seq<Record>>): seq<Record> {
    if parts == [] then [] else Concat(parts[..|parts| - 1]) + parts[|parts| - 1]
  }

  ghost predicate OnePart(part: seq<Record>) {
    part != [] && forall j | 0 <= j < |part| - 1 :: !part[j].kind.Prestige?
  }

  ghost predicate EndsInPrestige(part: seq<Record>) {
    part != [] && part[|part| - 1].kind.Prestige?
  }

  /** Parts that put the stream together again, none empty, cut after every prestige and nowhere else. */
  ghost predicate IsSplit(parts: seq<seq<Record>>, records: seq<Record>) {
    && Concat(parts) == records
    && (forall i | 0 <= i < |parts| :: OnePart(parts[i]))
    && forall i | 0 <= i < |parts| - 1 :: EndsInPrestige(parts[i])
  }

  lemma ConcatAppend(parts: seq<seq<Record>>, part: seq<Record>)
    ensures Concat(parts + [part]) == Concat(parts) + part
  {
    assert (parts + [part])[..|parts|] == parts;
  }

  /** The next record opens a new part: there is none yet, or the last one has had its prestige. */
  lemma OpenPart(parts: seq<seq<Record>>, records: seq<Record>, record: Record)
    requires IsSplit(parts, records) && (parts == [] || EndsInPrestige(parts[|parts| - 1]))
    ensures IsSplit(parts + [[record]], records + [record])
  {
    ConcatAppend(parts, [record]);
  }

  /** Or it joins the last part. */
  lemma ExtendPart(parts: seq<seq<Record>>, records: seq<Record>, record: Record)
    requires IsSplit(parts, records) && parts != [] && !EndsInPrestige(parts[|parts| - 1])
    ensures IsSplit(parts[|parts| - 1 := parts[|parts| - 1] + [record]], records + [record])
  {
    var front, last := parts[..|parts| - 1], parts[|parts| - 1];
    assert parts == front + [last];
    assert parts[|parts| - 1 := last + [record]] == front + [last + [record]];
    ConcatAppend(front, last);
    ConcatAppend(front, last + [record]);
  }

  /** There is only one such way to cut a stream. */
  lemma {:induction false} SplitIsUnique(p: seq<seq<Record>>, q: seq<seq<Record>>, records: seq<Record>)
    requires IsSplit(p, records) && IsSplit(q, records)
    ensures p == q
    decreases |p|
  {
    if p == [] || q == [] {
      SplitOfNothing(p, records);
      SplitOfNothing(q, records);
    } else {
      LastPartNotLonger(p, q, records);
      LastPartNotLonger(q, p, records);
      var k := |records| - |p[|p| - 1]|;
      FrontIsSplit(p, records);
      FrontIsSplit(q, records);
      SplitIsUnique(p[..|p| - 1], q[..|q| - 1], records[..k]);
      assert p[|p| - 1] == records[k..] == q[|q| - 1];
      assert p == p[..|p| - 1] + [p[|p| - 1]];
      assert q == q[..|q| - 1] + [q[|q| - 1]];
    }
  }

  lemma SplitOfNothing(p: seq<seq<Record>>, records: seq<Record>)
    requires IsSplit(p, records)
    ensures p == [] <==> records == []
  {
    if p != [] {
      assert OnePart(p[|p| - 1]);
    }
  }

  lemma FrontIsSplit(p: seq<seq<Record>>, records: seq<Record>)
    requires IsSplit(p, records) && p != []
    ensures var k := |records| - |p[|p| - 1]|;
      0 <= k < |records| && IsSplit(p[..|p| - 1], records[..k]) && p[|p| - 1] == records[k..]
  {
    var k := |records| - |p[|p| - 1]|;
    assert OnePart(p[|p| - 1]);
    assert records[..k] == Concat(p[..|p| - 1]);
  }

  /** The record before the last part is the prestige that ended the part before it. */
  lemma CutIsPrestige(p: seq<seq<Record>>, records: seq<Record>)
    requires IsSplit(p, records) && p != [] && |p[|p| - 1]| < |records|
    ensures records[|records| - |p[|p| - 1]| - 1].kind.Prestige?
  {
    var k := |records| - |p[|p| - 1]|;
    FrontIsSplit(p, records);
    SplitOfNothing(p[..|p| - 1], records[..k]);
    FrontIsSplit(p[..|p| - 1], records[..k]);
    assert EndsInPrestige(p[|p| - 2]);
  }

  lemma InteriorIsNotPrestige(q: seq<seq<Record>>, records: seq<Record>, j: int)
    requires IsSplit(q, records) && q != [] && |records| - |q[|q| - 1]| <= j < |records| - 1
    ensures 0 <= j && !records[j].kind.Prestige?
  {
    FrontIsSplit(q, records);
    assert OnePart(q[|q| - 1]);
    assert records[j] == q[|q| - 1][j - (|records| - |q[|q| - 1]|)];
  }

  lemma LastPartNotLonger(p: seq<seq<Record>>, q: seq<seq<Record>>, records: seq<Record>)
    requires IsSplit(p, records) && IsSplit(q, records) && p != [] && q != []
    ensures |q[|q| - 1]| <= |p[|p| - 1]|
  {
    FrontIsSplit(p, records);
    FrontIsSplit(q, records);
    var k := |records| - |p[|p| - 1]| - 1;
    if |p[|p| - 1]| < |q[|q| - 1]| {
      CutIsPrestige(p, records);
      InteriorIsNotPrestige(q, records, k);
    }
  }

  // ---------- what a reader derives from a stream ----------

  ghost function LastVerdict(records: seq<Record>): Option<Verdict> {
    if records == [] then None
    else
      var last := records[|records| - 1];
      if last.kind.Result? && last.kind.verdict.Some? then last.kind.verdict else LastVerdict(records[..|records| - 1])
  }

  ghost function LastFingerprint(records: seq<Record>): Option<string> {
    if records == [] then None
    else
      var last := records[|records| - 1];
      if last.kind.Meta? && last.kind.fingerprint.Some? then last.kind.fingerprint
      else LastFingerprint(records[..|records| - 1])
  }

  /** The latest time in a stream. */
  ghost function Latest(records: seq<Record>): Option<int> {
    if records == [] then None
    else
      var before, t := Latest(records[..|records| - 1]), records[|records| - 1].t;
      if before.Some? && t < before.value then before else Some(t)
  }
}
