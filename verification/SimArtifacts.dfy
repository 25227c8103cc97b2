/** The artifact session's synchronous state (sim/artifacts.ts). */
module SimArtifacts {
  import opened ArtifactStream
  import opened Wrappers

  /** One file of records with its sidecar. */
  datatype Artifact = Artifact(
    index: nat, startedAt: int, lines: seq<Record>, records: nat, firstT: Option<int>, lastT: Option<int>)

  /** The sidecar agrees with the file. */
  ghost predicate Truthful(a: Artifact) {
    && a.records == |a.lines| && a.lastT == Latest(a.lines)
    && a.firstT == if a.lines == [] then None else Some(a.lines[0].t)
  }

  ghost function Contents(files: seq<Artifact>): (parts: seq<seq<Record>>)
    ensures |parts| == |files| && forall i | 0 <= i < |files| :: parts[i] == files[i].lines
  {
    seq(|files|, i requires 0 <= i < |files| => files[i].lines)
  }

  /** When an artifact's stream ended. */
  function EndT(a: Artifact): int
    requires a.lines != []
  {
    a.lines[|a.lines| - 1].t
  }

  ghost predicate NoneEmpty(files: seq<Artifact>) {
    forall i | 0 <= i < |files| :: files[i].lines != []
  }

  /** Installs are numbered in order; the first starts with its first record, each later one at the prestige
      that ended the install before it; and every sidecar is true. */
  ghost predicate Chained(files: seq<Artifact>) {
    && NoneEmpty(files)
    && (forall i | 0 <= i < |files| :: files[i].index == i && Truthful(files[i]))
    && (files != [] ==> files[0].startedAt == files[0].lines[0].t)
    && forall i | 1 <= i < |files| :: files[i].startedAt == EndT(files[i - 1])
  }

  /** Whether the stream's next record opens a new artifact. */
  ghost predicate Complete(files: seq<Artifact>) {
    files == [] || EndsInPrestige(files[|files| - 1].lines)
  }

  function Start(files: seq<Artifact>, record: Record): int
    requires files != [] ==> files[|files| - 1].lines != []
  {
    if files == [] then record.t else EndT(files[|files| - 1])
  }

  class Session {
    var rotate: bool
    var installIndex: nat
    var writing: bool
    var files: seq<Artifact>
    var nextInstallStartedAt: Option<int>
    var fingerprint: Option<string>
    var verdict: Option<Verdict>
    var closing: bool

    /** The records accepted so far. */
    ghost var accepted: seq<Record>

    /** The rotation flags say whether the last artifact has had its prestige, and when. */
    ghost predicate Flagged()
      reads `rotate, `installIndex, `files, `nextInstallStartedAt
      requires NoneEmpty(files)
    {
      && installIndex == (if files == [] then 0 else |files| - 1)
      && rotate == (files != [] && EndsInPrestige(files[|files| - 1].lines))
      && nextInstallStartedAt == if rotate then Some(EndT(files[|files| - 1])) else None
    }

    ghost predicate Valid()
      reads this
    {
      && IsSplit(Contents(files), accepted) && NoneEmpty(files) && Chained(files) && Flagged()
      && (!closing ==> (writing <==> files != []))
      && verdict == LastVerdict(accepted) && fingerprint == LastFingerprint(accepted)
    }

    constructor ()
      ensures Valid() && files == [] && accepted == [] && !closing
    {
      rotate, installIndex, writing, files, nextInstallStartedAt := false, 0, false, [], None;
      fingerprint, verdict, closing, accepted := None, None, false, [];
    }

    /** Start an artifact, finishing the one before. */
    method Open(startedAt: int)
      modifies this`writing, this`files
      ensures writing && files == old(files) + [Artifact(installIndex, startedAt, [], 0, None, None)]
    {
      FinishArtifact();
      files := files + [Artifact(installIndex, startedAt, [], 0, None, None)];
      writing := true;
    }

    method FinishArtifact()
      modifies this`writing
      ensures !writing
    {
      writing := false;
    }

    /** Before a record is written: rotate after a prestige, and have an artifact open. */
    method MakeRoom(record: Record)
      requires NoneEmpty(files) && Flagged() && (writing <==> files != [])
      modifies this`rotate, this`installIndex, this`writing, this`files, this`nextInstallStartedAt
      ensures writing && !rotate && nextInstallStartedAt == None && installIndex == |files| - 1
      ensures if Complete(old(files))
              then files == old(files) + [NewArtifact(old(files), record)]
              else files == old(files)
    {
      if rotate {
        installIndex := installIndex + 1;
        Open(if nextInstallStartedAt.Some? then nextInstallStartedAt.value else record.t);
        rotate, nextInstallStartedAt := false, None;
      }
      if !writing { Open(record.t); }
    }

    /** Append one record to the open artifact and keep its sidecar. */
    method Append(record: Record)
      requires files != [] && Truthful(files[|files| - 1])
      modifies this`files
      ensures |files| == |old(files)| && files[..|files| - 1] == old(files)[..|files| - 1]
      ensures Grown(old(files)[|files| - 1], files[|files| - 1], record)
    {
      var meta := files[|files| - 1];
      var firstT := if meta.firstT.None? then Some(record.t) else meta.firstT;
      var lastT := if meta.lastT.None? || meta.lastT.value <= record.t then Some(record.t) else meta.lastT;
      assert (meta.lines + [record])[..|meta.lines|] == meta.lines;
      var grown := Artifact(meta.index, meta.startedAt, meta.lines + [record], meta.records + 1, firstT, lastT);
      files := files[|files| - 1 := grown];
    }

    /** Remember what the record says. */
    method Note(record: Record)
      requires files != [] && files[|files| - 1].lines != [] && EndT(files[|files| - 1]) == record.t
      requires EndsInPrestige(files[|files| - 1].lines) == record.kind.Prestige?
      requires NoneEmpty(files) && !rotate && nextInstallStartedAt == None && installIndex == |files| - 1
      modifies this`rotate, this`nextInstallStartedAt, this`fingerprint, this`verdict
      ensures Flagged()
      ensures verdict == if record.kind.Result? && record.kind.verdict.Some? then record.kind.verdict else old(verdict)
      ensures fingerprint
        == if record.kind.Meta? && record.kind.fingerprint.Some? then record.kind.fingerprint else old(fingerprint)
    {
      if record.kind.Prestige? { rotate, nextInstallStartedAt := true, Some(record.t); }
      if record.kind.Meta? && record.kind.fingerprint.Some? { fingerprint := record.kind.fingerprint; }
      if record.kind.Result? && record.kind.verdict.Some? { verdict := record.kind.verdict; }
    }

    /** Accept a record, in a new artifact after a prestige; a closing session accepts nothing. */
    method Write(record: Record)
      requires Valid()
      modifies this
      ensures Valid() && closing == old(closing)
      ensures accepted == if closing then old(accepted) else old(accepted) + [record]
      ensures closing ==> files == old(files)
      ensures !closing ==> |files| == |old(files)| + if Complete(old(files)) then 1 else 0
    {
      hide IsSplit, Truthful, Latest, Contents, Grown, Gained, EndsInPrestige, NewArtifact, Chained, NoneEmpty;
      hide LastVerdict, LastFingerprint;
      if closing { return; }
      ghost var before := files;
      MakeRoom(record);
      ghost var room := files;
      RoomIsTruthful(before, room, record);
      Append(record);
      RoomThenRecord(before, room, files, record);
      ChainGrows(before, files, accepted, record);
      LastRecord(room[|room| - 1], files[|files| - 1], record);
      Note(record);
      ReadingGrows(accepted, record);
      accepted := accepted + [record];
    }

    /** Close once; later calls change nothing. */
    method Close()
      requires Valid()
      modifies this`closing, this`writing
      ensures Valid() && closing && accepted == old(accepted) && files == old(files)
      ensures old(closing) ==> writing == old(writing)
    {
      hide IsSplit, Truthful, Contents;
      if !closing {
        closing := true;
        FinishArtifact();
      }
    }

    /** The manifest's artifacts: what a reader concatenates. */
    method Manifest() returns (artifacts: seq<Artifact>, result: Option<Verdict>, scenario: Option<string>)
      requires Valid()
      ensures IsSplit(Contents(artifacts), accepted) && Chained(artifacts)
      ensures result == LastVerdict(accepted) && scenario == LastFingerprint(accepted)
    {
      artifacts, result, scenario := files, verdict, fingerprint;
    }
  }

  lemma ReadingGrows(records: seq<Record>, record: Record)
    ensures LastVerdict(records + [record])
      == if record.kind.Result? && record.kind.verdict.Some? then record.kind.verdict else LastVerdict(records)
    ensures LastFingerprint(records + [record])
      == if record.kind.Meta? && record.kind.fingerprint.Some? then record.kind.fingerprint
         else LastFingerprint(records)
  {
    assert (records + [record])[..|records|] == records;
  }

  /** The same artifact with one more record, its sidecar still true. */
  ghost predicate Grown(a: Artifact, b: Artifact, record: Record) {
    b.lines == a.lines + [record] && Truthful(b) && b.index == a.index && b.startedAt == a.startedAt
  }

  lemma RoomIsTruthful(before: seq<Artifact>, room: seq<Artifact>, record: Record)
    requires Chained(before)
    requires room == if Complete(before) then before + [NewArtifact(before, record)] else before
    ensures room != [] && Truthful(room[|room| - 1])
  {
  }

  lemma RoomThenRecord(before: seq<Artifact>, room: seq<Artifact>, after: seq<Artifact>, record: Record)
    requires NoneEmpty(before)
    requires room == if Complete(before) then before + [NewArtifact(before, record)] else before
    requires room != [] && |after| == |room| && after[..|after| - 1] == room[..|room| - 1]
    requires Grown(room[|room| - 1], after[|after| - 1], record)
    ensures Gained(before, after, record)
  {
    hide Truthful, EndsInPrestige;
    if Complete(before) {
      assert after[..|before|] == room[..|before|] == before;
    }
  }

  lemma LastRecord(a: Artifact, b: Artifact, record: Record)
    requires Grown(a, b, record)
    ensures b.lines != [] && EndT(b) == record.t && EndsInPrestige(b.lines) == record.kind.Prestige?
  {
  }

  /** Either the files gained one with the record, or the last file gained the record. */
  ghost predicate Gained(before: seq<Artifact>, after: seq<Artifact>, record: Record)
    requires NoneEmpty(before)
  {
    && (Complete(before) ==>
          |after| == |before| + 1 && after[..|before|] == before
          && Grown(NewArtifact(before, record), after[|before|], record))
    && (!Complete(before) ==>
          |after| == |before| && after[..|before| - 1] == before[..|before| - 1]
          && Grown(before[|before| - 1], after[|before| - 1], record))
  }

  /** The artifact opened for a record after `before`. */
  function NewArtifact(before: seq<Artifact>, record: Record): Artifact
    requires before != [] ==> before[|before| - 1].lines != []
  {
    Artifact(|before|, Start(before, record), [], 0, None, None)
  }

  /** Either way the files stay chained and remain the one cutting of the stream. */
  lemma ChainGrows(before: seq<Artifact>, after: seq<Artifact>, accepted: seq<Record>, record: Record)
    requires IsSplit(Contents(before), accepted) && Chained(before) && Gained(before, after, record)
    ensures IsSplit(Contents(after), accepted + [record]) && NoneEmpty(after) && Chained(after)
  {
    StreamGrows(before, after, accepted, record);
    if Complete(before) {
      forall i | 0 <= i < |before| ensures after[i] == before[i] {
        assert after[..|before|][i] == after[i];
      }
    } else {
      forall i | 0 <= i < |before| - 1 ensures after[i] == before[i] {
        assert after[..|before| - 1][i] == after[i] && before[..|before| - 1][i] == before[i];
      }
    }
  }

  lemma StreamGrows(before: seq<Artifact>, after: seq<Artifact>, accepted: seq<Record>, record: Record)
    requires IsSplit(Contents(before), accepted) && NoneEmpty(before) && Gained(before, after, record)
    ensures IsSplit(Contents(after), accepted + [record])
  {
    hide IsSplit, Truthful;
    var parts := Contents(before);
    if Complete(before) {
      OpenPart(parts, accepted, record);
      forall i | 0 <= i < |before| ensures Contents(after)[i] == parts[i] {
        assert after[..|before|][i] == after[i];
      }
      assert after[|before|].lines == NewArtifact(before, record).lines + [record] == [record];
      assert Contents(after) == parts + [[record]];
    } else {
      ExtendPart(parts, accepted, record);
      forall i | 0 <= i < |before| - 1 ensures Contents(after)[i] == parts[i] {
        assert after[..|before| - 1][i] == after[i] && before[..|before| - 1][i] == before[i];
      }
      assert Contents(after) == parts[|parts| - 1 := parts[|parts| - 1] + [record]];
    }
  }
}
