/** The evidence tables: their keys and checks, and when their reader raises. */
module EvidenceTables {
  import opened EvidencePages
  import opened Identifiers
  import opened SqlChecks
  import opened Text
  import opened Wrappers

  // ---- Single inserts, as the keys and checks accept them ----

  datatype Insert =
    | InsertArtifact(artifactId: string, artifact: ArtifactRow)
    | InsertSource(sourceId: string, source: SourceRow)
    | InsertSnapshot(snapshotId: string, snapshot: SnapshotRow)
    | InsertRef(refId: string, ref: RefRow)

  const STORED_CLASSES := {"public_source", "personal", "sensitive"}

  predicate ArtifactChecks(artifact: ArtifactRow) {
    && IsSha256(UpToNul(artifact.sha256)) && NonBlank(artifact.mediaType)
    && artifact.artifactClass in STORED_CLASSES && 0 <= artifact.byteLength
  }

  predicate SourceChecks(source: SourceRow) {
    && NonBlank(source.sourceType) && Length(source.sourceType) <= 128
    && NonBlank(source.locator) && Length(source.locator) <= 2048
  }

  predicate RefChecks(ref: RefRow) {
    ref.selector.Some? ==> Length(ref.selector.value) <= 2048
  }

  /** A snapshot names a source and an artifact, and a reference names a snapshot together with its artifact. */
  predicate Accepts(t: Tables, insert: Insert) {
    match insert
    case InsertArtifact(id, artifact) => id !in t.artifacts && ArtifactChecks(artifact)
    case InsertSource(id, source) => id !in t.sources && SourceChecks(source)
    case InsertSnapshot(id, snapshot) =>
      id !in t.snapshots && snapshot.source in t.sources && snapshot.artifact in t.artifacts
    case InsertRef(id, ref) =>
      && id !in t.refs && RefChecks(ref)
      && ref.snapshot in t.snapshots && t.snapshots[ref.snapshot].artifact == ref.artifact
  }

  /** An insert that is refused, or whose transaction is rolled back, leaves the tables as they were. */
  function Inserted(t: Tables, insert: Insert): Tables {
    if !Accepts(t, insert) then t
    else
      match insert
      case InsertArtifact(id, artifact) => t.(artifacts := t.artifacts[id := artifact])
      case InsertSource(id, source) => t.(sources := t.sources[id := source])
      case InsertSnapshot(id, snapshot) => t.(snapshots := t.snapshots[id := snapshot])
      case InsertRef(id, ref) => t.(refs := t.refs[id := ref])
  }

  /** Updates and deletes abort on every table, so a history is a list of inserts. */
  function History(t: Tables, inserts: seq<Insert>): Tables
    decreases |inserts|
  {
    if inserts == [] then t else History(Inserted(t, inserts[0]), inserts[1..])
  }

  function Empty(): Tables {
    Tables(map[], map[], map[], map[])
  }

  // ---- What every reachable database keeps ----

  ghost predicate Inv(t: Tables) {
    && (forall a :: a in t.artifacts ==> ArtifactChecks(t.artifacts[a]))
    && (forall s :: s in t.sources ==> SourceChecks(t.sources[s]))
    && (forall s :: s in t.snapshots ==> t.snapshots[s].source in t.sources && t.snapshots[s].artifact in t.artifacts)
    && (forall r :: r in t.refs ==>
          && RefChecks(t.refs[r]) && t.refs[r].snapshot in t.snapshots
          && t.snapshots[t.refs[r].snapshot].artifact == t.refs[r].artifact)
  }

  ghost predicate Extends(t: Tables, later: Tables) {
    && (forall a :: a in t.artifacts ==> a in later.artifacts && later.artifacts[a] == t.artifacts[a])
    && (forall s :: s in t.sources ==> s in later.sources && later.sources[s] == t.sources[s])
    && (forall s :: s in t.snapshots ==> s in later.snapshots && later.snapshots[s] == t.snapshots[s])
    && (forall r :: r in t.refs ==> r in later.refs && later.refs[r] == t.refs[r])
  }

  lemma InsertKeepsInv(t: Tables, insert: Insert)
    requires Inv(t)
    ensures Inv(Inserted(t, insert)) && Extends(t, Inserted(t, insert))
  {
    hide ArtifactChecks, SourceChecks, RefChecks;
  }

  lemma ExtendsIsTransitive(a: Tables, b: Tables, c: Tables)
    requires Extends(a, b) && Extends(b, c)
    ensures Extends(a, c)
  {
  }

  lemma {:induction false} HistoryKeepsInv(t: Tables, inserts: seq<Insert>)
    requires Inv(t)
    ensures Inv(History(t, inserts)) && Extends(t, History(t, inserts))
    decreases |inserts|
  {
    if inserts != [] {
      hide Inv, Inserted, Extends;
      var next := Inserted(t, inserts[0]);
      InsertKeepsInv(t, inserts[0]);
      HistoryKeepsInv(next, inserts[1..]);
      ExtendsIsTransitive(t, next, History(next, inserts[1..]));
    } else {
      hide Inv;
    }
  }

  // ---- When a reference is read ----

  /** What the records ask beyond the checks: the form of identifiers, a media type that is not too long,
      and nothing after a NUL, where the checks stop, that they would not have let pass before it. */
  predicate Fits(item: Item) {
    && OpaqueId(item.id) && OpaqueId(item.ref.snapshot) && OpaqueId(item.ref.artifact) && OpaqueId(item.snapshot.source)
    && |item.artifact.mediaType| <= 255 && '\0' !in item.artifact.sha256
    && |item.source.sourceType| <= 128 && |item.source.locator| <= 2048
    && (item.ref.selector.Some? ==> |item.ref.selector.value| <= 2048)
  }

  predicate Readable(t: Tables, id: string)
    requires id in t.refs
  {
    && t.refs[id].snapshot in t.snapshots && t.snapshots[t.refs[id].snapshot].source in t.sources
    && t.snapshots[t.refs[id].snapshot].artifact in t.artifacts && Fits(ItemOf(t, id))
  }

  lemma CheckedRowsAreValidIffFit(item: Item)
    requires RefChecks(item.ref) && SourceChecks(item.source) && ArtifactChecks(item.artifact)
    ensures FitsRecords(item) <==> Fits(item)
  {
    UpToNulIsWhole(item.artifact.sha256);
    hide UpToNul, Length, OpaqueId;
  }

  /** Of texts without a NUL the checks count every character: they let pass exactly the lengths that the
      records take, except for the media type. */
  lemma ChecksOfTextsWithoutNul(artifact: ArtifactRow, source: SourceRow, ref: RefRow)
    requires '\0' !in artifact.sha256 && '\0' !in source.sourceType && '\0' !in source.locator
    requires ref.selector.Some? ==> '\0' !in ref.selector.value
    ensures RefChecks(ref) <==> ref.selector.None? || |ref.selector.value| <= 2048
    ensures SourceChecks(source) <==>
              && NonBlank(source.sourceType) && |source.sourceType| <= 128
              && NonBlank(source.locator) && |source.locator| <= 2048
    ensures ArtifactChecks(artifact) <==>
              && IsSha256(artifact.sha256) && NonBlank(artifact.mediaType) && artifact.byteLength >= 0
              && (|| artifact.artifactClass == "public_source" || artifact.artifactClass == "personal"
                  || artifact.artifactClass == "sensitive")
  {
    UpToNulIsWhole(artifact.sha256);
    UpToNulIsWhole(source.sourceType);
    UpToNulIsWhole(source.locator);
    if ref.selector.Some? { UpToNulIsWhole(ref.selector.value); }
    hide NonBlank, UpToNul, IsSha256;
  }

  lemma RefIsReadIffReadable(t: Tables, id: string)
    requires Inv(t) && id in t.refs
    ensures Joined(t, id).Ok? <==> Readable(t, id)
    ensures Joined(t, id).Err? ==> Joined(t, id) == Err(InvalidRecord)
    ensures Complete(t, id) <==> Readable(t, id)
  {
    CheckedRowsAreValidIffFit(ItemOf(t, id));
    hide FitsRecords, Fits, ArtifactChecks, SourceChecks, RefChecks;
  }

  lemma ExtendedReadsTheSame(t: Tables, later: Tables, id: string)
    requires Inv(t) && Extends(t, later) && id in t.refs
    ensures Joined(later, id) == Joined(t, id)
  {
    hide FitsRecords, ArtifactChecks, SourceChecks, RefChecks;
  }

  /** In every database that inserts can reach no reference misses a row; its reader raises if and
      only if an identifier or a text does not fit, and answers the same after every later history. */
  lemma ReaderRaisesIff(past: seq<Insert>, future: seq<Insert>)
    ensures var t := History(Empty(), past);
            var later := History(t, future);
            forall id :: id in t.refs ==>
              && id in later.refs && Joined(later, id) == Joined(t, id)
              && (Joined(t, id).Err? <==> !Readable(t, id))
              && (Joined(t, id).Err? ==> Joined(t, id) == Err(InvalidRecord))
  {
    var t := History(Empty(), past);
    HistoryKeepsInv(Empty(), past);
    HistoryKeepsInv(t, future);
    hide History, Inv, Joined, Readable;
    forall id | id in t.refs
      ensures Joined(History(t, future), id) == Joined(t, id)
      ensures Joined(t, id).Err? <==> !Readable(t, id)
      ensures Joined(t, id).Err? ==> Joined(t, id) == Err(InvalidRecord)
    {
      RefIsReadIffReadable(t, id);
      ExtendedReadsTheSame(t, History(t, future), id);
    }
  }

  // ---- A reference that the tables take and the reader refuses ----

  function LongMediaType(): string {
    seq(256, i => 'a')
  }

  function SomeDigest(): string {
    seq(64, i => 'a')
  }

  function InsertsWithLongMediaType(): seq<Insert> {
    [InsertArtifact("artifact_1", ArtifactRow(SomeDigest(), LongMediaType(), "personal", 0)),
     InsertSource("source_1", SourceRow("upload", "file")),
     InsertSnapshot("snapshot_1", SnapshotRow("source_1", "artifact_1", 0)),
     InsertRef("evidence_1", RefRow("snapshot_1", "artifact_1", None))]
  }

  function TablesWithLongMediaType(): Tables {
    Tables(map["evidence_1" := RefRow("snapshot_1", "artifact_1", None)],
           map["snapshot_1" := SnapshotRow("source_1", "artifact_1", 0)],
           map["source_1" := SourceRow("upload", "file")],
           map["artifact_1" := ArtifactRow(SomeDigest(), LongMediaType(), "personal", 0)])
  }

  lemma PlainTextPasses(s: string)
    requires s != [] && s[0] != ' ' && '\0' !in s
    ensures NonBlank(s) && Length(s) == |s| && UpToNul(s) == s
  {
    UpToNulIsWhole(s);
    hide UpToNul;
  }

  lemma SomeDigestIsSha256()
    ensures IsSha256(SomeDigest()) && '\0' !in SomeDigest()
  {
  }

  lemma LongMediaTypePasses()
    ensures ArtifactChecks(ArtifactRow(SomeDigest(), LongMediaType(), "personal", 0))
    ensures SourceChecks(SourceRow("upload", "file"))
  {
    hide NonBlank, UpToNul, Length, SomeDigest, IsSha256;
    SomeDigestIsSha256();
    UpToNulIsWhole(SomeDigest());
    PlainTextPasses(LongMediaType());
    PlainTextPasses("upload");
    PlainTextPasses("file");
  }

  lemma NextInsert(t: Tables, inserts: seq<Insert>)
    requires inserts != []
    ensures History(t, inserts) == History(Inserted(t, inserts[0]), inserts[1..])
  {
  }

  /** Four inserts that keys and checks accept, after which the reader raises. */
  lemma LongMediaTypeIsTakenButNotRead()
    ensures History(Empty(), InsertsWithLongMediaType()) == TablesWithLongMediaType()
    ensures Joined(TablesWithLongMediaType(), "evidence_1") == Err(InvalidRecord)
  {
    LongMediaTypePasses();
    hide ArtifactChecks, SourceChecks, SomeDigest;
    var all := InsertsWithLongMediaType();
    var t1 := Inserted(Empty(), all[0]);
    var t2 := Inserted(t1, all[1]);
    var t3 := Inserted(t2, all[2]);
    assert Inserted(t3, all[3]) == TablesWithLongMediaType();
    NextInsert(Empty(), all);
    NextInsert(t1, all[1..]);
    NextInsert(t2, all[2..]);
    NextInsert(t3, all[3..]);
    assert all[3..][1..] == [];
  }
}
