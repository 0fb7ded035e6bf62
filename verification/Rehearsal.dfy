/** Importing the preserved entries of a verified index into the provenance tables. */
module Rehearsal {
  import opened Archive
  import opened Paths
  import opened SourceReading
  import opened SqlChecks
  import opened Text
  import opened Wrappers

  /** Primary keys. Each is drawn by a name-based generator from the text that the source
      composes; distinct texts give distinct keys. */
  datatype Id =
    | ArtifactId(sha: string, artifactClass: ArtifactClass)
    | SourceId(inventorySha: string, path: string)
    | SnapshotId(inventorySha: string, path: string)
    | RefId(indexSha: string, inventorySha: string, path: string)

  datatype Row =
    | ArtifactRow(sha256: string, artifactClass: ArtifactClass, byteLength: int)
    | SourceRow(locator: string)
    | SnapshotRow(source: Id, capturedAt: int, artifact: Id)
    | RefRow(snapshot: Id, refArtifact: Id, selector: string)

  /** The four tables, whose keys never clash. */
  type Tables = map<Id, Row>

  datatype ImportError =
    | Conflict | CheckFailed | NotVerified(error: ArchiveError) | UnreadableInventory | NoTimeZone | BrokenProvenance

  const MAX_LOCATOR := 2048

  /** CHECK constraints that the imported rows can meet or miss. */
  predicate Checked(row: Row) {
    match row
    case ArtifactRow(_, kind, length) => kind != CredentialSession && 0 <= length
    case SourceRow(locator) => Length(locator) <= MAX_LOCATOR
    case SnapshotRow(_, _, _) => true
    case RefRow(_, _, selector) => Length(selector) <= MAX_LOCATOR
  }

  // ---- Upserting exact rows ----

  datatype Pair = Pair(id: Id, row: Row)

  function UpsertExact(db: Tables, p: Pair): Result<Tables, ImportError> {
    if p.id in db then if db[p.id] == p.row then Ok(db) else Err(Conflict)
    else if !Checked(p.row) then Err(CheckFailed)
    else Ok(db[p.id := p.row])
  }

  function UpsertAll(db: Tables, pairs: seq<Pair>): Result<Tables, ImportError> {
    if pairs == [] then Ok(db)
    else match UpsertAll(db, pairs[..|pairs| - 1])
      case Err(e) => Err(e)
      case Ok(later) => UpsertExact(later, pairs[|pairs| - 1])
  }

  /** No key with two rows, neither within the list nor against the tables. */
  ghost predicate Compatible(db: Tables, pairs: seq<Pair>) {
    && (forall p, q :: p in pairs && q in pairs && p.id == q.id ==> p.row == q.row)
    && (forall p :: p in pairs && p.id in db ==> db[p.id] == p.row)
  }

  ghost predicate AllChecked(db: Tables, pairs: seq<Pair>) {
    forall p :: p in pairs && p.id !in db ==> Checked(p.row)
  }

  /** The tables after the pairs are in. */
  ghost predicate Holding(db: Tables, pairs: seq<Pair>, later: Tables) {
    && (forall id :: id in later <==> id in db || exists p :: p in pairs && p.id == id)
    && (forall id :: id in db ==> id in later && later[id] == db[id])
    && (forall p :: p in pairs ==> p.id in later && later[p.id] == p.row)
  }

  /** Upserting succeeds exactly when nothing conflicts and every new row passes its checks;
      then the tables hold what they held and the pairs. */
  lemma {:induction false} UpsertAllIff(db: Tables, pairs: seq<Pair>)
    ensures UpsertAll(db, pairs).Ok? <==> Compatible(db, pairs) && AllChecked(db, pairs)
    ensures UpsertAll(db, pairs).Ok? ==> Holding(db, pairs, UpsertAll(db, pairs).value)
  {
    if pairs != [] {
      var front, last := pairs[..|pairs| - 1], pairs[|pairs| - 1];
      assert pairs == front + [last];
      UpsertAllIff(db, front);
      if UpsertAll(db, front).Ok? { UpsertOneMore(db, front, last, UpsertAll(db, front).value); }
      if UpsertAll(db, front).Err? && Compatible(db, pairs) && AllChecked(db, pairs) {
        assert Compatible(db, front) && AllChecked(db, front);
      }
    }
  }

  lemma UpsertOneMore(db: Tables, front: seq<Pair>, last: Pair, between: Tables)
    requires Compatible(db, front) && AllChecked(db, front) && Holding(db, front, between)
    ensures UpsertExact(between, last).Ok? <==> Compatible(db, front + [last]) && AllChecked(db, front + [last])
    ensures UpsertExact(between, last).Ok? ==> Holding(db, front + [last], UpsertExact(between, last).value)
  {
    var pairs := front + [last];
    assert forall p :: p in pairs <==> p in front || p == last;
    if last.id in between {
      if last.id !in db {
        var p :| p in front && p.id == last.id;
        assert between[last.id] == p.row;
        assert p in pairs && last in pairs;
      }
    }
  }

  lemma HoldingIsUnique(db: Tables, pairs: seq<Pair>, more: seq<Pair>, a: Tables, b: Tables)
    requires forall p :: p in pairs <==> p in more
    requires Holding(db, pairs, a) && Holding(db, more, b)
    ensures a == b
  {
    forall id
      ensures id in a <==> id in b
      ensures id in a ==> a[id] == b[id]
    {
      if id in a && id !in db { var p :| p in pairs && p.id == id; }
      if id in b && id !in db { var p :| p in more && p.id == id; }
    }
  }

  // ---- The rows of one entry ----

  function Locator(inventorySha: string, path: string): string {
    "legacy-inventory:" + inventorySha + "/" + path
  }

  function Selector(indexSha: string, inventorySha: string): string {
    "archive-index:" + indexSha + ";inventory:" + inventorySha
  }

  /** Artifact, source, snapshot and reference, in the order of their foreign keys. */
  function PairsOf(indexSha: string, inventorySha: string, capturedAt: int, e: Entry): seq<Pair> {
    var artifact := ArtifactId(e.source.sha256, e.artifactClass);
    var source := SourceId(inventorySha, e.source.path);
    var snapshot := SnapshotId(inventorySha, e.source.path);
    [Pair(artifact, ArtifactRow(e.source.sha256, e.artifactClass, e.source.size)),
     Pair(source, SourceRow(Locator(inventorySha, e.source.path))),
     Pair(snapshot, SnapshotRow(source, capturedAt, artifact)),
     Pair(RefId(indexSha, inventorySha, e.source.path), RefRow(snapshot, artifact, Selector(indexSha, inventorySha)))]
  }

  function AllPairs(indexSha: string, inventorySha: string, capturedAt: int, entries: seq<Entry>): seq<Pair> {
    if entries == [] then []
    else
      var last := entries[|entries| - 1];
      AllPairs(indexSha, inventorySha, capturedAt, entries[..|entries| - 1])
      + (if last.disposition == Preserved then PairsOf(indexSha, inventorySha, capturedAt, last) else [])
  }

  lemma {:induction false} PairsComeFromPreserved(indexSha: string, inventorySha: string, capturedAt: int,
                                                  entries: seq<Entry>, p: Pair)
    ensures p in AllPairs(indexSha, inventorySha, capturedAt, entries) <==>
              exists e :: e in entries && e.disposition == Preserved
                          && p in PairsOf(indexSha, inventorySha, capturedAt, e)
  {
    if entries != [] {
      var front, last := entries[..|entries| - 1], entries[|entries| - 1];
      assert entries == front + [last];
      PairsComeFromPreserved(indexSha, inventorySha, capturedAt, front, p);
    }
  }

  // ---- Import ----

  /** The rows already there must be consistent before, and are after. */
  predicate ProvenanceComplete(db: Tables) {
    && (forall id :: id in db && id.RefId? && db[id].RefRow? ==>
          && db[id].snapshot in db && db[db[id].snapshot].SnapshotRow?
          && db[db[id].snapshot].artifact == db[id].refArtifact)
    && (forall id :: id in db && db[id].SnapshotRow? ==> db[id].source in db && db[id].artifact in db)
  }

  function Imported(env: Env, db: Tables, files: Files, indexSha: string): Result<Tables, ImportError> {
    match LoadVerifiedIndex(env, files, indexSha)
    case Err(e) => Err(NotVerified(e))
    case Ok(index) =>
      match VerifiedContent(env, files, index.inventorySha)
      case Err(e) => Err(NotVerified(e))
      case Ok(inventory) =>
        match env.parseManifest(inventory)
        case None => Err(UnreadableInventory)
        case Some(manifest) =>
          if !manifest.generatedAt.zoned then Err(NoTimeZone)
          else if !ProvenanceComplete(db) then Err(BrokenProvenance)
          else
            match UpsertAll(db, AllPairs(indexSha, index.inventorySha, manifest.generatedAt.instant, index.entries))
            case Err(e) => Err(e)
            case Ok(later) => if ProvenanceComplete(later) then Ok(later) else Err(BrokenProvenance)
  }

  /** The validation after the upserts never fails when the one before them passed. */
  lemma ImportKeepsProvenance(db: Tables, indexSha: string, inventorySha: string, at: int, entries: seq<Entry>,
                              later: Tables)
    requires ProvenanceComplete(db) && UpsertAll(db, AllPairs(indexSha, inventorySha, at, entries)) == Ok(later)
    ensures ProvenanceComplete(later)
  {
    var pairs := AllPairs(indexSha, inventorySha, at, entries);
    UpsertAllIff(db, pairs);
    forall id | id in later
      ensures id.RefId? && later[id].RefRow? ==>
                && later[id].snapshot in later && later[later[id].snapshot].SnapshotRow?
                && later[later[id].snapshot].artifact == later[id].refArtifact
      ensures later[id].SnapshotRow? ==> later[id].source in later && later[id].artifact in later
    {
      if id !in db {
        var p :| p in pairs && p.id == id;
        ImportedPairHasParents(indexSha, inventorySha, at, entries, p);
      }
    }
  }

  /** Beside each new reference or snapshot stand the rows it points to. */
  lemma ImportedPairHasParents(indexSha: string, inventorySha: string, at: int, entries: seq<Entry>, p: Pair)
    requires p in AllPairs(indexSha, inventorySha, at, entries)
    ensures var pairs := AllPairs(indexSha, inventorySha, at, entries);
            && (p.row.RefRow? ==> exists q :: q in pairs && q.id == p.row.snapshot && q.row.SnapshotRow?
                                              && q.row.artifact == p.row.refArtifact)
            && (p.row.SnapshotRow? ==> (exists q :: q in pairs && q.id == p.row.source)
                                       && (exists q :: q in pairs && q.id == p.row.artifact))
  {
    PairsComeFromPreserved(indexSha, inventorySha, at, entries, p);
    var e :| e in entries && e.disposition == Preserved && p in PairsOf(indexSha, inventorySha, at, e);
    var own := PairsOf(indexSha, inventorySha, at, e);
    forall k | 0 <= k < 4
      ensures own[k] in AllPairs(indexSha, inventorySha, at, entries)
    {
      PairsComeFromPreserved(indexSha, inventorySha, at, entries, own[k]);
    }
    assert own[0] in own && own[1] in own && own[2] in own;
  }

  /** Sizes were checked against the stored bytes, so one digest has one size; paths are
      distinct in the inventory. Hence no key gets two rows. */
  lemma VerifiedPairsAreFunctional(env: Env, files: Files, indexSha: string, capturedAt: int)
    requires LoadVerifiedIndex(env, files, indexSha).Ok?
    ensures var index := LoadVerifiedIndex(env, files, indexSha).value;
            Compatible(map[], AllPairs(indexSha, index.inventorySha, capturedAt, index.entries))
  {
    var index := LoadVerifiedIndex(env, files, indexSha).value;
    var pairs := AllPairs(indexSha, index.inventorySha, capturedAt, index.entries);
    forall p, q | p in pairs && q in pairs && p.id == q.id
      ensures p.row == q.row
    {
      PairsComeFromPreserved(indexSha, index.inventorySha, capturedAt, index.entries, p);
      PairsComeFromPreserved(indexSha, index.inventorySha, capturedAt, index.entries, q);
      var e :| && e in index.entries && e.disposition == Preserved
               && p in PairsOf(indexSha, index.inventorySha, capturedAt, e);
      var f :| && f in index.entries && f.disposition == Preserved
               && q in PairsOf(indexSha, index.inventorySha, capturedAt, f);
      PreservedSizes(env, files, indexSha, e, f);
    }
  }

  lemma PreservedSizes(env: Env, files: Files, indexSha: string, e: Entry, f: Entry)
    requires LoadVerifiedIndex(env, files, indexSha).Ok?
    requires e in LoadVerifiedIndex(env, files, indexSha).value.entries && e.disposition == Preserved
    requires f in LoadVerifiedIndex(env, files, indexSha).value.entries && f.disposition == Preserved
    ensures e.source.sha256 == f.source.sha256 ==> e.source.size == f.source.size
    ensures e.source.path == f.source.path ==> e == f
  {
    LoadedIndexStaysLoaded(env, files, files, indexSha);
    var index := LoadVerifiedIndex(env, files, indexSha).value;
    var manifest := env.parseManifest(VerifiedContent(env, files, index.inventorySha).value).value;
    var i :| 0 <= i < |index.entries| && index.entries[i] == e;
    var j :| 0 <= j < |index.entries| && index.entries[j] == f;
    assert SourcesOf(index.entries)[i] == manifest.files[i] && SourcesOf(index.entries)[j] == manifest.files[j];
  }

  /** Whether an index can be imported at all is decided by the lengths of the preserved
      paths alone: 17 + 64 + 1 characters of the locator are taken. */
  lemma FreshImportIff(env: Env, files: Files, indexSha: string)
    requires IsSha256(indexSha) && LoadVerifiedIndex(env, files, indexSha).Ok?
    requires var index := LoadVerifiedIndex(env, files, indexSha).value;
             env.parseManifest(VerifiedContent(env, files, index.inventorySha).value).value.generatedAt.zoned
    ensures var index := LoadVerifiedIndex(env, files, indexSha).value;
            Imported(env, map[], files, indexSha).Ok? <==> PathsFit(index.entries)
    ensures Imported(env, map[], files, indexSha) != Err(Conflict)
  {
    var index := LoadVerifiedIndex(env, files, indexSha).value;
    var at := env.parseManifest(VerifiedContent(env, files, index.inventorySha).value).value.generatedAt.instant;
    var pairs := AllPairs(indexSha, index.inventorySha, at, index.entries);
    VerifiedPairsAreFunctional(env, files, indexSha, at);
    UpsertAllIff(map[], pairs);
    RowsCheckedIffPathsFit(env, files, indexSha, at);
    NoConflictWhenCompatible(map[], pairs);
    if UpsertAll(map[], pairs).Ok? {
      ImportKeepsProvenance(map[], indexSha, index.inventorySha, at, index.entries, UpsertAll(map[], pairs).value);
    }
  }

  predicate PathsFit(entries: seq<Entry>) {
    forall e :: e in entries && e.disposition == Preserved ==> Length(e.source.path) <= MAX_LOCATOR - 82
  }

  /** The inventory of a single file, and the entry that preserves it. */
  function OneFile(env: Env, path: string, content: Bytes, at: Time): SourceFile {
    SourceFile(path, "", |content|, at, env.hash(content), "")
  }

  function OneEntry(env: Env, path: string, content: Bytes, at: Time): Entry {
    Entry(OneFile(env, path, content, at), "", Preserved, "", Some(Location(env.hash(content))), Personal, None)
  }

  /** Any such inventory of a path that is too long loads as an index, and is not imported. */
  lemma LongPathLoadsButIsNotImported(env: Env, workspace: Loc, path: string, content: Bytes, inventory: Bytes,
                                      at: Time)
    requires ValidEnv(env) && !env.excluded(path) && at.zoned && MAX_LOCATOR - 82 < Length(path)
    requires env.parseManifest(inventory)
             == Some(Manifest(workspace, [OneFile(env, path, content, at)], map[path := env.hash(content)], at))
    requires var index := env.writeIndex(Index(env.hash(inventory), [OneEntry(env, path, content, at)]));
             && env.hash(content) != env.hash(inventory) && env.hash(inventory) != env.hash(index)
             && env.hash(index) != env.hash(content)
    ensures var index := Index(env.hash(inventory), [OneEntry(env, path, content, at)]);
            var bytes := env.writeIndex(index);
            var files := map[Location(env.hash(content)) := content, Location(env.hash(inventory)) := inventory,
                             Location(env.hash(bytes)) := bytes];
            && LoadVerifiedIndex(env, files, env.hash(bytes)) == Ok(index)
            && Imported(env, map[], files, env.hash(bytes)) == Err(CheckFailed)
  {
    var index := Index(env.hash(inventory), [OneEntry(env, path, content, at)]);
    var bytes := env.writeIndex(index);
    var a, b, c := env.hash(content), env.hash(inventory), env.hash(bytes);
    if Location(a) == Location(b) { LocationInjective(a, b); }
    if Location(b) == Location(c) { LocationInjective(b, c); }
    if Location(c) == Location(a) { LocationInjective(c, a); }
    var files := map[Location(a) := content, Location(b) := inventory, Location(c) := bytes];
    var manifest := env.parseManifest(inventory).value;
    hide Location;
    assert AllPass(env, files, index.entries);
    assert HasPath(manifest.files, path) by { assert manifest.files[0].path == path; }
    LoadSucceeds(env, files, c, index, manifest, inventory);
    FreshImportIff(env, files, c);
    assert index.entries[0] in index.entries;
    FailsAsItsUpserts(env, files, c);
  }

  /** A fresh import of a verified index fails as its first failing row does. */
  lemma FailsAsItsUpserts(env: Env, files: Files, indexSha: string)
    requires LoadVerifiedIndex(env, files, indexSha).Ok?
    requires var index := LoadVerifiedIndex(env, files, indexSha).value;
             env.parseManifest(VerifiedContent(env, files, index.inventorySha).value).value.generatedAt.zoned
    ensures Imported(env, map[], files, indexSha).Ok?
              || Imported(env, map[], files, indexSha).error in {Conflict, CheckFailed}
  {
    var index := LoadVerifiedIndex(env, files, indexSha).value;
    var at := env.parseManifest(VerifiedContent(env, files, index.inventorySha).value).value.generatedAt.instant;
    var pairs := AllPairs(indexSha, index.inventorySha, at, index.entries);
    UpsertErrors(map[], pairs);
    if UpsertAll(map[], pairs).Ok? {
      ImportKeepsProvenance(map[], indexSha, index.inventorySha, at, index.entries, UpsertAll(map[], pairs).value);
    }
  }

  lemma {:induction false} UpsertErrors(db: Tables, pairs: seq<Pair>)
    ensures UpsertAll(db, pairs).Ok? || UpsertAll(db, pairs).error in {Conflict, CheckFailed}
  {
    if pairs != [] { UpsertErrors(db, pairs[..|pairs| - 1]); }
  }

  lemma RowsCheckedIffPathsFit(env: Env, files: Files, indexSha: string, at: int)
    requires IsSha256(indexSha) && LoadVerifiedIndex(env, files, indexSha).Ok?
    ensures var index := LoadVerifiedIndex(env, files, indexSha).value;
            AllChecked(map[], AllPairs(indexSha, index.inventorySha, at, index.entries)) <==> PathsFit(index.entries)
  {
    var index := LoadVerifiedIndex(env, files, indexSha).value;
    var pairs := AllPairs(indexSha, index.inventorySha, at, index.entries);
    if AllChecked(map[], pairs) {
      forall e | e in index.entries && e.disposition == Preserved
        ensures Length(e.source.path) <= MAX_LOCATOR - 82
      {
        EntryRowChecks(env, files, indexSha, at, e);
        forall p | p in PairsOf(indexSha, index.inventorySha, at, e)
          ensures Checked(p.row)
        {
          PairsComeFromPreserved(indexSha, index.inventorySha, at, index.entries, p);
        }
      }
    }
    if PathsFit(index.entries) {
      forall p | p in pairs
        ensures Checked(p.row)
      {
        PairsComeFromPreserved(indexSha, index.inventorySha, at, index.entries, p);
        var e :| e in index.entries && e.disposition == Preserved && p in PairsOf(indexSha, index.inventorySha, at, e);
        EntryRowChecks(env, files, indexSha, at, e);
      }
    }
  }

  lemma {:induction false} NoConflictWhenCompatible(db: Tables, pairs: seq<Pair>)
    requires Compatible(db, pairs)
    ensures UpsertAll(db, pairs) != Err(Conflict)
  {
    if pairs != [] {
      var front, last := pairs[..|pairs| - 1], pairs[|pairs| - 1];
      assert pairs == front + [last];
      NoConflictWhenCompatible(db, front);
      UpsertAllIff(db, front);
      if UpsertAll(db, front).Ok? {
        var between := UpsertAll(db, front).value;
        if last.id in between && last.id !in db {
          var p :| p in front && p.id == last.id;
        }
      }
    }
  }

  lemma LengthOfLocator(inventorySha: string, path: string)
    requires IsSha256(inventorySha)
    ensures Length(Locator(inventorySha, path)) == 82 + Length(path)
  {
    var prefix := "legacy-inventory:" + inventorySha + "/";
    assert '\0' !in prefix;
    LengthAfter(prefix, path);
  }

  lemma LengthOfSelector(indexSha: string, inventorySha: string)
    requires IsSha256(indexSha) && IsSha256(inventorySha)
    ensures Length(Selector(indexSha, inventorySha)) == 153
  {
    var selector := Selector(indexSha, inventorySha);
    assert '\0' !in selector;
    UpToNulIsWhole(selector);
  }

  lemma EntryRowChecks(env: Env, files: Files, indexSha: string, at: int, e: Entry)
    requires IsSha256(indexSha) && LoadVerifiedIndex(env, files, indexSha).Ok?
    requires e in LoadVerifiedIndex(env, files, indexSha).value.entries && e.disposition == Preserved
    ensures var inventorySha := LoadVerifiedIndex(env, files, indexSha).value.inventorySha;
            (forall p :: p in PairsOf(indexSha, inventorySha, at, e) ==> Checked(p.row)) <==>
                Length(e.source.path) <= MAX_LOCATOR - 82
  {
    var index := LoadVerifiedIndex(env, files, indexSha).value;
    var pairs := PairsOf(indexSha, index.inventorySha, at, e);
    NoFirstError(env, files, index.entries);
    var i :| 0 <= i < |index.entries| && index.entries[i] == e;
    assert EntryPasses(env, files, e);
    assert IsSha256(index.inventorySha);
    LengthOfLocator(index.inventorySha, e.source.path);
    LengthOfSelector(indexSha, index.inventorySha);
    assert pairs[1] in pairs;
  }

  /** Importing an index again changes nothing and succeeds again. */
  lemma ImportIsIdempotent(env: Env, db: Tables, files: Files, indexSha: string)
    requires Imported(env, db, files, indexSha).Ok?
    ensures Imported(env, Imported(env, db, files, indexSha).value, files, indexSha)
              == Imported(env, db, files, indexSha)
  {
    var index := LoadVerifiedIndex(env, files, indexSha).value;
    var at := env.parseManifest(VerifiedContent(env, files, index.inventorySha).value).value.generatedAt.instant;
    var pairs := AllPairs(indexSha, index.inventorySha, at, index.entries);
    var later := UpsertAll(db, pairs).value;
    UpsertAllIff(db, pairs);
    UpsertAllIff(later, pairs);
    assert Holding(db, pairs, UpsertAll(later, pairs).value);
    HoldingIsUnique(db, pairs, pairs, later, UpsertAll(later, pairs).value);
  }

  /** The rows depend on the set of preserved entries, not on their order or on the others. */
  lemma ImportIgnoresOrder(db: Tables, indexSha: string, inventorySha: string, at: int, entries: seq<Entry>,
                           others: seq<Entry>)
    requires forall e: Entry :: e.disposition == Preserved ==> (e in entries <==> e in others)
    ensures var a := UpsertAll(db, AllPairs(indexSha, inventorySha, at, entries));
            var b := UpsertAll(db, AllPairs(indexSha, inventorySha, at, others));
            (a.Ok? <==> b.Ok?) && (a.Ok? ==> a == b)
  {
    var p, q := AllPairs(indexSha, inventorySha, at, entries), AllPairs(indexSha, inventorySha, at, others);
    forall x: Pair
      ensures x in p <==> x in q
    {
      PairsComeFromPreserved(indexSha, inventorySha, at, entries, x);
      PairsComeFromPreserved(indexSha, inventorySha, at, others, x);
    }
    UpsertAllIff(db, p);
    UpsertAllIff(db, q);
    if UpsertAll(db, p).Ok? { HoldingIsUnique(db, p, q, UpsertAll(db, p).value, UpsertAll(db, q).value); }
  }

  // ---- What an import stores, and when it is refused ----

  /** The four rows of a preserved file: its bytes, where it was, when it was seen there, and the reference. */
  predicate HasRows(db: Tables, indexSha: string, inventorySha: string, at: int, e: Entry) {
    var sha, path := e.source.sha256, e.source.path;
    var artifact := ArtifactId(sha, e.artifactClass);
    && artifact in db && db[artifact] == ArtifactRow(sha, e.artifactClass, e.source.size)
    && SourceId(inventorySha, path) in db
    && db[SourceId(inventorySha, path)] == SourceRow("legacy-inventory:" + inventorySha + "/" + path)
    && SnapshotId(inventorySha, path) in db
    && db[SnapshotId(inventorySha, path)] == SnapshotRow(SourceId(inventorySha, path), at, artifact)
    && RefId(indexSha, inventorySha, path) in db
    && db[RefId(indexSha, inventorySha, path)]
       == RefRow(SnapshotId(inventorySha, path), artifact, "archive-index:" + indexSha + ";inventory:" + inventorySha)
  }

  /** The key is one of the four of this entry. */
  predicate IsKeyOf(id: Id, indexSha: string, inventorySha: string, e: Entry) {
    || id == ArtifactId(e.source.sha256, e.artifactClass) || id == SourceId(inventorySha, e.source.path)
    || id == SnapshotId(inventorySha, e.source.path) || id == RefId(indexSha, inventorySha, e.source.path)
  }

  lemma PairsAreRows(db: Tables, indexSha: string, inventorySha: string, at: int, e: Entry)
    ensures (forall p :: p in PairsOf(indexSha, inventorySha, at, e) ==> p.id in db && db[p.id] == p.row) <==>
              HasRows(db, indexSha, inventorySha, at, e)
    ensures forall p :: p in PairsOf(indexSha, inventorySha, at, e) ==> IsKeyOf(p.id, indexSha, inventorySha, e)
  {
    var pairs := PairsOf(indexSha, inventorySha, at, e);
    assert pairs[0] in pairs && pairs[1] in pairs && pairs[2] in pairs && pairs[3] in pairs;
  }

  lemma UpsertedPairsAreThere(db: Tables, pairs: seq<Pair>, later: Tables, some: seq<Pair>)
    requires UpsertAll(db, pairs) == Ok(later) && forall p :: p in some ==> p in pairs
    ensures forall p :: p in some ==> p.id in later && later[p.id] == p.row
    ensures forall id :: id in db ==> id in later && later[id] == db[id]
    ensures forall id :: id in later && id !in db ==> exists p :: p in pairs && p.id == id
  {
    UpsertAllIff(db, pairs);
  }

  lemma {:induction false} UpsertErrorIs(db: Tables, pairs: seq<Pair>)
    ensures UpsertAll(db, pairs).Err? ==> UpsertAll(db, pairs).error in {Conflict, CheckFailed}
    decreases |pairs|
  {
    if pairs != [] {
      UpsertErrorIs(db, pairs[..|pairs| - 1]);
      hide Checked;
    }
  }

  /** A verified index is refused for its time zone, then for tables that are not complete, and otherwise for
      a row that conflicts or fails a check. */
  lemma ImportErrorIs(env: Env, db: Tables, files: Files, indexSha: string)
    requires LoadVerifiedIndex(env, files, indexSha).Ok?
    ensures var index := LoadVerifiedIndex(env, files, indexSha).value;
            var inventory := VerifiedContent(env, files, index.inventorySha);
            && inventory.Ok? && env.parseManifest(inventory.value).Some?
            && var zoned := env.parseManifest(inventory.value).value.generatedAt.zoned;
               var outcome := Imported(env, db, files, indexSha);
               && (outcome == Err(NoTimeZone) <==> !zoned)
               && (outcome == Err(BrokenProvenance) <==> zoned && !ProvenanceComplete(db))
               && (outcome.Err? && zoned && ProvenanceComplete(db) ==> outcome.error in {Conflict, CheckFailed})
  {
    var index := LoadVerifiedIndex(env, files, indexSha).value;
    LoadsIff(env, files, indexSha, index);
    var at := env.parseManifest(VerifiedContent(env, files, index.inventorySha).value).value.generatedAt.instant;
    var pairs := AllPairs(indexSha, index.inventorySha, at, index.entries);
    UpsertErrorIs(db, pairs);
    hide LoadVerifiedIndex, VerifiedContent, AllPairs, UpsertAll, ProvenanceComplete, AllPass, EntryPasses;
    if ProvenanceComplete(db) && UpsertAll(db, pairs).Ok? {
      ImportKeepsProvenance(db, indexSha, index.inventorySha, at, index.entries, UpsertAll(db, pairs).value);
    }
  }

  /** What the tables held stays, each preserved entry has its four rows, and there is nothing else. */
  lemma ImportStores(env: Env, db: Tables, files: Files, indexSha: string, later: Tables)
    requires Imported(env, db, files, indexSha) == Ok(later)
    ensures LoadVerifiedIndex(env, files, indexSha).Ok?
    ensures var index := LoadVerifiedIndex(env, files, indexSha).value;
            var inventory := VerifiedContent(env, files, index.inventorySha);
            && inventory.Ok? && env.parseManifest(inventory.value).Some?
            && var seen := env.parseManifest(inventory.value).value.generatedAt;
               && seen.zoned
               && (forall id :: id in db ==> id in later && later[id] == db[id])
               && (forall e :: e in index.entries && e.disposition == Preserved ==>
                     HasRows(later, indexSha, index.inventorySha, seen.instant, e))
               && (forall id :: id in later && id !in db ==>
                     exists e :: && e in index.entries && e.disposition == Preserved
                                 && IsKeyOf(id, indexSha, index.inventorySha, e))
  {
    var index := LoadVerifiedIndex(env, files, indexSha).value;
    var at := env.parseManifest(VerifiedContent(env, files, index.inventorySha).value).value.generatedAt.instant;
    var pairs := AllPairs(indexSha, index.inventorySha, at, index.entries);
    hide LoadVerifiedIndex, VerifiedContent, HasRows, IsKeyOf, PairsOf, AllPairs, UpsertAll;
    forall e | e in index.entries && e.disposition == Preserved
      ensures HasRows(later, indexSha, index.inventorySha, at, e)
    {
      EntryPairsAreUpserted(db, later, indexSha, index.inventorySha, at, index.entries, e);
    }
    UpsertedPairsAreThere(db, pairs, later, []);
    forall id | id in later && id !in db
      ensures exists e :: e in index.entries && e.disposition == Preserved
                          && IsKeyOf(id, indexSha, index.inventorySha, e)
    {
      var p :| p in pairs && p.id == id;
      PairsComeFromPreserved(indexSha, index.inventorySha, at, index.entries, p);
      var e :| e in index.entries && e.disposition == Preserved && p in PairsOf(indexSha, index.inventorySha, at, e);
      PairsAreRows(later, indexSha, index.inventorySha, at, e);
    }
  }

  lemma EntryPairsAreUpserted(db: Tables, later: Tables, indexSha: string, inventorySha: string, at: int,
                              entries: seq<Entry>, e: Entry)
    requires UpsertAll(db, AllPairs(indexSha, inventorySha, at, entries)) == Ok(later)
    requires e in entries && e.disposition == Preserved
    ensures HasRows(later, indexSha, inventorySha, at, e)
  {
    hide UpsertAll, AllPairs, PairsOf, HasRows;
    var own := PairsOf(indexSha, inventorySha, at, e);
    forall p | p in own ensures p in AllPairs(indexSha, inventorySha, at, entries) {
      PairsComeFromPreserved(indexSha, inventorySha, at, entries, p);
    }
    UpsertedPairsAreThere(db, AllPairs(indexSha, inventorySha, at, entries), later, own);
    PairsAreRows(later, indexSha, inventorySha, at, e);
  }

  lemma PreservedEntryIsStored(env: Env, files: Files, indexSha: string, e: Entry)
    requires LoadVerifiedIndex(env, files, indexSha).Ok?
    requires e in LoadVerifiedIndex(env, files, indexSha).value.entries && e.disposition == Preserved
    ensures e.artifactClass != CredentialSession && Location(e.source.sha256) in files
    ensures env.hash(files[Location(e.source.sha256)]) == e.source.sha256
    ensures |files[Location(e.source.sha256)]| == e.source.size
  {
    LoadsIff(env, files, indexSha, LoadVerifiedIndex(env, files, indexSha).value);
    EntryPassesIff(env, files, e);
    hide LoadVerifiedIndex, EntryPasses, VerifiedContent, Location;
  }

  lemma RowOfArtifact(db: Tables, indexSha: string, inventorySha: string, at: int, e: Entry)
    requires HasRows(db, indexSha, inventorySha, at, e)
    ensures var id := ArtifactId(e.source.sha256, e.artifactClass);
            id in db && db[id] == ArtifactRow(e.source.sha256, e.artifactClass, e.source.size)
  {
  }

  lemma EntryOfArtifact(env: Env, db: Tables, files: Files, indexSha: string, later: Tables, id: Id) returns (e: Entry)
    requires Imported(env, db, files, indexSha) == Ok(later) && id in later && id !in db && id.ArtifactId?
    ensures LoadVerifiedIndex(env, files, indexSha).Ok?
    ensures e in LoadVerifiedIndex(env, files, indexSha).value.entries && e.disposition == Preserved
    ensures id == ArtifactId(e.source.sha256, e.artifactClass)
    ensures later[id] == ArtifactRow(e.source.sha256, e.artifactClass, e.source.size)
  {
    hide LoadVerifiedIndex, Imported, VerifiedContent, HasRows;
    ImportStores(env, db, files, indexSha, later);
    var index := LoadVerifiedIndex(env, files, indexSha).value;
    e :| e in index.entries && e.disposition == Preserved && IsKeyOf(id, indexSha, index.inventorySha, e);
    var at := env.parseManifest(VerifiedContent(env, files, index.inventorySha).value).value.generatedAt.instant;
    RowOfArtifact(later, indexSha, index.inventorySha, at, e);
  }

  /** An artifact row that an import adds describes stored bytes: their digest and their length. */
  lemma ImportedArtifactsAreStored(env: Env, db: Tables, files: Files, indexSha: string, later: Tables, id: Id)
    requires Imported(env, db, files, indexSha) == Ok(later) && id in later && id !in db && id.ArtifactId?
    ensures later[id].ArtifactRow? && later[id].sha256 == id.sha && later[id].artifactClass == id.artifactClass
    ensures id.artifactClass != CredentialSession
    ensures Location(id.sha) in files && env.hash(files[Location(id.sha)]) == id.sha
    ensures later[id].byteLength == |files[Location(id.sha)]|
  {
    hide LoadVerifiedIndex, Imported, VerifiedContent, Location;
    var e := EntryOfArtifact(env, db, files, indexSha, later, id);
    PreservedEntryIsStored(env, files, indexSha, e);
  }

  /** Every reference in the tables has its snapshot, of the artifact it names, and that its source. */
  lemma ImportedIsComplete(env: Env, db: Tables, files: Files, indexSha: string, later: Tables)
    requires Imported(env, db, files, indexSha) == Ok(later)
    ensures forall id :: id in later && id.RefId? && later[id].RefRow? ==>
              && later[id].snapshot in later && later[later[id].snapshot].SnapshotRow?
              && later[later[id].snapshot].artifact == later[id].refArtifact
              && later[later[id].snapshot].artifact in later && later[later[id].snapshot].source in later
  {
    hide UpsertAll, AllPairs, LoadVerifiedIndex, VerifiedContent;
  }

  /** The tables have no other row under the keys of the entry, and take its locator if it is new. */
  predicate Admits(db: Tables, indexSha: string, inventorySha: string, at: int, e: Entry) {
    && (forall p :: p in PairsOf(indexSha, inventorySha, at, e) && p.id in db ==> db[p.id] == p.row)
    && (SourceId(inventorySha, e.source.path) !in db ==> Length(e.source.path) <= 1966)
  }

  /** A verified index is imported into any tables if and only if its inventory names its time zone, the tables
      are complete, and they admit every preserved entry. */
  lemma ImportSucceedsIff(env: Env, db: Tables, files: Files, indexSha: string)
    requires IsSha256(indexSha) && LoadVerifiedIndex(env, files, indexSha).Ok?
    ensures var index := LoadVerifiedIndex(env, files, indexSha).value;
            var seen := env.parseManifest(VerifiedContent(env, files, index.inventorySha).value).value.generatedAt;
            Imported(env, db, files, indexSha).Ok? <==>
              && seen.zoned && ProvenanceComplete(db)
              && forall e :: e in index.entries && e.disposition == Preserved ==>
                   Admits(db, indexSha, index.inventorySha, seen.instant, e)
  {
    var index := LoadVerifiedIndex(env, files, indexSha).value;
    var at := env.parseManifest(VerifiedContent(env, files, index.inventorySha).value).value.generatedAt.instant;
    var pairs := AllPairs(indexSha, index.inventorySha, at, index.entries);
    VerifiedPairsAreFunctional(env, files, indexSha, at);
    UpsertAllIff(db, pairs);
    AdmittedIff(env, db, files, indexSha, at);
    if UpsertAll(db, pairs).Ok? && ProvenanceComplete(db) {
      ImportKeepsProvenance(db, indexSha, index.inventorySha, at, index.entries, UpsertAll(db, pairs).value);
    }
    hide LoadVerifiedIndex, UpsertAll, AllPairs, Admits, ProvenanceComplete, AllChecked, Compatible;
  }

  lemma AdmittedIff(env: Env, db: Tables, files: Files, indexSha: string, at: int)
    requires IsSha256(indexSha) && LoadVerifiedIndex(env, files, indexSha).Ok?
    ensures var index := LoadVerifiedIndex(env, files, indexSha).value;
            var pairs := AllPairs(indexSha, index.inventorySha, at, index.entries);
            Compatible(db, pairs) && AllChecked(db, pairs) <==>
              forall e :: e in index.entries && e.disposition == Preserved ==>
                Admits(db, indexSha, index.inventorySha, at, e)
  {
    var index := LoadVerifiedIndex(env, files, indexSha).value;
    var pairs := AllPairs(indexSha, index.inventorySha, at, index.entries);
    VerifiedPairsAreFunctional(env, files, indexSha, at);
    hide LoadVerifiedIndex, AllPairs, PairsOf, Checked, Length;
    forall e | e in index.entries && e.disposition == Preserved
      ensures forall p :: p in PairsOf(indexSha, index.inventorySha, at, e) ==> p in pairs
      ensures Admits(db, indexSha, index.inventorySha, at, e)
              <==> PairsAdmitted(db, indexSha, index.inventorySha, at, e)
    {
      forall p | p in PairsOf(indexSha, index.inventorySha, at, e) ensures p in pairs {
        PairsComeFromPreserved(indexSha, index.inventorySha, at, index.entries, p);
      }
      AdmitsIff(env, db, files, indexSha, at, e);
    }
    forall p | p in pairs
      ensures exists e :: && e in index.entries && e.disposition == Preserved
                          && p in PairsOf(indexSha, index.inventorySha, at, e)
    {
      PairsComeFromPreserved(indexSha, index.inventorySha, at, index.entries, p);
    }
    hide Admits;
  }

  predicate PairsAdmitted(db: Tables, indexSha: string, inventorySha: string, at: int, e: Entry) {
    forall p :: p in PairsOf(indexSha, inventorySha, at, e) ==> if p.id in db then db[p.id] == p.row else Checked(p.row)
  }

  /** Of the checks only the one on the locator can refuse a row of a verified entry. */
  lemma AdmitsIff(env: Env, db: Tables, files: Files, indexSha: string, at: int, e: Entry)
    requires IsSha256(indexSha) && LoadVerifiedIndex(env, files, indexSha).Ok?
    requires e in LoadVerifiedIndex(env, files, indexSha).value.entries && e.disposition == Preserved
    ensures var inventorySha := LoadVerifiedIndex(env, files, indexSha).value.inventorySha;
            Admits(db, indexSha, inventorySha, at, e) <==> PairsAdmitted(db, indexSha, inventorySha, at, e)
  {
    var index := LoadVerifiedIndex(env, files, indexSha).value;
    var pairs := PairsOf(indexSha, index.inventorySha, at, e);
    NoFirstError(env, files, index.entries);
    var i :| 0 <= i < |index.entries| && index.entries[i] == e;
    assert EntryPasses(env, files, e) && IsSha256(index.inventorySha);
    LengthOfLocator(index.inventorySha, e.source.path);
    LengthOfSelector(indexSha, index.inventorySha);
    hide LoadVerifiedIndex, Locator, Selector, Length, AllPass;
    assert pairs[0] in pairs && pairs[1] in pairs && pairs[2] in pairs && pairs[3] in pairs;
  }

  // ---- The import as it runs ----

  lemma {:induction false} UpsertAllAppend(db: Tables, a: seq<Pair>, b: seq<Pair>)
    ensures UpsertAll(db, a + b) == match UpsertAll(db, a)
                                    case Err(e) => Err(e)
                                    case Ok(between) => UpsertAll(between, b)
    decreases |b|
  {
    if b == [] {
      assert a + b == a;
    } else {
      assert (a + b)[..|a + b| - 1] == a + b[..|b| - 1];
      UpsertAllAppend(db, a, b[..|b| - 1]);
    }
  }

  lemma {:induction false} AllPairsSplit(indexSha: string, inventorySha: string, at: int, entries: seq<Entry>, i: nat)
      returns (rest: seq<Pair>)
    requires i <= |entries|
    ensures AllPairs(indexSha, inventorySha, at, entries) == AllPairs(indexSha, inventorySha, at, entries[..i]) + rest
    decreases |entries| - i
  {
    if i == |entries| {
      assert entries[..i] == entries;
      rest := [];
    } else {
      var tail := AllPairsSplit(indexSha, inventorySha, at, entries, i + 1);
      assert entries[..i + 1][..i] == entries[..i];
      rest := (if entries[i].disposition == Preserved then PairsOf(indexSha, inventorySha, at, entries[i]) else [])
          + tail;
    }
  }

  lemma AllPairsStep(indexSha: string, inventorySha: string, at: int, entries: seq<Entry>, i: nat)
    requires i < |entries|
    ensures AllPairs(indexSha, inventorySha, at, entries[..i + 1]) ==
              if entries[i].disposition == Preserved
              then AllPairs(indexSha, inventorySha, at, entries[..i]) + PairsOf(indexSha, inventorySha, at, entries[i])
              else AllPairs(indexSha, inventorySha, at, entries[..i])
  {
    assert entries[..i + 1][..i] == entries[..i];
  }

  class RehearsalDatabase {
    var tables: Tables

    constructor ()
      ensures tables == map[]
    {
      tables := map[];
    }

    /** One upsert per row in a transaction that an error rolls back. */
    method ImportArchive(env: Env, files: Files, indexSha: string) returns (r: Result<(), ImportError>)
      modifies this
      ensures match Imported(env, old(tables), files, indexSha)
              case Ok(later) => r == Ok(()) && tables == later
              case Err(e) => r == Err(e) && tables == old(tables)
    {
      var loaded := LoadVerifiedIndex(env, files, indexSha);
      if loaded.Err? { return Err(NotVerified(loaded.error)); }
      var index := loaded.value;
      var inventory := VerifiedContent(env, files, index.inventorySha);
      if inventory.Err? { return Err(NotVerified(inventory.error)); }
      var manifest := env.parseManifest(inventory.value);
      if manifest.None? { return Err(UnreadableInventory); }
      if !manifest.value.generatedAt.zoned { return Err(NoTimeZone); }
      if !ProvenanceComplete(tables) { return Err(BrokenProvenance); }
      var upserted := UpsertEntries(indexSha, index.inventorySha, manifest.value.generatedAt.instant, index.entries);
      if upserted.Err? { return Err(upserted.error); }
      if !ProvenanceComplete(upserted.value) { return Err(BrokenProvenance); }
      tables := upserted.value;
      r := Ok(());
    }

    method UpsertEntries(indexSha: string, inventorySha: string, at: int, entries: seq<Entry>)
      returns (r: Result<Tables, ImportError>)
      ensures r == UpsertAll(tables, AllPairs(indexSha, inventorySha, at, entries))
    {
      var pending := tables;
      for i := 0 to |entries|
        invariant UpsertAll(tables, AllPairs(indexSha, inventorySha, at, entries[..i])) == Ok(pending)
      {
        AllPairsStep(indexSha, inventorySha, at, entries, i);
        if entries[i].disposition == Preserved {
          var own := PairsOf(indexSha, inventorySha, at, entries[i]);
          UpsertAllAppend(tables, AllPairs(indexSha, inventorySha, at, entries[..i]), own);
          var outcome := UpsertAll(pending, own);
          if outcome.Err? {
            ghost var rest := AllPairsSplit(indexSha, inventorySha, at, entries, i + 1);
            UpsertAllAppend(tables, AllPairs(indexSha, inventorySha, at, entries[..i + 1]), rest);
            return outcome;
          }
          pending := outcome.value;
        }
      }
      assert entries[..|entries|] == entries;
      r := Ok(pending);
    }
  }
}
