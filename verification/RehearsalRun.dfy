/** The whole rehearsal: import, import again, rebuild, back up, restore and import once more. */
module RehearsalRun {
  import opened Archive
  import B = Backup
  import D = Disks
  import P = Paths
  import opened Rehearsal
  import R = Restoring
  import opened SourceReading
  import opened Wrappers

  /** A database file and the tables it holds; a store's location as text and as names. */
  datatype Storage = Storage(image: Tables -> Bytes, tablesOf: Bytes -> Tables, names: string -> P.Loc,
                             textOf: P.Loc -> string)

  ghost predicate ValidStorage(s: Storage, backup: B.Env) {
    forall t :: s.tablesOf(s.image(t)) == t && backup.integral(s.image(t))
  }

  /** The locations are written the way the store writes them. */
  predicate Spelled(s: Storage, files: Files) {
    forall path :: path in files ==> s.textOf(s.names(path)) == path
  }

  predicate SpelledBack(s: Storage, tree: D.Tree) {
    forall r :: r in tree ==> s.names(s.textOf(r)) == r
  }

  function TreeOf(s: Storage, files: Files): D.Tree
    requires Spelled(s, files)
  {
    map r | r in (set path | path in files :: s.names(path)) :: files[s.textOf(r)]
  }

  function FilesOf(s: Storage, tree: D.Tree): Files
    requires SpelledBack(s, tree)
  {
    map path | path in (set r | r in tree :: s.textOf(r)) :: tree[s.names(path)]
  }

  lemma TreeHoldsFiles(s: Storage, files: Files)
    requires Spelled(s, files)
    ensures SpelledBack(s, TreeOf(s, files)) && FilesOf(s, TreeOf(s, files)) == files
  {
    assert forall path :: path in files ==> s.names(path) in TreeOf(s, files);
  }

  /** Counts and digest of the rows are drawn from the tables themselves. */
  datatype Report = Report(indexSha: string, inventorySha: string, preserved: nat, deferred: nat, excluded: nat,
                           rows: Tables)

  function CountOf(entries: seq<Entry>, d: Disposition): nat {
    if entries == [] then 0
    else CountOf(entries[..|entries| - 1], d) + if entries[|entries| - 1].disposition == d then 1 else 0
  }

  function ReportOf(index: Index, indexSha: string, rows: Tables): Report {
    Report(indexSha, index.inventorySha, CountOf(index.entries, Preserved), CountOf(index.entries, Deferred),
           CountOf(index.entries, Excluded), rows)
  }

  function Positions(entries: seq<Entry>, d: Disposition): set<int> {
    set i | 0 <= i < |entries| && entries[i].disposition == d
  }

  lemma PositionsOfLonger(front: seq<Entry>, last: Entry, d: Disposition)
    ensures Positions(front + [last], d) == Positions(front, d) + if last.disposition == d then {|front|} else {}
  {
  }

  lemma {:induction false} CountOfIs(entries: seq<Entry>, d: Disposition)
    ensures CountOf(entries, d) == |Positions(entries, d)|
  {
    if entries != [] {
      var front, last := entries[..|entries| - 1], entries[|entries| - 1];
      CountOfIs(front, d);
      PositionsOfLonger(front, last, d);
      assert front + [last] == entries && |front| !in Positions(front, d);
      hide Positions;
    }
  }

  /** The report names index and inventory, holds the rows, and counts every entry once, under what became of it. */
  lemma {:induction false} ReportIs(index: Index, indexSha: string, rows: Tables)
    ensures var r := ReportOf(index, indexSha, rows);
            && r.indexSha == indexSha && r.inventorySha == index.inventorySha && r.rows == rows
            && r.preserved == |Positions(index.entries, Preserved)|
            && r.deferred == |Positions(index.entries, Deferred)|
            && r.excluded == |Positions(index.entries, Excluded)|
            && r.preserved + r.deferred + r.excluded == |index.entries|
    decreases |index.entries|
  {
    CountOfIs(index.entries, Preserved);
    CountOfIs(index.entries, Deferred);
    CountOfIs(index.entries, Excluded);
    hide Positions;
    if index.entries != [] {
      ReportIs(index.(entries := index.entries[..|index.entries| - 1]), indexSha, rows);
    }
  }

  datatype RunError =
    | RootExists | ImportFailed(error: ImportError) | NotIdempotent | NotDeterministic | RestoreFailed
    | RestoredRowsDiffer | RestoredProvenanceDiffers

  method Import(env: Env, db: RehearsalDatabase, files: Files, indexSha: string)
      returns (r: Result<Report, ImportError>)
    modifies db
    ensures match Imported(env, old(db.tables), files, indexSha)
            case Ok(later) =>
              && db.tables == later && LoadVerifiedIndex(env, files, indexSha).Ok?
              && r == Ok(ReportOf(LoadVerifiedIndex(env, files, indexSha).value, indexSha, later))
            case Err(e) => r == Err(e) && db.tables == old(db.tables)
  {
    var outcome := db.ImportArchive(env, files, indexSha);
    if outcome.Err? { return Err(outcome.error); }
    r := Ok(ReportOf(LoadVerifiedIndex(env, files, indexSha).value, indexSha, db.tables));
  }

  /** Where the run puts its backup and the restored copies, all below a root of its own. */
  function Places(root: P.Loc, temporary: string): B.Job {
    B.Job(root + ["backup"], B.Manifest(P.PlainPath([]), "", []), root + ["restored.rehearsal.db"],
          root + ["restored-artifacts"], temporary)
  }

  lemma PlacesAreSeparate(d: D.Disk, root: P.Loc, temporary: string)
    requires !D.Exists(d, root) && temporary != "backup"
    ensures R.Separate(d, root + ["backup"], Places(root, temporary)) && !D.Occupied(d, root + ["backup"])
  {
    var j := Places(root, temporary);
    assert P.ParentOf(j.artifacts) == root;
    R.NothingBelow(d, root);
    NothingUnder(d, root, "backup");
    NothingUnder(d, root, "restored.rehearsal.db");
    NothingUnder(d, root, "restored-artifacts");
    NothingUnder(d, root, temporary);
    NamesAreApart(root, "backup", "restored.rehearsal.db");
    NamesAreApart(root, "backup", "restored-artifacts");
    NamesAreApart(root, "restored.rehearsal.db", "restored-artifacts");
    NamesAreApart(root, temporary, "backup");
  }

  lemma NamesAreApart(root: P.Loc, a: string, b: string)
    requires a != b
    ensures R.Apart(root + [a], root + [b]) && R.Apart(root + [b], root + [a])
  {
    assert (root + [a])[|root|] != (root + [b])[|root|];
  }

  lemma NothingUnder(d: D.Disk, root: P.Loc, name: string)
    requires !D.Exists(d, root)
    ensures !D.Exists(d, root + [name]) && !D.Occupied(d, root + [name])
  {
    R.NothingBelow(d, root);
    assert root <= root + [name];
    assert forall x :: x in d.dirs ==> !(root <= x);
  }

  lemma StoreIsApart(files: D.Tree, store: P.Loc, root: P.Loc, at: P.Loc, image: Bytes)
    requires R.Apart(store, root) && root <= at
    ensures D.Below(files[at := image], store) == D.Below(files, store)
  {
    R.Comparable(store, root, at);
    assert forall r :: r in D.Below(files[at := image], store) <==> r in D.Below(files, store);
  }

  /** A first import, a second into the same database, and one into another. */
  method ImportAndRebuild(env: Env, files: Files, indexSha: string)
      returns (r: Result<Report, RunError>, first: RehearsalDatabase)
    ensures match Imported(env, map[], files, indexSha)
            case Ok(rows) =>
              && first.tables == rows && LoadVerifiedIndex(env, files, indexSha).Ok?
              && r == Ok(ReportOf(LoadVerifiedIndex(env, files, indexSha).value, indexSha, rows))
            case Err(e) => r == Err(ImportFailed(e))
  {
    first := new RehearsalDatabase();
    var outcome := Import(env, first, files, indexSha);
    if outcome.Err? { return Err(ImportFailed(outcome.error)), first; }
    ImportIsIdempotent(env, map[], files, indexSha);
    var again := Import(env, first, files, indexSha);
    if again != outcome { return Err(NotIdempotent), first; }
    var rebuilt := new RehearsalDatabase();
    again := Import(env, rebuilt, files, indexSha);
    if again != outcome { return Err(NotDeterministic), first; }
    r := Ok(outcome.value);
  }

  /** Backs up database and store, restores both, and reads back what was restored. */
  method BackUpAndRestore(backup: B.Env, storage: Storage, medium: B.Medium, v: B.Volume, store: P.Loc, root: P.Loc,
                          temporary: string, tables: Tables, ghost files: Files)
      returns (ok: bool, rows: Tables, copies: Files)
    requires ValidStorage(storage, backup) && B.Faultless(medium) && Spelled(storage, files)
    requires v.temporaryDatabase.None? && v.temporaryArtifacts.None? && temporary != "backup"
    requires D.Below(v.disk.files, store) == TreeOf(storage, files) && R.Apart(store, root) && !D.Exists(v.disk, root)
    modifies v
    ensures ok && rows == tables && copies == files
  {
    PlacesAreSeparate(v.disk, root, temporary);
    TreeHoldsFiles(storage, files);
    StoreIsApart(v.disk.files, store, root, root + ["backup"] + [B.DATABASE_FILENAME], storage.image(tables));
    hide D.Below, D.Exists, D.Occupied, R.Separate, TreeOf, FilesOf, SpelledBack, Places;
    var j := Places(root, temporary);
    ok := R.RoundTrip(backup, v, storage.image(tables), store, root + ["backup"], j, medium);
    rows := storage.tablesOf(v.disk.files[j.database]);
    copies := FilesOf(storage, D.Below(v.disk.files, j.artifacts));
  }

  /** Once the first import succeeds, none of the rehearsal's later checks can fail: not the second
      import, not the rebuild, not the restored rows, and not the import from the restored copies. */
  method RunRehearsal(env: Env, backup: B.Env, storage: Storage, medium: B.Medium, v: B.Volume, store: P.Loc,
                      root: P.Loc, temporary: string, files: Files, indexSha: string)
      returns (r: Result<Report, RunError>)
    requires ValidStorage(storage, backup) && B.Faultless(medium) && Spelled(storage, files)
    requires v.temporaryDatabase.None? && v.temporaryArtifacts.None? && temporary != "backup"
    requires D.Below(v.disk.files, store) == TreeOf(storage, files) && R.Apart(store, root)
    modifies v
    ensures D.Exists(old(v.disk), root) ==> r == Err(RootExists) && v.disk == old(v.disk)
    ensures !D.Exists(old(v.disk), root) ==>
              match Imported(env, map[], files, indexSha)
              case Ok(rows) => r == Ok(ReportOf(LoadVerifiedIndex(env, files, indexSha).value, indexSha, rows))
              case Err(e) => r == Err(ImportFailed(e))
  {
    hide D.Below, D.Exists, TreeOf, ReportOf;
    if D.Exists(v.disk, root) { return Err(RootExists); }
    var first;
    r, first := ImportAndRebuild(env, files, indexSha);
    if r.Err? { return; }
    var restored, rows, copies :=
      BackUpAndRestore(backup, storage, medium, v, store, root, temporary, first.tables, files);
    if !restored { return Err(RestoreFailed); }
    var copy := new RehearsalDatabase();
    copy.tables := rows;
    if copy.tables != first.tables { return Err(RestoredRowsDiffer); }
    ImportIsIdempotent(env, map[], files, indexSha);
    var again := Import(env, copy, copies, indexSha);
    if again.Err? || again.value != r.value { return Err(RestoredProvenanceDiffers); }
  }
}
