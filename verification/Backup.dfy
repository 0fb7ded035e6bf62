/** Backing up a database with its artifacts, and restoring both.

    While a restore runs, its two temporaries are kept apart from the disk: they have fresh names
    beside the targets, and what a path reaches below the temporary directory is found by where
    the path lands. */
module Backup {
  import opened Disks
  import opened Paths
  import opened SourceReading
  import opened Wrappers

  const DATABASE_FILENAME := "career_harness.db"
  const ARTIFACT_DIRECTORY := "artifacts"

  datatype ArtifactHash = ArtifactHash(path: Path, sha256: string)

  /** The artifact hashes come in the order of the stored object. */
  datatype Manifest = Manifest(databaseFile: Path, databaseSha: string, artifactHashes: seq<ArtifactHash>)

  /** The digest, and SQLite's integrity check. */
  datatype Env = Env(hash: Bytes -> string, integral: Bytes -> bool)

  datatype BackupError = DestinationOccupied | VerificationFailed

  function ArtifactDir(root: Loc): Loc {
    root + [ARTIFACT_DIRECTORY]
  }

  // ---- Verifying ----

  predicate DatabaseVerified(env: Env, d: Disk, root: Loc, manifest: Manifest) {
    var at := Landing(root, manifest.databaseFile);
    && Walkable(d, StartOf(root, manifest.databaseFile), manifest.databaseFile.parts)
    && at in d.files && env.hash(d.files[at]) == manifest.databaseSha && env.integral(d.files[at])
  }

  predicate ArtifactVerified(env: Env, d: Disk, root: Loc, a: ArtifactHash) {
    var at := Landing(ArtifactDir(root), a.path);
    ArtifactDir(root) <= at && at in d.files && env.hash(d.files[at]) == a.sha256
  }

  predicate Verified(env: Env, d: Disk, root: Loc, manifest: Manifest) {
    && DatabaseVerified(env, d, root, manifest)
    && forall a :: a in manifest.artifactHashes ==> ArtifactVerified(env, d, root, a)
  }

  // ---- Creating ----

  /** The destination with the database in it, before any artifact is copied. */
  function Begun(d: Disk, image: Bytes, destination: Loc): Disk {
    Disk(d.files[destination + [DATABASE_FILENAME] := image], d.dirs + Above(destination) + {destination})
  }

  function HashOf(env: Env, tree: Tree, r: Loc): ArtifactHash
    requires r in tree
  {
    ArtifactHash(PlainPath(r), env.hash(tree[r]))
  }

  /** Each file of the tree is listed once, by its plain path and with its digest. */
  ghost predicate Lists(env: Env, tree: Tree, hashes: seq<ArtifactHash>) {
    && (forall a :: a in hashes ==> exists r :: r in tree && a == HashOf(env, tree, r))
    && (forall r :: r in tree ==> HashOf(env, tree, r) in hashes)
    && (forall i, j :: 0 <= i < j < |hashes| ==> hashes[i].path != hashes[j].path)
  }

  /** Outside of the destination nothing changes but that its parents are there. */
  ghost predicate OnlyBelow(before: Disk, destination: Loc, after: Disk) {
    && (forall f :: f in after.files && !(destination <= f) ==> f in before.files)
    && (forall f :: f in before.files && !(destination <= f) ==> f in after.files && after.files[f] == before.files[f])
    && after.dirs == before.dirs + Above(destination) + {destination}
  }

  /** Below the destination are the image, the artifacts, and nothing else. */
  ghost predicate HoldsBackup(image: Bytes, sources: Tree, destination: Loc, files: Tree) {
    var at, dir := destination + [DATABASE_FILENAME], ArtifactDir(destination);
    && at in files && files[at] == image
    && (forall r :: r in sources ==> dir + r in files && files[dir + r] == sources[r])
    && (forall f :: f in files && destination <= f ==> f == at || (dir <= f && f[|dir|..] in sources))
  }

  /** What a backup of an image and of the artifacts in `sources` leaves behind. */
  ghost predicate BackedUp(env: Env, before: Disk, image: Bytes, sources: Tree, destination: Loc, after: Disk,
                           manifest: Manifest)
  {
    && OnlyBelow(before, destination, after) && HoldsBackup(image, sources, destination, after.files)
    && manifest.databaseFile == PlainPath([DATABASE_FILENAME]) && manifest.databaseSha == env.hash(image)
    && Lists(env, sources, manifest.artifactHashes)
  }

  lemma PlainPathInjective(a: Loc, b: Loc)
    requires PlainPath(a) == PlainPath(b)
    ensures a == b
  {
    PlainLanding([], a);
    PlainLanding([], b);
  }

  lemma PlacedMore(files: Tree, tree: Tree, at: Loc, r: Loc, content: Bytes)
    requires r !in tree
    ensures (files + Placed(tree, at))[at + r := content] == files + Placed(tree[r := content], at)
  {
    PlacedMeans(tree, at);
    PlacedMeans(tree[r := content], at);
    hide Placed;
    assert (at + r)[|at|..] == r;
    var less, more := (files + Placed(tree, at))[at + r := content], files + Placed(tree[r := content], at);
    forall l
      ensures (l in less <==> l in more) && (l in less ==> less[l] == more[l])
    {
      if at <= l { assert at + l[|at|..] == l; }
    }
  }

  lemma NothingPlaced(env: Env, files: Tree, tree: Tree, at: Loc)
    ensures files + Placed(map[], at) == files && Lists(env, map[], []) && AllBut(tree, map[], tree.Keys)
  {
  }

  lemma ListsMore(env: Env, tree: Tree, hashes: seq<ArtifactHash>, r: Loc, content: Bytes)
    requires Lists(env, tree, hashes) && r !in tree
    ensures Lists(env, tree[r := content], hashes + [ArtifactHash(PlainPath(r), env.hash(content))])
  {
    var more, last := tree[r := content], ArtifactHash(PlainPath(r), env.hash(content));
    assert last == HashOf(env, more, r);
    forall a | a in hashes
      ensures exists x :: x in more && a == HashOf(env, more, x)
    {
      var x :| x in tree && a == HashOf(env, tree, x);
      assert a == HashOf(env, more, x);
    }
    forall x | x in more
      ensures HashOf(env, more, x) in hashes + [last]
    {
      if x != r { assert HashOf(env, tree, x) == HashOf(env, more, x); }
    }
    forall i | 0 <= i < |hashes|
      ensures hashes[i].path != last.path
    {
      assert hashes[i] in hashes;
      var x :| x in tree && hashes[i] == HashOf(env, tree, x);
      if hashes[i].path == last.path { PlainPathInjective(x, r); }
    }
  }

  /** Nothing that a backup copies was there before it began, so no source is overwritten. */
  lemma DestinationIsNew(d: Disk, image: Bytes, destination: Loc, l: Loc)
    requires !Occupied(d, destination) && l in Begun(d, image, destination).files
    ensures !(ArtifactDir(destination) <= l)
  {
    var dir, database := ArtifactDir(destination), destination + [DATABASE_FILENAME];
    assert dir[|destination|] != database[|destination|];
    assert dir <= l ==> destination < l;
  }

  ghost predicate AllBut(tree: Tree, copied: Tree, todo: set<Loc>) {
    && todo <= tree.Keys && copied.Keys == tree.Keys - todo
    && forall r :: r in copied ==> copied[r] == tree[r]
  }

  lemma AllButOneMore(tree: Tree, copied: Tree, todo: set<Loc>, r: Loc)
    requires AllBut(tree, copied, todo) && r in todo
    ensures r !in copied && AllBut(tree, copied[r := tree[r]], todo - {r})
  {
  }

  lemma AllButNone(tree: Tree, copied: Tree)
    requires AllBut(tree, copied, {})
    ensures copied == tree
  {
  }

  /** However many artifacts have been copied, the next source is as it was. */
  lemma SourceIsKept(d: Disk, image: Bytes, artifactRoot: Loc, destination: Loc, copied: Tree, r: Loc)
    requires !Occupied(d, destination) && r in Below(Begun(d, image, destination).files, artifactRoot)
    ensures var begun := Begun(d, image, destination).files;
            var now := begun + Placed(copied, ArtifactDir(destination));
            artifactRoot + r in now && now[artifactRoot + r] == Below(begun, artifactRoot)[r]
  {
    DestinationIsNew(d, image, destination, artifactRoot + r);
    PlacedMeans(copied, ArtifactDir(destination));
  }

  lemma FilesOutsideStay(files: Tree, at: Loc, image: Bytes, sources: Tree, dir: Loc, destination: Loc)
    requires destination <= at && destination <= dir
    ensures var later := files[at := image] + Placed(sources, dir);
            && (forall f :: f in later && !(destination <= f) ==> f in files)
            && (forall f :: f in files && !(destination <= f) ==> f in later && later[f] == files[f])
  {
    PlacedMeans(sources, dir);
    hide Placed;
  }

  lemma FilesBelowAreTheBackup(files: Tree, image: Bytes, sources: Tree, destination: Loc)
    requires forall f :: f in files ==> !(destination <= f)
    ensures HoldsBackup(image, sources, destination,
                        files[destination + [DATABASE_FILENAME] := image] + Placed(sources, ArtifactDir(destination)))
  {
    var at, dir := destination + [DATABASE_FILENAME], ArtifactDir(destination);
    PlacedMeans(sources, dir);
    hide Placed;
    assert dir[|destination|] != at[|destination|];
    forall r | r in sources
      ensures dir + r in Placed(sources, dir) && Placed(sources, dir)[dir + r] == sources[r]
    {
      assert (dir + r)[|dir|..] == r && dir <= dir + r;
    }
  }

  lemma CopiedIsBackedUp(before: Disk, image: Bytes, sources: Tree, destination: Loc)
    requires !Occupied(before, destination)
    ensures var begun := Begun(before, image, destination);
            var after := Disk(begun.files + Placed(sources, ArtifactDir(destination)), begun.dirs);
            OnlyBelow(before, destination, after) && HoldsBackup(image, sources, destination, after.files)
  {
    hide Placed, Above, HoldsBackup;
    forall f | f in before.files
      ensures !(destination <= f)
    {
      assert f != destination && !(destination < f);
    }
    FilesBelowAreTheBackup(before.files, image, sources, destination);
    FilesOutsideStay(before.files, destination + [DATABASE_FILENAME], image, sources, ArtifactDir(destination),
                     destination);
  }

  lemma BackupVerifies(env: Env, before: Disk, image: Bytes, sources: Tree, destination: Loc, after: Disk,
                       manifest: Manifest)
    requires BackedUp(env, before, image, sources, destination, after, manifest)
    ensures Verified(env, after, destination, manifest) <==> env.integral(image)
  {
    var dir := ArtifactDir(destination);
    PlainLanding(destination, [DATABASE_FILENAME]);
    PlainIsWalkable(after, destination, [DATABASE_FILENAME]);
    forall a | a in manifest.artifactHashes
      ensures ArtifactVerified(env, after, destination, a)
    {
      var r :| r in sources && a == HashOf(env, sources, r);
      PlainLanding(dir, r);
    }
  }

  // ---- Restoring, with a fault possible at every step ----

  datatype Stage =
    | PrepareDatabaseParent
    | PrepareArtifactParent
    | MakeTemporaryDatabase
    | MakeTemporaryArtifacts
    | CopyDatabase
    | CopyArtifact(index: nat)
    | CommitArtifacts
    | CommitDatabase

  /** Which steps raise, what a copy that succeeds really writes, and what a copy that raises
      leaves behind. */
  datatype Medium = Medium(fails: Stage -> bool, written: (Stage, Bytes) -> Bytes, left: Stage -> Option<Bytes>)

  ghost predicate Faultless(m: Medium) {
    (forall s :: !m.fails(s)) && (forall s, b :: m.written(s, b) == b)
  }

  /** What to restore and where to; `temporary` is the name drawn for the temporary directory. */
  datatype Job = Job(root: Loc, manifest: Manifest, database: Loc, artifacts: Loc, temporary: string)

  function TemporaryDir(j: Job): Loc {
    ParentOf(j.artifacts) + [j.temporary]
  }

  function PathOf(j: Job, i: nat): Path
    requires i < |j.manifest.artifactHashes|
  {
    j.manifest.artifactHashes[i].path
  }

  function SourceOf(j: Job, i: nat): Loc
    requires i < |j.manifest.artifactHashes|
  {
    Landing(ArtifactDir(j.root), PathOf(j, i))
  }

  function TargetOf(j: Job, i: nat): Loc
    requires i < |j.manifest.artifactHashes|
  {
    Landing(TemporaryDir(j), PathOf(j, i))
  }

  /** The disk, and the temporaries while they are there. */
  datatype Work = Work(disk: Disk, database: Option<Bytes>, artifacts: Option<Tree>)

  datatype Outcome = Outcome(work: Work, ok: bool)

  /** Making a directory's missing parents; those of the temporary directory itself are apart. */
  function WithParents(j: Job, d: Disk, p: Path): Disk {
    d.(dirs := d.dirs + set l | l in Trail(StartOf(TemporaryDir(j), p), p.parts) && !(TemporaryDir(j) <= l))
  }

  function Put(j: Job, w: Work, at: Loc, content: Bytes): Work
    requires w.artifacts.Some?
  {
    if TemporaryDir(j) <= at then
      w.(artifacts := Some(w.artifacts.value[at[|TemporaryDir(j)|..] := content]))
    else
      w.(disk := w.disk.(files := w.disk.files[at := content]))
  }

  /** Refused whatever the medium does: a source that cannot be opened, a file copied onto itself,
      and the temporary directory as target. */
  predicate CopyRefused(j: Job, i: nat, d: Disk)
    requires i < |j.manifest.artifactHashes|
  {
    || !Walkable(d, StartOf(ArtifactDir(j.root), PathOf(j, i)), PathOf(j, i).parts)
    || SourceOf(j, i) !in d.files || SourceOf(j, i) == TargetOf(j, i) || TargetOf(j, i) == TemporaryDir(j)
  }

  function Copied(env: Env, j: Job, i: nat, w: Work, m: Medium): (o: Outcome)
    requires i < |j.manifest.artifactHashes| && w.artifacts.Some?
    ensures o.work.artifacts.Some? && o.work.database == w.database
  {
    var ready := w.(disk := WithParents(j, w.disk, PathOf(j, i)));
    var stage := CopyArtifact(i);
    if CopyRefused(j, i, ready.disk) then Outcome(ready, false)
    else if m.fails(stage) then
      Outcome(if m.left(stage).Some? then Put(j, ready, TargetOf(j, i), m.left(stage).value) else ready, false)
    else
      var content := m.written(stage, ready.disk.files[SourceOf(j, i)]);
      Outcome(Put(j, ready, TargetOf(j, i), content), env.hash(content) == j.manifest.artifactHashes[i].sha256)
  }

  function CopiedFrom(env: Env, j: Job, i: nat, w: Work, m: Medium): (o: Outcome)
    requires i <= |j.manifest.artifactHashes| && w.artifacts.Some?
    ensures o.work.artifacts.Some? && o.work.database == w.database
    decreases |j.manifest.artifactHashes| - i
  {
    if i == |j.manifest.artifactHashes| then Outcome(w, true)
    else
      var o := Copied(env, j, i, w, m);
      if o.ok then CopiedFrom(env, j, i + 1, o.work, m) else o
  }

  /** Where the try block stopped, and whether the artifacts had been committed. */
  datatype Attempt = Attempt(work: Work, ok: bool, artifactsCommitted: bool)

  /** A directory is not renamed onto one that holds anything; the temporary database counts. */
  predicate ArtifactsRefused(j: Job, d: Disk) {
    Occupied(d, j.artifacts) || (j.artifacts <= ParentOf(j.database) && j.database != [])
  }

  function Committed(j: Job, w: Work, m: Medium): Attempt
    requires w.database.Some? && w.artifacts.Some?
  {
    if ArtifactsRefused(j, w.disk) || m.fails(CommitArtifacts) then Attempt(w, false, false)
    else
      var placed := Disk(w.disk.files + Placed(w.artifacts.value, j.artifacts), w.disk.dirs + {j.artifacts});
      if IsDir(placed, j.database) || m.fails(CommitDatabase) then
        Attempt(Work(placed, w.database, None), false, true)
      else
        Attempt(Work(placed.(files := placed.files[j.database := w.database.value]), None, None), true, true)
  }

  /** The try block. */
  function Tried(env: Env, j: Job, d: Disk, m: Medium): Attempt {
    var begun := Work(d, Some([]), Some(map[]));
    var source := Landing(j.root, j.manifest.databaseFile);
    if source !in d.files || m.fails(CopyDatabase) then Attempt(begun, false, false)
    else
      var content := m.written(CopyDatabase, d.files[source]);
      var w := begun.(database := Some(content));
      if env.hash(content) != j.manifest.databaseSha then Attempt(w, false, false)
      else
        var o := CopiedFrom(env, j, 0, w, m);
        if !o.ok then Attempt(o.work, false, false) else Committed(j, o.work, m)
  }

  /** The finally block. */
  function CleanedUp(j: Job, a: Attempt): Outcome {
    var d := if a.artifactsCommitted && !a.ok then Removed(a.work.disk, j.artifacts) else a.work.disk;
    Outcome(Work(d, None, None), a.ok)
  }

  predicate Restorable(env: Env, j: Job, d: Disk) {
    Verified(env, d, j.root, j.manifest) && !Exists(d, j.database) && !Exists(d, j.artifacts)
  }

  function Prepared(d: Disk, target: Loc): Disk {
    d.(dirs := d.dirs + Above(target))
  }

  /** With the parents of both targets made. */
  function Ready(j: Job, d: Disk): Disk {
    Prepared(Prepared(d, j.database), j.artifacts)
  }

  /** A whole restore. The temporary database is made before anything cleans up after it. */
  function Restored(env: Env, j: Job, d: Disk, m: Medium): Outcome {
    if !Restorable(env, j, d) || m.fails(PrepareDatabaseParent) then Outcome(Work(d, None, None), false)
    else
      var half := Prepared(d, j.database);
      if m.fails(PrepareArtifactParent) then Outcome(Work(half, None, None), false)
      else
        var ready := Ready(j, d);
        if m.fails(MakeTemporaryDatabase) then Outcome(Work(ready, None, None), false)
        else if m.fails(MakeTemporaryArtifacts) then Outcome(Work(ready, Some([]), None), false)
        else CleanedUp(j, Tried(env, j, ready, m))
  }

  // ---- The calls ----

  /** A disk, with the temporaries of the restore that is running. */
  class Volume {
    var disk: Disk
    var temporaryDatabase: Option<Bytes>
    var temporaryArtifacts: Option<Tree>

    function Contents(): Work
      reads this
    {
      Work(disk, temporaryDatabase, temporaryArtifacts)
    }

    constructor (disk: Disk)
      ensures Contents() == Work(disk, None, None)
    {
      this.disk, temporaryDatabase, temporaryArtifacts := disk, None, None;
    }

    /** The copy loop builds the manifest; verification is the last step. */
    method CreateBackup(env: Env, image: Bytes, artifactRoot: Loc, destination: Loc)
      returns (r: Result<Manifest, BackupError>)
      modifies this`disk
      ensures r.Ok? <==> !Occupied(old(disk), destination) && env.integral(image)
      ensures Occupied(old(disk), destination) ==> r == Err(DestinationOccupied) && disk == old(disk)
      ensures var sources := Below(Begun(old(disk), image, destination).files, artifactRoot);
              r.Ok? ==> BackedUp(env, old(disk), image, sources, destination, disk, r.value)
      ensures r.Ok? ==> Verified(env, disk, destination, r.value)
    {
      hide Placed, Below, Lists, Verified, OnlyBelow, HoldsBackup;
      if Occupied(disk, destination) { return Err(DestinationOccupied); }
      disk := Begun(disk, image, destination);
      ghost var sources := Below(disk.files, artifactRoot);
      var hashes := CopyArtifactFiles(env, image, artifactRoot, destination, old(disk));
      var manifest := Manifest(PlainPath([DATABASE_FILENAME]), env.hash(image), hashes);
      CopiedIsBackedUp(old(disk), image, sources, destination);
      BackupVerifies(env, old(disk), image, sources, destination, disk, manifest);
      r := if Verified(env, disk, destination, manifest) then Ok(manifest) else Err(VerificationFailed);
    }

    method CopyArtifactFiles(env: Env, image: Bytes, artifactRoot: Loc, destination: Loc, ghost before: Disk)
      returns (hashes: seq<ArtifactHash>)
      requires !Occupied(before, destination) && disk == Begun(before, image, destination)
      modifies this`disk
      ensures var sources := Below(old(disk).files, artifactRoot);
              && disk == Disk(old(disk).files + Placed(sources, ArtifactDir(destination)), old(disk).dirs)
              && Lists(env, sources, hashes)
    {
      hide *;
      ghost var begun, copied: Tree := disk, map[];
      var sources, dir := Below(disk.files, artifactRoot), ArtifactDir(destination);
      var todo := sources.Keys;
      hashes := [];
      NothingPlaced(env, disk.files, sources, dir);
      while todo != {}
        invariant AllBut(sources, copied, todo)
        invariant disk == Disk(begun.files + Placed(copied, dir), begun.dirs)
        invariant Lists(env, copied, hashes)
      {
        var r :| r in todo;
        AllButOneMore(sources, copied, todo, r);
        SourceIsKept(before, image, artifactRoot, destination, copied, r);
        var content := disk.files[artifactRoot + r];
        PlacedMore(begun.files, copied, dir, r, content);
        ListsMore(env, copied, hashes, r, content);
        disk := disk.(files := disk.files[dir + r := content]);
        hashes := hashes + [ArtifactHash(PlainPath(r), env.hash(disk.files[dir + r]))];
        copied := copied[r := content];
        todo := todo - {r};
      }
      AllButNone(sources, copied);
    }

    /** One turn of the copy loop. */
    method CopyOne(env: Env, j: Job, i: nat, m: Medium) returns (ok: bool)
      requires i < |j.manifest.artifactHashes| && temporaryArtifacts.Some?
      modifies this
      ensures Outcome(Contents(), ok) == Copied(env, j, i, old(Contents()), m)
    {
      var at, stage := TargetOf(j, i), CopyArtifact(i);
      disk := WithParents(j, disk, PathOf(j, i));
      if CopyRefused(j, i, disk) { return false; }
      if m.fails(stage) && m.left(stage).None? { return false; }
      var content := if m.fails(stage) then m.left(stage).value else m.written(stage, disk.files[SourceOf(j, i)]);
      if TemporaryDir(j) <= at {
        temporaryArtifacts := Some(temporaryArtifacts.value[at[|TemporaryDir(j)|..] := content]);
      } else {
        disk := disk.(files := disk.files[at := content]);
      }
      ok := !m.fails(stage) && env.hash(content) == j.manifest.artifactHashes[i].sha256;
    }

    method CopyArtifacts(env: Env, j: Job, m: Medium) returns (ok: bool)
      requires temporaryArtifacts.Some?
      modifies this
      ensures Outcome(Contents(), ok) == CopiedFrom(env, j, 0, old(Contents()), m)
    {
      for i := 0 to |j.manifest.artifactHashes|
        invariant temporaryArtifacts.Some?
        invariant CopiedFrom(env, j, i, Contents(), m) == CopiedFrom(env, j, 0, old(Contents()), m)
      {
        hide Copied;
        ok := CopyOne(env, j, i, m);
        if !ok { return; }
      }
      ok := true;
    }

    method Commit(j: Job, m: Medium) returns (ok: bool, artifactsCommitted: bool)
      requires temporaryDatabase.Some? && temporaryArtifacts.Some?
      modifies this
      ensures Attempt(Contents(), ok, artifactsCommitted) == Committed(j, old(Contents()), m)
    {
      ok, artifactsCommitted := false, false;
      if ArtifactsRefused(j, disk) || m.fails(CommitArtifacts) { return; }
      disk := Disk(disk.files + Placed(temporaryArtifacts.value, j.artifacts), disk.dirs + {j.artifacts});
      temporaryArtifacts, artifactsCommitted := None, true;
      if IsDir(disk, j.database) || m.fails(CommitDatabase) { return; }
      disk := disk.(files := disk.files[j.database := temporaryDatabase.value]);
      temporaryDatabase, ok := None, true;
    }

    /** Everything inside the try block. On failure it stops where it is. */
    method CopyAndCommit(env: Env, j: Job, m: Medium) returns (ok: bool, artifactsCommitted: bool)
      requires temporaryDatabase == Some([]) && temporaryArtifacts == Some(map[])
      modifies this
      ensures Attempt(Contents(), ok, artifactsCommitted) == Tried(env, j, old(disk), m)
    {
      hide Committed, CopiedFrom;
      ok, artifactsCommitted := false, false;
      var source := Landing(j.root, j.manifest.databaseFile);
      if source !in disk.files || m.fails(CopyDatabase) { return; }
      temporaryDatabase := Some(m.written(CopyDatabase, disk.files[source]));
      if env.hash(temporaryDatabase.value) != j.manifest.databaseSha { return; }
      ok := CopyArtifacts(env, j, m);
      if !ok { return; }
      ok, artifactsCommitted := Commit(j, m);
    }

    /** The finally block: committed artifacts are taken back when the database was not committed. */
    method CleanUp(j: Job, committed: bool, artifactsCommitted: bool)
      modifies this
      ensures Outcome(Contents(), committed) == CleanedUp(j, Attempt(old(Contents()), committed, artifactsCommitted))
    {
      temporaryDatabase, temporaryArtifacts := None, None;
      if artifactsCommitted && !committed { disk := Removed(disk, j.artifacts); }
    }

    method RestoreBackup(env: Env, j: Job, m: Medium) returns (ok: bool)
      requires temporaryDatabase.None? && temporaryArtifacts.None?
      modifies this
      ensures Outcome(Contents(), ok) == Restored(env, j, old(disk), m)
    {
      hide Tried, CleanedUp, Restorable;
      if !Restorable(env, j, disk) { return false; }
      if m.fails(PrepareDatabaseParent) { return false; }
      disk := Prepared(disk, j.database);
      if m.fails(PrepareArtifactParent) { return false; }
      disk := Prepared(disk, j.artifacts);
      if m.fails(MakeTemporaryDatabase) { return false; }
      temporaryDatabase := Some([]);
      if m.fails(MakeTemporaryArtifacts) { return false; }
      temporaryArtifacts := Some(map[]);
      var artifactsCommitted;
      ok, artifactsCommitted := CopyAndCommit(env, j, m);
      CleanUp(j, ok, artifactsCommitted);
    }
  }
}
