/** When a restore is all or nothing: exactly when the manifest's paths stay inside the directory
    they are joined to, and neither target lies in the other. */
module Restoring {
  import opened Backup
  import opened Disks
  import opened Paths
  import opened SourceReading
  import opened Wrappers

  predicate Apart(a: Loc, b: Loc) {
    !(a <= b) && !(b <= a)
  }

  /** The path lands strictly below any directory it is joined to, and never leaves it on the way. */
  predicate ConfinedPath(p: Path) {
    StaysInside(p) && Inner(p) != []
  }

  predicate Confined(j: Job) {
    && Apart(j.database, j.artifacts)
    && forall i :: 0 <= i < |j.manifest.artifactHashes| ==> ConfinedPath(PathOf(j, i))
  }

  /** Every source can be opened by its path as written; a path of names alone always can. */
  predicate Openable(j: Job, d: Disk) {
    forall i :: 0 <= i < |j.manifest.artifactHashes| ==>
      Walkable(Ready(j, d), StartOf(ArtifactDir(j.root), PathOf(j, i)), PathOf(j, i).parts)
  }

  /** The temporary directory is new, and no path mentions the name drawn for it. */
  predicate Fresh(j: Job, d: Disk) {
    && !Exists(d, TemporaryDir(j))
    && forall i :: 0 <= i < |j.manifest.artifactHashes| ==> Name(j.temporary) !in PathOf(j, i).parts
  }

  // ---- What all or nothing means ----

  ghost predicate Untouched(j: Job, d: Disk, later: Disk) {
    && later.files == d.files
    && (Exists(later, j.database) <==> Exists(d, j.database))
    && (Exists(later, j.artifacts) <==> Exists(d, j.artifacts))
  }

  ghost predicate OnlyTargetsAdded(j: Job, d: Disk, later: Disk) {
    && !Exists(d, j.database) && !Exists(d, j.artifacts) && j.database in later.files
    && (forall l :: l != j.database && !(j.artifacts <= l) ==> (l in later.files <==> l in d.files))
    && (forall l :: l in d.files ==> l in later.files && later.files[l] == d.files[l])
  }

  /** A restore that succeeds adds its two targets and changes no other file; one that fails
      changes no file at all, and neither target is there unless it was. */
  ghost predicate AllOrNothing(j: Job, d: Disk, o: Outcome) {
    && o.work.artifacts.None?
    && if o.ok then OnlyTargetsAdded(j, d, o.work.disk) else Untouched(j, d, o.work.disk)
  }

  function InnerAt(j: Job, i: nat): Loc
    requires i < |j.manifest.artifactHashes|
  {
    Inner(PathOf(j, i))
  }

  /** The tree holds the first n artifacts and nothing else, each with the manifest's digest. */
  ghost predicate TreeHolds(env: Env, j: Job, n: nat, tree: Tree)
    requires n <= |j.manifest.artifactHashes|
  {
    && (forall r :: r in tree ==> exists i :: 0 <= i < n && r == InnerAt(j, i))
    && (forall i :: 0 <= i < n ==>
          InnerAt(j, i) in tree && env.hash(tree[InnerAt(j, i)]) == j.manifest.artifactHashes[i].sha256)
  }

  ghost predicate RestoredFrom(env: Env, j: Job, later: Disk) {
    && j.database in later.files && env.hash(later.files[j.database]) == j.manifest.databaseSha
    && TreeHolds(env, j, |j.manifest.artifactHashes|, Below(later.files, j.artifacts))
  }

  // ---- Copies of confined paths ----

  lemma ConfinedCopy(env: Env, j: Job, i: nat, w: Work, m: Medium)
    requires i < |j.manifest.artifactHashes| && ConfinedPath(PathOf(j, i)) && w.artifacts.Some?
    ensures WithParents(j, w.disk, PathOf(j, i)) == w.disk && Copied(env, j, i, w, m).work.disk == w.disk
    ensures SourceOf(j, i) == ArtifactDir(j.root) + InnerAt(j, i)
    ensures var o := Copied(env, j, i, w, m);
            o.ok ==>
              && InnerAt(j, i) in o.work.artifacts.value
              && o.work.artifacts.value == w.artifacts.value[InnerAt(j, i) := o.work.artifacts.value[InnerAt(j, i)]]
              && env.hash(o.work.artifacts.value[InnerAt(j, i)]) == j.manifest.artifactHashes[i].sha256
    ensures TargetOf(j, i) == TemporaryDir(j) + InnerAt(j, i)
  {
    var p := PathOf(j, i);
    StayingLandsBelow(TemporaryDir(j), p);
    StayingLandsBelow(ArtifactDir(j.root), p);
    assert WithParents(j, w.disk, p) == w.disk;
    assert TargetOf(j, i)[|TemporaryDir(j)|..] == InnerAt(j, i);
  }

  lemma SamePlaceSameDigest(env: Env, j: Job, d: Disk, i: nat, k: nat)
    requires Verified(env, d, j.root, j.manifest) && i < |j.manifest.artifactHashes| && k < |j.manifest.artifactHashes|
    requires ConfinedPath(PathOf(j, i)) && ConfinedPath(PathOf(j, k)) && InnerAt(j, i) == InnerAt(j, k)
    ensures j.manifest.artifactHashes[i].sha256 == j.manifest.artifactHashes[k].sha256
  {
    StayingLandsBelow(ArtifactDir(j.root), PathOf(j, i));
    StayingLandsBelow(ArtifactDir(j.root), PathOf(j, k));
    assert ArtifactVerified(env, d, j.root, j.manifest.artifactHashes[i]);
    assert ArtifactVerified(env, d, j.root, j.manifest.artifactHashes[k]);
  }

  lemma TreeHoldsMore(env: Env, j: Job, d: Disk, n: nat, tree: Tree, content: Bytes)
    requires Verified(env, d, j.root, j.manifest) && n < |j.manifest.artifactHashes| && TreeHolds(env, j, n, tree)
    requires forall i :: 0 <= i < |j.manifest.artifactHashes| ==> ConfinedPath(PathOf(j, i))
    requires env.hash(content) == j.manifest.artifactHashes[n].sha256
    ensures TreeHolds(env, j, n + 1, tree[InnerAt(j, n) := content])
  {
    forall i | 0 <= i < n && InnerAt(j, i) == InnerAt(j, n)
      ensures j.manifest.artifactHashes[i].sha256 == j.manifest.artifactHashes[n].sha256
    {
      SamePlaceSameDigest(env, j, d, i, n);
    }
  }

  lemma {:induction false} ConfinedCopying(env: Env, j: Job, d: Disk, i: nat, w: Work, m: Medium)
    requires Verified(env, d, j.root, j.manifest) && i <= |j.manifest.artifactHashes| && w.artifacts.Some?
    requires forall k :: 0 <= k < |j.manifest.artifactHashes| ==> ConfinedPath(PathOf(j, k))
    requires TreeHolds(env, j, i, w.artifacts.value)
    ensures var o := CopiedFrom(env, j, i, w, m);
            && o.work.disk == w.disk
            && (o.ok ==> TreeHolds(env, j, |j.manifest.artifactHashes|, o.work.artifacts.value))
    decreases |j.manifest.artifactHashes| - i
  {
    if i < |j.manifest.artifactHashes| {
      ConfinedCopy(env, j, i, w, m);
      var o := Copied(env, j, i, w, m);
      if o.ok {
        TreeHoldsMore(env, j, d, i, w.artifacts.value, o.work.artifacts.value[InnerAt(j, i)]);
        ConfinedCopying(env, j, d, i + 1, o.work, m);
      }
    }
  }

  // ---- Confined restores ----

  lemma TryingConfined(env: Env, j: Job, d: Disk, m: Medium)
    requires Restorable(env, j, d) && Confined(j)
    ensures var a := Tried(env, j, Ready(j, d), m);
            && (!a.artifactsCommitted ==> !a.ok && a.work.disk == Ready(j, d))
            && (a.artifactsCommitted ==> exists tree ::
                  && TreeHolds(env, j, |j.manifest.artifactHashes|, tree)
                  && CommittedTo(env, j, Ready(j, d), a, tree))
  {
    var ready := Ready(j, d);
    var source := Landing(j.root, j.manifest.databaseFile);
    if source in ready.files && !m.fails(CopyDatabase) {
      var content := m.written(CopyDatabase, ready.files[source]);
      var w := Work(ready, Some(content), Some(map[]));
      ConfinedCopying(env, j, d, 0, w, m);
      var o := CopiedFrom(env, j, 0, w, m);
      hide CopiedFrom, TreeHolds, Verified;
      if env.hash(content) == j.manifest.databaseSha && o.ok && Committed(j, o.work, m).artifactsCommitted {
        assert CommittedTo(env, j, ready, Tried(env, j, ready, m), o.work.artifacts.value);
      }
    }
  }

  /** The disk after the artifacts were committed, and the database too if the attempt succeeded. */
  ghost predicate CommittedTo(env: Env, j: Job, ready: Disk, a: Attempt, tree: Tree) {
    var placed := Disk(ready.files + Placed(tree, j.artifacts), ready.dirs + {j.artifacts});
    if a.ok then
      j.database in a.work.disk.files && env.hash(a.work.disk.files[j.database]) == j.manifest.databaseSha
      && a.work.disk == placed.(files := placed.files[j.database := a.work.disk.files[j.database]])
    else
      a.work.disk == placed
  }

  lemma ReadyIsUntouched(j: Job, d: Disk)
    requires Apart(j.database, j.artifacts) && !Exists(d, j.database) && !Exists(d, j.artifacts)
    ensures Untouched(j, d, Prepared(d, j.database)) && Untouched(j, d, Ready(j, d))
  {
    AboveIsPrefix(j.database, j.artifacts);
    AboveIsPrefix(j.artifacts, j.database);
    AboveIsPrefix(j.database, j.database);
    AboveIsPrefix(j.artifacts, j.artifacts);
  }

  lemma NothingBelow(d: Disk, dir: Loc)
    requires !Exists(d, dir)
    ensures forall l :: l in d.files ==> !(dir <= l)
  {
    forall l | l in d.files
      ensures !(dir <= l)
    {
      assert !(dir < l) && l != dir;
    }
  }

  lemma RemovingIsUndoing(j: Job, d: Disk, tree: Tree)
    requires Apart(j.database, j.artifacts) && !Exists(d, j.database) && !Exists(d, j.artifacts)
    ensures var placed := Disk(Ready(j, d).files + Placed(tree, j.artifacts), Ready(j, d).dirs + {j.artifacts});
            Untouched(j, d, Removed(placed, j.artifacts))
  {
    var placed := Disk(Ready(j, d).files + Placed(tree, j.artifacts), Ready(j, d).dirs + {j.artifacts});
    PlacedMeans(tree, j.artifacts);
    NothingBelow(d, j.artifacts);
    ReadyIsUntouched(j, d);
    hide Placed;
    assert Removed(placed, j.artifacts).files == d.files;
  }

  /** A tree put where nothing was, beside one more file, is what is found there. */
  lemma BelowPlaced(files: Tree, tree: Tree, at: Loc, l: Loc, content: Bytes)
    requires (forall f :: f in files ==> !(at <= f)) && !(at <= l) && [] !in tree
    ensures Below((files + Placed(tree, at))[l := content], at) == tree
  {
    var later := (files + Placed(tree, at))[l := content];
    PlacedMeans(tree, at);
    hide Placed;
    forall r
      ensures r in Below(later, at) <==> r in tree
      ensures r in tree ==> later[at + r] == tree[r]
    {
      assert (at + r)[|at|..] == r && at <= at + r;
    }
  }

  lemma AddingTargets(j: Job, d: Disk, tree: Tree, content: Bytes, later: Disk)
    requires Apart(j.database, j.artifacts) && !Exists(d, j.database) && !Exists(d, j.artifacts)
    requires later.files == (d.files + Placed(tree, j.artifacts))[j.database := content]
    ensures OnlyTargetsAdded(j, d, later)
  {
    PlacedMeans(tree, j.artifacts);
    NothingBelow(d, j.artifacts);
    hide Placed;
  }

  lemma CommittingAddsTargets(env: Env, j: Job, d: Disk, a: Attempt, tree: Tree)
    requires Confined(j) && !Exists(d, j.database) && !Exists(d, j.artifacts) && a.ok
    requires TreeHolds(env, j, |j.manifest.artifactHashes|, tree) && CommittedTo(env, j, Ready(j, d), a, tree)
    ensures OnlyTargetsAdded(j, d, a.work.disk) && RestoredFrom(env, j, a.work.disk)
    ensures Below(a.work.disk.files, j.artifacts) == tree
  {
    var content := a.work.disk.files[j.database];
    assert a.work.disk.files == (d.files + Placed(tree, j.artifacts))[j.database := content];
    NothingBelow(d, j.artifacts);
    hide Placed, Below, Exists;
    BelowPlaced(d.files, tree, j.artifacts, j.database, content);
    AddingTargets(j, d, tree, content, a.work.disk);
  }

  lemma CleaningUpConfined(env: Env, j: Job, d: Disk, m: Medium)
    requires Restorable(env, j, d) && Confined(j)
    ensures var o := CleanedUp(j, Tried(env, j, Ready(j, d), m));
            AllOrNothing(j, d, o) && (o.ok ==> RestoredFrom(env, j, o.work.disk))
  {
    ReadyIsUntouched(j, d);
    TryingConfined(env, j, d, m);
    var a := Tried(env, j, Ready(j, d), m);
    hide Tried, Untouched, OnlyTargetsAdded, RestoredFrom, TreeHolds, Verified;
    if a.artifactsCommitted {
      var tree :| TreeHolds(env, j, |j.manifest.artifactHashes|, tree) && CommittedTo(env, j, Ready(j, d), a, tree);
      if a.ok {
        CommittingAddsTargets(env, j, d, a, tree);
      } else {
        RemovingIsUndoing(j, d, tree);
      }
    }
  }

  lemma NothingDoneIsUntouched(env: Env, j: Job, d: Disk)
    requires Confined(j)
    ensures Untouched(j, d, d)
    ensures Restorable(env, j, d) ==> Untouched(j, d, Prepared(d, j.database)) && Untouched(j, d, Ready(j, d))
  {
    if Restorable(env, j, d) { ReadyIsUntouched(j, d); }
  }

  /** All or nothing, wherever the medium fails; and what a success puts there has the manifest's
      digests. */
  lemma ConfinedIsAllOrNothing(env: Env, j: Job, d: Disk, m: Medium)
    requires Confined(j)
    ensures var o := Restored(env, j, d, m);
            AllOrNothing(j, d, o) && (o.ok ==> RestoredFrom(env, j, o.work.disk))
  {
    hide Tried, CleanedUp, RestoredFrom, Exists, Prepared, Ready, Restorable, OnlyTargetsAdded, Untouched, Confined;
    NothingDoneIsUntouched(env, j, d);
    if Restorable(env, j, d) { CleaningUpConfined(env, j, d, m); }
  }

  ghost predicate TellsContentsApart(env: Env) {
    forall x, y :: env.hash(x) == env.hash(y) ==> x == y
  }

  /** With a digest that tells contents apart, whatever the medium wrote, a restore that
      succeeds holds the very contents of the backup. */
  lemma RestoredContentsAreBackedUp(env: Env, j: Job, d: Disk, m: Medium)
    requires Confined(j)
    ensures var o, source := Restored(env, j, d, m), Landing(j.root, j.manifest.databaseFile);
            TellsContentsApart(env) && o.ok ==>
              && source in d.files && j.database in o.work.disk.files
              && o.work.disk.files[j.database] == d.files[source]
              && TreeIs(j, d, Below(o.work.disk.files, j.artifacts))
  {
    ConfinedIsAllOrNothing(env, j, d, m);
    var o := Restored(env, j, d, m);
    assert o.ok ==> Verified(env, d, j.root, j.manifest);
    hide Restored, Below, RestoredFrom, Verified;
    if o.ok { SameDigestsSameContents(env, j, d, o.work.disk); }
  }

  lemma SameDigestsSameContents(env: Env, j: Job, d: Disk, later: Disk)
    requires Confined(j) && Verified(env, d, j.root, j.manifest) && RestoredFrom(env, j, later)
    ensures Landing(j.root, j.manifest.databaseFile) in d.files && j.database in later.files
    ensures TellsContentsApart(env) ==>
              && later.files[j.database] == d.files[Landing(j.root, j.manifest.databaseFile)]
              && TreeIs(j, d, Below(later.files, j.artifacts))
  {
    var tree := Below(later.files, j.artifacts);
    hide Below;
    forall r | TellsContentsApart(env) && r in tree
      ensures ArtifactDir(j.root) + r in d.files && tree[r] == d.files[ArtifactDir(j.root) + r]
    {
      var i :| 0 <= i < |j.manifest.artifactHashes| && r == InnerAt(j, i);
      StayingLandsBelow(ArtifactDir(j.root), PathOf(j, i));
      assert ArtifactVerified(env, d, j.root, j.manifest.artifactHashes[i]);
    }
  }

  // ---- A medium without faults ----

  /** Every artifact of the tree is the one below the backup's artifact directory. */
  ghost predicate TreeIs(j: Job, d: Disk, tree: Tree) {
    forall r :: r in tree ==> ArtifactDir(j.root) + r in d.files && tree[r] == d.files[ArtifactDir(j.root) + r]
  }

  /** The medium does what it is asked for the copies before the n-th. */
  ghost predicate ExactBefore(m: Medium, n: nat) {
    forall k: nat :: k < n ==> !m.fails(CopyArtifact(k)) && forall b :: m.written(CopyArtifact(k), b) == b
  }

  predicate GoodPath(j: Job, d: Disk, i: nat)
    requires i < |j.manifest.artifactHashes|
  {
    && ConfinedPath(PathOf(j, i))
    && Walkable(Ready(j, d), StartOf(ArtifactDir(j.root), PathOf(j, i)), PathOf(j, i).parts)
  }

  lemma GoodPathIsCopied(env: Env, j: Job, d: Disk, i: nat, w: Work, m: Medium)
    requires Restorable(env, j, d) && !Exists(d, TemporaryDir(j)) && w.disk == Ready(j, d) && w.artifacts.Some?
    requires i < |j.manifest.artifactHashes| && GoodPath(j, d, i) && ExactBefore(m, i + 1)
    ensures ArtifactDir(j.root) + InnerAt(j, i) in d.files
    ensures var content := d.files[ArtifactDir(j.root) + InnerAt(j, i)];
            Copied(env, j, i, w, m)
            == Outcome(w.(artifacts := Some(w.artifacts.value[InnerAt(j, i) := content])), true)
  {
    var inner := InnerAt(j, i);
    ConfinedCopy(env, j, i, w, m);
    assert ArtifactVerified(env, d, j.root, j.manifest.artifactHashes[i]);
    assert ArtifactDir(j.root) < ArtifactDir(j.root) + inner;
    NothingBelow(d, TemporaryDir(j));
    assert TargetOf(j, i)[|TemporaryDir(j)|..] == inner;
    assert TemporaryDir(j) <= TargetOf(j, i);
  }

  lemma InnerOfGoodPath(j: Job, d: Disk, i: nat)
    requires i < |j.manifest.artifactHashes| && GoodPath(j, d, i)
    ensures InnerAt(j, i) != []
  {
  }

  lemma {:induction false} GoodPathsAreCopied(env: Env, j: Job, d: Disk, i: nat, n: nat, w: Work, m: Medium)
      returns (tree: Tree)
    requires Restorable(env, j, d) && !Exists(d, TemporaryDir(j)) && w.disk == Ready(j, d) && w.artifacts.Some?
    requires i <= n <= |j.manifest.artifactHashes| && ExactBefore(m, n)
    requires forall k :: i <= k < n ==> GoodPath(j, d, k)
    requires TreeIs(j, d, w.artifacts.value) && [] !in w.artifacts.value
    ensures TreeIs(j, d, tree) && [] !in tree && (i == n ==> tree == w.artifacts.value)
    ensures CopiedFrom(env, j, i, w, m) == CopiedFrom(env, j, n, w.(artifacts := Some(tree)), m)
    decreases n - i
  {
    hide Copied, Restorable, Exists, Ready, GoodPath, InnerAt;
    tree := w.artifacts.value;
    if i < n {
      GoodPathIsCopied(env, j, d, i, w, m);
      InnerOfGoodPath(j, d, i);
      var o := Copied(env, j, i, w, m);
      tree := GoodPathsAreCopied(env, j, d, i + 1, n, o.work, m);
    }
  }

  lemma TargetsAreFree(j: Job, d: Disk, tree: Tree)
    requires Apart(j.database, j.artifacts) && !Exists(d, j.database) && !Exists(d, j.artifacts)
    ensures var ready := Ready(j, d);
            && !ArtifactsRefused(j, ready)
            && !IsDir(Disk(ready.files + Placed(tree, j.artifacts), ready.dirs + {j.artifacts}), j.database)
  {
    var ready := Ready(j, d);
    ReadyIsUntouched(j, d);
    PlacedMeans(tree, j.artifacts);
    hide Placed;
    assert ParentOf(j.database) <= j.database;
    forall f | f in ready.files + Placed(tree, j.artifacts)
      ensures !(j.database < f)
    {
      if j.artifacts <= f { Comparable(j.database, j.artifacts, f); }
    }
  }

  lemma Comparable(a: Loc, b: Loc, l: Loc)
    requires b <= l && Apart(a, b)
    ensures !(a <= l)
  {
  }

  /** The medium does what it is asked for everything before the n-th artifact. */
  ghost predicate ExactUpTo(m: Medium, n: nat) {
    && !m.fails(PrepareDatabaseParent) && !m.fails(PrepareArtifactParent)
    && !m.fails(MakeTemporaryDatabase) && !m.fails(MakeTemporaryArtifacts)
    && !m.fails(CopyDatabase) && (forall b :: m.written(CopyDatabase, b) == b)
    && ExactBefore(m, n)
  }

  /** On such a medium a restore comes to its n-th artifact with a disk that only has new parents. */
  lemma ReachesArtifact(env: Env, j: Job, d: Disk, n: nat, m: Medium) returns (w: Work)
    requires Restorable(env, j, d) && !Exists(d, TemporaryDir(j)) && ExactUpTo(m, n)
    requires n <= |j.manifest.artifactHashes| && forall k :: 0 <= k < n ==> GoodPath(j, d, k)
    ensures Landing(j.root, j.manifest.databaseFile) in d.files && w.disk == Ready(j, d)
    ensures w.database == Some(d.files[Landing(j.root, j.manifest.databaseFile)]) && w.artifacts.Some?
    ensures TreeIs(j, d, w.artifacts.value) && [] !in w.artifacts.value && (n == 0 ==> w.artifacts == Some(map[]))
    ensures var o := CopiedFrom(env, j, n, w, m);
            Restored(env, j, d, m)
            == CleanedUp(j, if o.ok then Committed(j, o.work, m) else Attempt(o.work, false, false))
  {
    var content := d.files[Landing(j.root, j.manifest.databaseFile)];
    var begun := Work(Ready(j, d), Some(content), Some(map[]));
    var tree := GoodPathsAreCopied(env, j, d, 0, n, begun, m);
    w := begun.(artifacts := Some(tree));
    hide CopiedFrom, Committed, CleanedUp, Exists;
  }

  lemma FreeCommit(env: Env, j: Job, d: Disk, w: Work, m: Medium)
    requires Restorable(env, j, d) && Apart(j.database, j.artifacts) && w.disk == Ready(j, d)
    requires w.database.Some? && w.artifacts.Some? && [] !in w.artifacts.value
    requires !m.fails(CommitArtifacts) && !m.fails(CommitDatabase)
    ensures var a := Committed(j, w, m);
            && a.ok && a.artifactsCommitted && j.database in a.work.disk.files
            && a.work.disk.files[j.database] == w.database.value
            && Below(a.work.disk.files, j.artifacts) == w.artifacts.value
  {
    var tree := w.artifacts.value;
    TargetsAreFree(j, d, tree);
    NothingBelow(d, j.artifacts);
    BelowPlaced(d.files, tree, j.artifacts, j.database, w.database.value);
    hide Exists, Below, Placed, ArtifactsRefused, IsDir, Restorable;
  }

  /** On a medium without faults a confined restore whose sources can be opened succeeds, with the
      contents of the backup. */
  lemma FaultlessRestores(env: Env, j: Job, d: Disk, m: Medium)
    requires Restorable(env, j, d) && !Exists(d, TemporaryDir(j)) && Confined(j) && Openable(j, d) && Faultless(m)
    ensures var o, source := Restored(env, j, d, m), Landing(j.root, j.manifest.databaseFile);
            && o.ok && j.database in o.work.disk.files && source in d.files
            && o.work.disk.files[j.database] == d.files[source]
            && TreeIs(j, d, Below(o.work.disk.files, j.artifacts))
  {
    hide Restored, Restorable, Exists, Below, Placed, Committed, Ready;
    var w := ReachesArtifact(env, j, d, |j.manifest.artifactHashes|, m);
    FreeCommit(env, j, d, w, m);
  }

  // ---- Exactly when a restore succeeds ----

  /** No step of the medium fails. */
  ghost predicate NoStepFails(j: Job, m: Medium) {
    && !m.fails(PrepareDatabaseParent) && !m.fails(PrepareArtifactParent)
    && !m.fails(MakeTemporaryDatabase) && !m.fails(MakeTemporaryArtifacts)
    && !m.fails(CopyDatabase) && !m.fails(CommitArtifacts) && !m.fails(CommitDatabase)
    && forall i: nat :: i < |j.manifest.artifactHashes| ==> !m.fails(CopyArtifact(i))
  }

  /** What the database copy writes has the manifest's digest. */
  ghost predicate DatabaseIsCopied(env: Env, j: Job, d: Disk, m: Medium) {
    var source := Landing(j.root, j.manifest.databaseFile);
    source in d.files && env.hash(m.written(CopyDatabase, d.files[source])) == j.manifest.databaseSha
  }

  ghost predicate ArtifactIsCopied(env: Env, j: Job, d: Disk, i: nat, m: Medium)
    requires i < |j.manifest.artifactHashes|
  {
    var source := ArtifactDir(j.root) + InnerAt(j, i);
    source in d.files && env.hash(m.written(CopyArtifact(i), d.files[source])) == j.manifest.artifactHashes[i].sha256
  }

  lemma GoodCopySucceedsIff(env: Env, j: Job, d: Disk, i: nat, w: Work, m: Medium)
    requires Restorable(env, j, d) && !Exists(d, TemporaryDir(j)) && w.disk == Ready(j, d) && w.artifacts.Some?
    requires i < |j.manifest.artifactHashes| && GoodPath(j, d, i)
    ensures var o := Copied(env, j, i, w, m);
            && o.work.disk == Ready(j, d)
            && (o.ok <==> !m.fails(CopyArtifact(i)) && ArtifactIsCopied(env, j, d, i, m))
  {
    var inner := InnerAt(j, i);
    ConfinedCopy(env, j, i, w, m);
    assert ArtifactVerified(env, d, j.root, j.manifest.artifactHashes[i]);
    assert ArtifactDir(j.root) < ArtifactDir(j.root) + inner;
    NothingBelow(d, TemporaryDir(j));
    assert TargetOf(j, i)[|TemporaryDir(j)|..] == inner;
    assert TemporaryDir(j) <= TargetOf(j, i);
  }

  lemma {:induction false} GoodCopiesSucceedIff(env: Env, j: Job, d: Disk, i: nat, w: Work, m: Medium)
    requires Restorable(env, j, d) && !Exists(d, TemporaryDir(j)) && w.disk == Ready(j, d) && w.artifacts.Some?
    requires i <= |j.manifest.artifactHashes| && forall k :: 0 <= k < |j.manifest.artifactHashes| ==> GoodPath(j, d, k)
    ensures var o := CopiedFrom(env, j, i, w, m);
            && o.work.disk == Ready(j, d)
            && (o.ok <==> forall k :: i <= k < |j.manifest.artifactHashes| ==>
                            !m.fails(CopyArtifact(k)) && ArtifactIsCopied(env, j, d, k, m))
    decreases |j.manifest.artifactHashes| - i
  {
    hide Copied, Restorable, Exists, Ready, GoodPath, ArtifactIsCopied;
    if i < |j.manifest.artifactHashes| {
      GoodCopySucceedsIff(env, j, d, i, w, m);
      var o := Copied(env, j, i, w, m);
      if o.ok { GoodCopiesSucceedIff(env, j, d, i + 1, o.work, m); }
    }
  }

  lemma ConfinedPathsAreGood(j: Job, d: Disk)
    requires Confined(j) && Openable(j, d)
    ensures forall k :: 0 <= k < |j.manifest.artifactHashes| ==> GoodPath(j, d, k)
  {
  }

  /** A confined restore whose sources can be opened succeeds if and only if no step fails and every copy
      writes bytes of the manifest's digest. */
  lemma ConfinedSucceedsIff(env: Env, j: Job, d: Disk, m: Medium)
    requires Restorable(env, j, d) && !Exists(d, TemporaryDir(j)) && Confined(j) && Openable(j, d)
    ensures Restored(env, j, d, m).ok <==>
              && NoStepFails(j, m) && DatabaseIsCopied(env, j, d, m)
              && forall i :: 0 <= i < |j.manifest.artifactHashes| ==> ArtifactIsCopied(env, j, d, i, m)
  {
    ConfinedPathsAreGood(j, d);
    var source := Landing(j.root, j.manifest.databaseFile);
    assert source in d.files;
    var w := Work(Ready(j, d), Some(m.written(CopyDatabase, d.files[source])), Some(map[]));
    GoodCopiesSucceedIff(env, j, d, 0, w, m);
    var o := CopiedFrom(env, j, 0, w, m);
    TargetsAreFree(j, d, o.work.artifacts.value);
    hide CopiedFrom, Exists, Restorable, Placed, ArtifactsRefused, IsDir, ArtifactIsCopied, Confined, Openable;
  }

  // ---- What a success says, whatever the paths and the medium ----

  /** A copy that succeeds has opened its source and put it elsewhere than the source and the directory itself. */
  ghost predicate CopySucceeded(j: Job, i: nat, m: Medium)
    requires i < |j.manifest.artifactHashes|
  {
    !m.fails(CopyArtifact(i)) && SourceOf(j, i) != TargetOf(j, i) && TargetOf(j, i) != TemporaryDir(j)
  }

  lemma OkCopySucceeded(env: Env, j: Job, i: nat, w: Work, m: Medium)
    requires i < |j.manifest.artifactHashes| && w.artifacts.Some? && Copied(env, j, i, w, m).ok
    ensures CopySucceeded(j, i, m)
  {
    hide Put, WithParents, Walkable, SourceOf, TargetOf, TemporaryDir;
  }

  lemma {:induction false} CopiesSucceeded(env: Env, j: Job, i: nat, w: Work, m: Medium)
    requires i <= |j.manifest.artifactHashes| && w.artifacts.Some? && CopiedFrom(env, j, i, w, m).ok
    ensures forall k :: i <= k < |j.manifest.artifactHashes| ==> CopySucceeded(j, k, m)
    decreases |j.manifest.artifactHashes| - i
  {
    if i < |j.manifest.artifactHashes| {
      OkCopySucceeded(env, j, i, w, m);
      hide Copied, CopySucceeded;
      CopiesSucceeded(env, j, i + 1, Copied(env, j, i, w, m).work, m);
    }
  }

  /** A restore that succeeds had no failing step, no absolute path, and no database inside of the artifacts. */
  lemma SuccessMeansNoFault(env: Env, j: Job, d: Disk, m: Medium)
    requires Restored(env, j, d, m).ok
    ensures NoStepFails(j, m) && !(j.artifacts <= j.database)
    ensures forall i :: 0 <= i < |j.manifest.artifactHashes| ==> !PathOf(j, i).absolute
  {
    var ready, source := Ready(j, d), Landing(j.root, j.manifest.databaseFile);
    var w := Work(ready, Some(m.written(CopyDatabase, ready.files[source])), Some(map[]));
    if j.database == j.artifacts { SameTargetsNeverSucceed(env, j, d, m); }
    hide Restorable, CopiedFrom, Placed, Exists, IsDir, Occupied;
    CopiesSucceeded(env, j, 0, w, m);
    forall i | 0 <= i < |j.manifest.artifactHashes|
      ensures !PathOf(j, i).absolute && !m.fails(CopyArtifact(i))
    {
      assert CopySucceeded(j, i, m);
    }
  }

  /** A restore that succeeds found what it was to restore, digest by digest, and nothing at its targets. */
  lemma SuccessMeansVerified(env: Env, j: Job, d: Disk, m: Medium)
    requires Restored(env, j, d, m).ok
    ensures var source := Landing(j.root, j.manifest.databaseFile);
            && Walkable(d, StartOf(j.root, j.manifest.databaseFile), j.manifest.databaseFile.parts)
            && source in d.files && env.hash(d.files[source]) == j.manifest.databaseSha && env.integral(d.files[source])
    ensures forall i :: 0 <= i < |j.manifest.artifactHashes| ==>
              && ArtifactDir(j.root) <= SourceOf(j, i) && SourceOf(j, i) in d.files
              && env.hash(d.files[SourceOf(j, i)]) == j.manifest.artifactHashes[i].sha256
    ensures !Exists(d, j.database) && !Exists(d, j.artifacts)
  {
    assert Restorable(env, j, d);
    hide Restored, Walkable, Exists;
    forall i | 0 <= i < |j.manifest.artifactHashes|
      ensures ArtifactVerified(env, d, j.root, j.manifest.artifactHashes[i])
    {
      assert j.manifest.artifactHashes[i] in j.manifest.artifactHashes;
    }
  }

  // ---- When it is not ----

  function Perfect(): Medium {
    Medium(_ => false, (_, b) => b, _ => None)
  }

  /** Faultless but for one step; if that is a copy, it leaves the content it was given. */
  function BreakingAt(stage: Stage, content: Bytes): Medium {
    Medium(s => s == stage, (_, b) => b, _ => Some(content))
  }

  lemma SameTargetsNeverSucceed(env: Env, j: Job, d: Disk, m: Medium)
    requires j.database == j.artifacts
    ensures !Restored(env, j, d, m).ok
  {
    if Restorable(env, j, d) {
      hide CopiedFrom, Restorable, Exists, Placed;
      var a := Tried(env, j, Ready(j, d), m);
    }
  }

  /** Making the parents of one target makes the other, and a failure leaves it there. */
  lemma NestedTargetIsLeft(env: Env, j: Job, d: Disk)
    requires Restorable(env, j, d) && (j.database < j.artifacts || j.artifacts < j.database)
    ensures !AllOrNothing(j, d, Restored(env, j, d, BreakingAt(MakeTemporaryDatabase, [])))
  {
    AboveIsPrefix(j.artifacts, j.database);
    AboveIsPrefix(j.database, j.artifacts);
  }

  /** A path that leaves its directory: a copy that breaks there has changed a file elsewhere. */
  lemma StrayIsLeft(env: Env, j: Job, d: Disk, i: nat) returns (m: Medium)
    requires Restorable(env, j, d) && Fresh(j, d) && i < |j.manifest.artifactHashes|
    requires forall k :: 0 <= k < i ==> GoodPath(j, d, k)
    requires !StaysInside(PathOf(j, i)) && !CopyRefused(j, i, WithParents(j, Ready(j, d), PathOf(j, i)))
    ensures !AllOrNothing(j, d, Restored(env, j, d, m))
  {
    var at := TargetOf(j, i);
    LandsInsideIff(ParentOf(j.artifacts), j.temporary, PathOf(j, i));
    var content: Bytes := if at in d.files && d.files[at] == [] then [0] else [];
    m := BreakingAt(CopyArtifact(i), content);
    var w := ReachesArtifact(env, j, d, i, m);
    hide Restored, CopyRefused, Exists, Restorable;
    assert Copied(env, j, i, w, m)
             == Outcome(Put(j, w.(disk := WithParents(j, w.disk, PathOf(j, i))), at, content), false);
    assert Restored(env, j, d, m).work.disk.files == d.files[at := content];
  }

  lemma RefusedNeverSucceeds(env: Env, j: Job, d: Disk, i: nat)
    requires Restorable(env, j, d) && !Exists(d, TemporaryDir(j)) && i < |j.manifest.artifactHashes|
    requires forall k :: 0 <= k < i ==> GoodPath(j, d, k)
    requires CopyRefused(j, i, WithParents(j, Ready(j, d), PathOf(j, i)))
    ensures !Restored(env, j, d, Perfect()).ok
  {
    var w := ReachesArtifact(env, j, d, i, Perfect());
    hide Restored, CopyRefused, Exists, Restorable;
    assert !Copied(env, j, i, w, Perfect()).ok;
  }

  lemma BadPathIsStrayOrRefused(j: Job, d: Disk, i: nat)
    requires i < |j.manifest.artifactHashes| && !GoodPath(j, d, i)
    ensures !StaysInside(PathOf(j, i)) || CopyRefused(j, i, WithParents(j, Ready(j, d), PathOf(j, i)))
  {
    var p := PathOf(j, i);
    if StaysInside(p) {
      StayingLandsBelow(TemporaryDir(j), p);
      assert WithParents(j, Ready(j, d), p) == Ready(j, d);
      if Inner(p) == [] { assert TemporaryDir(j) + [] == TemporaryDir(j); }
    }
  }

  lemma GoodPathsMean(j: Job, d: Disk)
    requires forall k :: 0 <= k < |j.manifest.artifactHashes| ==> GoodPath(j, d, k)
    ensures forall i :: 0 <= i < |j.manifest.artifactHashes| ==> ConfinedPath(PathOf(j, i))
    ensures Openable(j, d) && (Apart(j.database, j.artifacts) ==> Confined(j))
  {
    forall i | 0 <= i < |j.manifest.artifactHashes|
      ensures ConfinedPath(PathOf(j, i))
      ensures Walkable(Ready(j, d), StartOf(ArtifactDir(j.root), PathOf(j, i)), PathOf(j, i).parts)
    {
      assert GoodPath(j, d, i);
    }
  }

  lemma FirstBadPath(j: Job, d: Disk, n: nat) returns (i: nat)
    requires n <= |j.manifest.artifactHashes| && exists k :: 0 <= k < n && !GoodPath(j, d, k)
    ensures i < n && !GoodPath(j, d, i) && forall k :: 0 <= k < i ==> GoodPath(j, d, k)
  {
    i := 0;
    while GoodPath(j, d, i)
      invariant i < n && forall k :: 0 <= k < i ==> GoodPath(j, d, k)
      invariant exists k :: i <= k < n && !GoodPath(j, d, k)
      decreases n - i
    {
      i := i + 1;
    }
  }

  lemma UnconfinedFails(env: Env, j: Job, d: Disk) returns (m: Medium)
    requires Restorable(env, j, d) && Fresh(j, d) && !(Confined(j) && Openable(j, d))
    ensures !AllOrNothing(j, d, Restored(env, j, d, m)) || (Faultless(m) && !Restored(env, j, d, m).ok)
  {
    hide Restored, AllOrNothing, Restorable, CopyRefused;
    if j.database == j.artifacts {
      m := Perfect();
      SameTargetsNeverSucceed(env, j, d, m);
    } else if !Apart(j.database, j.artifacts) {
      m := BreakingAt(MakeTemporaryDatabase, []);
      NestedTargetIsLeft(env, j, d);
    } else {
      if !(exists k :: 0 <= k < |j.manifest.artifactHashes| && !GoodPath(j, d, k)) { GoodPathsMean(j, d); }
      var i := FirstBadPath(j, d, |j.manifest.artifactHashes|);
      BadPathIsStrayOrRefused(j, d, i);
      if CopyRefused(j, i, WithParents(j, Ready(j, d), PathOf(j, i))) {
        m := Perfect();
        RefusedNeverSucceeds(env, j, d, i);
      } else {
        m := StrayIsLeft(env, j, d, i);
      }
    }
  }

  /** The exact condition. A verified backup restores all or nothing on every medium, and without
      faults restores, if and only if every manifest path stays inside and can be opened, and
      neither target lies in the other. */
  lemma RestoresSoundlyIffConfined(env: Env, j: Job, d: Disk)
    requires Restorable(env, j, d) && Fresh(j, d)
    ensures (forall m :: AllOrNothing(j, d, Restored(env, j, d, m)) && (Faultless(m) ==> Restored(env, j, d, m).ok))
            <==> Confined(j) && Openable(j, d)
  {
    hide Restored, AllOrNothing, Restorable;
    if Confined(j) && Openable(j, d) {
      forall m
        ensures AllOrNothing(j, d, Restored(env, j, d, m)) && (Faultless(m) ==> Restored(env, j, d, m).ok)
      {
        ConfinedIsAllOrNothing(env, j, d, m);
        if Faultless(m) { FaultlessRestores(env, j, d, m); }
      }
    } else {
      var m := UnconfinedFails(env, j, d);
    }
  }

  // ---- The temporary database ----

  /** The temporary database is made before anything cleans up after it. */
  predicate LeavesTemporary(m: Medium) {
    && !m.fails(PrepareDatabaseParent) && !m.fails(PrepareArtifactParent)
    && !m.fails(MakeTemporaryDatabase) && m.fails(MakeTemporaryArtifacts)
  }

  /** A temporary file is left if and only if making the second temporary is what failed, and there
      is a medium on which it is. */
  lemma TemporaryIsLeftIff(env: Env, j: Job, d: Disk, m: Medium)
    ensures Restored(env, j, d, m).work.database.Some? <==> Restorable(env, j, d) && LeavesTemporary(m)
    ensures Restorable(env, j, d) ==>
              Restored(env, j, d, BreakingAt(MakeTemporaryArtifacts, [])).work.database == Some([])
  {
    hide Restorable, Tried, Ready, Prepared;
  }

  // ---- A path that climbs ----

  const CLIMBING := Path(false, [Up, Name("artifacts"), Name("x")])

  /** A backup in "backup" whose one artifact is listed as "../artifacts/x". */
  function ClimbingDisk(image: Bytes, content: Bytes): Disk {
    Disk(map[["backup", DATABASE_FILENAME] := image, ["backup", ARTIFACT_DIRECTORY, "x"] := content], {})
  }

  function ClimbingJob(env: Env, image: Bytes, content: Bytes, target: string, temporary: string): Job {
    var listed := ArtifactHash(CLIMBING, env.hash(content));
    var manifest := Manifest(PlainPath([DATABASE_FILENAME]), env.hash(image), [listed]);
    Job(["backup"], manifest, ["restore", DATABASE_FILENAME], ["restore", target], temporary)
  }

  lemma ClimbingPathLands(dir: Loc, name: string)
    ensures Landing(dir + [name], CLIMBING) == dir + ["artifacts", "x"]
    ensures Trail(dir + [name], CLIMBING.parts) == {dir, dir + ["artifacts"]}
  {
    var parts := CLIMBING.parts;
    assert ParentOf(dir + [name]) == dir;
    assert parts[1..] == [Name("artifacts"), Name("x")] && parts[1..][1..] == [Name("x")] && parts[1..][1..][1..] == [];
    assert Walk(dir + [name], parts) == Walk(dir, parts[1..]) == Walk(dir + ["artifacts"], parts[1..][1..]);
    assert dir + ["artifacts"] + ["x"] == dir + ["artifacts", "x"];
    assert Trail(dir, parts[1..]) == {dir + ["artifacts"]} + Trail(dir + ["artifacts"], parts[1..][1..]);
  }

  lemma NothingBelowRestore(image: Bytes, content: Bytes, l: Loc)
    requires l != [] && l[0] == "restore"
    ensures !Exists(ClimbingDisk(image, content), l)
  {
    assert forall f :: f in ClimbingDisk(image, content).files ==> f[0] == "backup";
    assert forall f: Loc :: l < f ==> f[0] == l[0];
  }

  lemma ClimbingBackupVerifies(env: Env, image: Bytes, content: Bytes, target: string, temporary: string)
    requires env.integral(image)
    ensures var d, j := ClimbingDisk(image, content), ClimbingJob(env, image, content, target, temporary);
            Restorable(env, j, d) && !Exists(d, TemporaryDir(j))
  {
    var d, j := ClimbingDisk(image, content), ClimbingJob(env, image, content, target, temporary);
    PlainLanding(j.root, [DATABASE_FILENAME]);
    PlainIsWalkable(d, j.root, [DATABASE_FILENAME]);
    assert j.root + [DATABASE_FILENAME] == ["backup", DATABASE_FILENAME];
    ClimbingPathLands(j.root, ARTIFACT_DIRECTORY);
    assert ArtifactDir(j.root) == ["backup", ARTIFACT_DIRECTORY];
    assert j.root + ["artifacts", "x"] == ["backup", ARTIFACT_DIRECTORY, "x"];
    NothingBelowRestore(image, content, j.database);
    NothingBelowRestore(image, content, j.artifacts);
    assert ParentOf(j.artifacts) == ["restore"];
    NothingBelowRestore(image, content, TemporaryDir(j));
    hide Exists;
  }

  lemma ClimbingPathIsCopiedOut(env: Env, image: Bytes, content: Bytes, target: string, temporary: string)
      returns (w: Work)
    requires env.integral(image) && temporary != "artifacts"
    ensures var d, j := ClimbingDisk(image, content), ClimbingJob(env, image, content, target, temporary);
            && w.disk.files == d.files[["restore", "artifacts", "x"] := content]
            && w.disk.dirs == Ready(j, d).dirs + {["restore"], ["restore", "artifacts"]}
            && w.database == Some(image) && w.artifacts == Some(map[])
            && Restored(env, j, d, Perfect()) == CleanedUp(j, Committed(j, w, Perfect()))
  {
    var d, j := ClimbingDisk(image, content), ClimbingJob(env, image, content, target, temporary);
    ClimbingBackupVerifies(env, image, content, target, temporary);
    var begun := ReachesArtifact(env, j, d, 0, Perfect());
    PlainLanding(j.root, [DATABASE_FILENAME]);
    assert j.root + [DATABASE_FILENAME] == ["backup", DATABASE_FILENAME];
    hide Restored, Restorable, Exists, Committed, CleanedUp;
    ClimbingCopy(env, image, content, target, temporary, begun);
    w := Copied(env, j, 0, begun, Perfect()).work;
  }

  lemma ClimbingCopy(env: Env, image: Bytes, content: Bytes, target: string, temporary: string, begun: Work)
    requires temporary != "artifacts"
    requires var d, j := ClimbingDisk(image, content), ClimbingJob(env, image, content, target, temporary);
             begun.disk == Ready(j, d) && begun.artifacts == Some(map[])
    ensures var j := ClimbingJob(env, image, content, target, temporary);
            var o := Copied(env, j, 0, begun, Perfect());
            && o.ok && o.work.artifacts == Some(map[])
            && o.work.disk.files == begun.disk.files[["restore", "artifacts", "x"] := content]
            && o.work.disk.dirs == begun.disk.dirs + {["restore"], ["restore", "artifacts"]}
  {
    var j := ClimbingJob(env, image, content, target, temporary);
    var d := WithParents(j, begun.disk, CLIMBING);
    var base := TemporaryDir(j);
    assert ParentOf(j.artifacts) == ["restore"] && base == ["restore", temporary];
    ClimbingPathLands(["restore"], temporary);
    ClimbingPathLands(["backup"], ARTIFACT_DIRECTORY);
    assert ["restore"] + ["artifacts", "x"] == ["restore", "artifacts", "x"];
    assert ["backup"] + ["artifacts", "x"] == ["backup", "artifacts", "x"];
    assert ["restore"] + ["artifacts"] == ["restore", "artifacts"];
    assert ["backup"] + [ARTIFACT_DIRECTORY] < ["backup", ARTIFACT_DIRECTORY, "x"];
    assert ["backup", ARTIFACT_DIRECTORY, "x"] in d.files;
    assert base[1] != "artifacts";
    ClimbingIsWalkable(d, ["backup"], ARTIFACT_DIRECTORY);
    hide IsDir, Walkable, Walk, Trail;
  }

  lemma ClimbingIsWalkable(d: Disk, dir: Loc, name: string)
    requires IsDir(d, dir + [name])
    ensures Walkable(d, dir + [name], CLIMBING.parts)
  {
    var parts := CLIMBING.parts;
    assert parts[1..] == [Name("artifacts"), Name("x")] && parts[1..][1..] == [Name("x")] && parts[1..][1..][1..] == [];
  }

  /** A verified backup whose path "../artifacts/x" makes the restore fail on a medium without faults
      and leave its target behind: the copy lands in the target, which then cannot be renamed onto. */
  lemma ClimbingPathLeavesTarget(env: Env, image: Bytes, content: Bytes, temporary: string)
    requires env.integral(image) && temporary != "artifacts"
    ensures var d, j := ClimbingDisk(image, content), ClimbingJob(env, image, content, "artifacts", temporary);
            var o := Restored(env, j, d, Perfect());
            && Restorable(env, j, d) && !o.ok && Exists(o.work.disk, j.artifacts)
            && o.work.disk.files == d.files[["restore", "artifacts", "x"] := content]
  {
    var j := ClimbingJob(env, image, content, "artifacts", temporary);
    ClimbingBackupVerifies(env, image, content, "artifacts", temporary);
    var w := ClimbingPathIsCopiedOut(env, image, content, "artifacts", temporary);
    assert ["restore", "artifacts", "x"] in w.disk.files && j.artifacts < ["restore", "artifacts", "x"];
    hide Restored, Restorable;
  }

  /** The same backup restored elsewhere succeeds without its artifact, which is put beside the target. */
  lemma ClimbingPathIsRestoredElsewhere(env: Env, image: Bytes, content: Bytes, target: string, temporary: string)
    requires env.integral(image) && temporary != "artifacts"
    requires target != "artifacts" && target != DATABASE_FILENAME
    ensures var d, j := ClimbingDisk(image, content), ClimbingJob(env, image, content, target, temporary);
            var o := Restored(env, j, d, Perfect());
            && Restorable(env, j, d) && o.ok && Below(o.work.disk.files, j.artifacts) == map[]
            && o.work.disk.files == d.files[["restore", "artifacts", "x"] := content][j.database := image]
  {
    var d, j := ClimbingDisk(image, content), ClimbingJob(env, image, content, target, temporary);
    ClimbingBackupVerifies(env, image, content, target, temporary);
    var w := ClimbingPathIsCopiedOut(env, image, content, target, temporary);
    hide Restored, Restorable, Exists, IsDir, ArtifactsRefused, Below, Ready, TemporaryDir;
    TargetsOfClimbingAreFree(env, image, content, target, temporary, w.disk);
    hide ClimbingDisk, ClimbingJob;
    CommittingNothing(j, w, image);
  }

  lemma CommittingNothing(j: Job, w: Work, image: Bytes)
    requires w.database == Some(image) && w.artifacts == Some(map[])
    requires !ArtifactsRefused(j, w.disk) && !IsDir(Disk(w.disk.files, w.disk.dirs + {j.artifacts}), j.database)
    ensures var a := Committed(j, w, Perfect());
            a.ok && a.artifactsCommitted && a.work.disk.files == w.disk.files[j.database := image]
  {
    assert Placed(map[], j.artifacts) == map[];
    assert w.disk.files + map[] == w.disk.files;
    hide ArtifactsRefused, IsDir;
  }

  lemma TargetsOfClimbingAreFree(env: Env, image: Bytes, content: Bytes, target: string, temporary: string, d: Disk)
    requires target != "artifacts" && target != DATABASE_FILENAME
    requires var before, j := ClimbingDisk(image, content), ClimbingJob(env, image, content, target, temporary);
             && d.files == before.files[["restore", "artifacts", "x"] := content]
             && d.dirs == Ready(j, before).dirs + {["restore"], ["restore", "artifacts"]}
    ensures var j := ClimbingJob(env, image, content, target, temporary);
            && !ArtifactsRefused(j, d) && !IsDir(Disk(d.files, d.dirs + {j.artifacts}), j.database)
            && Below(d.files[j.database := image], j.artifacts) == map[]
  {
    var j := ClimbingJob(env, image, content, target, temporary);
    var later := d.files[j.database := image];
    assert ParentOf(j.database) == ["restore"];
    assert j.artifacts[1] == target && j.database[1] == DATABASE_FILENAME;
    forall l | l in later
      ensures !(j.artifacts < l) && (l in d.files ==> !(j.database < l) && l != j.artifacts)
    {
      assert |l| >= 2 && (l[0] == "backup" || l[1] == "artifacts" || l == j.database);
    }
    forall x | x in d.dirs
      ensures !(j.artifacts <= x) && !(j.database <= x)
    {
      assert x == [] || x == ["restore"] || x == ["restore", "artifacts"];
    }
    hide Ready;
  }

  // ---- Backups that were created here ----

  /** A manifest that lists files below a directory has confined paths only, and they can be opened
      whatever the disk. */
  lemma ListedPathsAreGood(env: Env, j: Job, d: Disk, sources: Tree)
    requires Lists(env, sources, j.manifest.artifactHashes) && [] !in sources
    ensures forall i :: 0 <= i < |j.manifest.artifactHashes| ==> GoodPath(j, d, i) && InnerAt(j, i) in sources
    ensures forall r :: r in sources ==> exists i :: 0 <= i < |j.manifest.artifactHashes| && r == InnerAt(j, i)
  {
    forall i | 0 <= i < |j.manifest.artifactHashes|
      ensures GoodPath(j, d, i) && InnerAt(j, i) in sources
    {
      assert j.manifest.artifactHashes[i] in j.manifest.artifactHashes;
      var r :| r in sources && j.manifest.artifactHashes[i] == HashOf(env, sources, r);
      PlainLanding([], r);
      PlainIsWalkable(Ready(j, d), ArtifactDir(j.root), r);
    }
    forall r | r in sources
      ensures exists i :: 0 <= i < |j.manifest.artifactHashes| && r == InnerAt(j, i)
    {
      var i :| 0 <= i < |j.manifest.artifactHashes| && j.manifest.artifactHashes[i] == HashOf(env, sources, r);
      PlainLanding([], r);
      assert r == InnerAt(j, i);
    }
  }

  /** So every backup that was created, restored to targets that lie apart, is restored soundly. */
  lemma CreatedBackupsAreConfined(env: Env, before: Disk, image: Bytes, sources: Tree, destination: Loc, after: Disk,
                                  j: Job)
    requires BackedUp(env, before, image, sources, destination, after, j.manifest) && [] !in sources
    ensures forall i :: 0 <= i < |j.manifest.artifactHashes| ==> ConfinedPath(PathOf(j, i))
    ensures Openable(j, after) && (Apart(j.database, j.artifacts) ==> Confined(j))
  {
    ListedPathsAreGood(env, j, after, sources);
    hide Walkable, BackedUp, ConfinedPath, GoodPath, Openable, Confined, InnerAt;
    GoodPathsMean(j, after);
  }

  /** What stands between a backup and a restore of it. */
  predicate Separate(d: Disk, destination: Loc, j: Job) {
    && j.root == destination && Apart(j.database, j.artifacts)
    && Apart(j.database, destination) && Apart(j.artifacts, destination) && Apart(TemporaryDir(j), destination)
    && !Exists(d, j.database) && !Exists(d, j.artifacts) && !Exists(d, TemporaryDir(j))
  }

  lemma BackupLeavesPlaceFree(before: Disk, destination: Loc, after: Disk, l: Loc)
    requires OnlyBelow(before, destination, after) && Apart(l, destination) && !Exists(before, l)
    ensures !Exists(after, l)
  {
    hide Above;
    NothingBelow(before, l);
    forall f | f in after.files
      ensures !(l <= f)
    {
      if destination <= f { Comparable(l, destination, f); }
    }
    forall x | x in after.dirs
      ensures !(l <= x)
    {
      AboveIsPrefix(destination, x);
    }
  }

  lemma CreatedBackupRestores(env: Env, before: Disk, image: Bytes, sources: Tree, destination: Loc, after: Disk,
                              j: Job, m: Medium)
    requires BackedUp(env, before, image, sources, destination, after, j.manifest) && [] !in sources
    requires Verified(env, after, destination, j.manifest) && Separate(before, destination, j)
    ensures var o := Restored(env, j, after, m);
            Faultless(m) ==>
              && o.ok && j.database in o.work.disk.files && o.work.disk.files[j.database] == image
              && Below(o.work.disk.files, j.artifacts) == sources
              && OnlyTargetsAdded(j, after, o.work.disk) && o.work.database.None? && o.work.artifacts.None?
  {
    BackupLeavesPlaceFree(before, destination, after, j.database);
    BackupLeavesPlaceFree(before, destination, after, j.artifacts);
    BackupLeavesPlaceFree(before, destination, after, TemporaryDir(j));
    CreatedBackupsAreConfined(env, before, image, sources, destination, after, j);
    if Faultless(m) { FaultlessRestores(env, j, after, m); }
    ConfinedIsAllOrNothing(env, j, after, m);
    TemporaryIsLeftIff(env, j, after, m);
    PlainLanding(destination, [DATABASE_FILENAME]);
    hide Restored, Restorable, Exists, OnlyTargetsAdded, Separate, OnlyBelow;
    var later := Restored(env, j, after, m).work.disk;
    if Faultless(m) { SameArtifacts(env, j, after, sources, later); }
  }

  lemma SameArtifacts(env: Env, j: Job, after: Disk, sources: Tree, later: Disk)
    requires Lists(env, sources, j.manifest.artifactHashes) && [] !in sources
    requires forall r :: r in sources ==>
               ArtifactDir(j.root) + r in after.files && after.files[ArtifactDir(j.root) + r] == sources[r]
    requires RestoredFrom(env, j, later) && TreeIs(j, after, Below(later.files, j.artifacts))
    ensures Below(later.files, j.artifacts) == sources
  {
    hide Below, GoodPath, Lists, InnerAt;
    var tree := Below(later.files, j.artifacts);
    ListedPathsAreGood(env, j, after, sources);
    assert tree.Keys == sources.Keys;
    assert tree == sources;
  }

  /** Restoring what was just backed up gives back the database and the artifacts, and changes
      nothing else. */
  method RoundTrip(env: Env, v: Volume, image: Bytes, artifactRoot: Loc, destination: Loc, places: Job, m: Medium)
      returns (ok: bool)
    requires v.temporaryDatabase.None? && v.temporaryArtifacts.None?
    requires env.integral(image) && !Occupied(v.disk, destination)
    requires Separate(v.disk, destination, places) && Faultless(m)
    modifies v
    ensures ok && v.temporaryDatabase.None? && v.temporaryArtifacts.None?
    ensures places.database in v.disk.files && v.disk.files[places.database] == image
    ensures Below(v.disk.files, places.artifacts)
            == Below(Begun(old(v.disk), image, destination).files, artifactRoot)
    ensures forall l ::
              l in old(v.disk).files && l != places.database && !(places.artifacts <= l) && !(destination <= l) ==>
              l in v.disk.files && v.disk.files[l] == old(v.disk).files[l]
  {
    hide HoldsBackup, Lists, Verified, Occupied, Restored, Below, Begun;
    var created := v.CreateBackup(env, image, artifactRoot, destination);
    var j := places.(manifest := created.value);
    ghost var sources := Below(Begun(old(v.disk), image, destination).files, artifactRoot);
    CreatedBackupRestores(env, old(v.disk), image, sources, destination, v.disk, j, m);
    ok := v.RestoreBackup(env, j, m);
  }
}
