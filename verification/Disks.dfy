/** Files and directories by place. */
module Disks {
  import opened Paths
  import opened SourceReading

  type Tree = map<Loc, Bytes>

  /** `dirs` has at least the directories that hold nothing. */
  datatype Disk = Disk(files: Tree, dirs: set<Loc>)

  predicate IsDir(d: Disk, l: Loc) {
    (exists f :: f in d.files && l < f) || exists x :: x in d.dirs && l <= x
  }

  predicate Exists(d: Disk, l: Loc) {
    l in d.files || IsDir(d, l)
  }

  /** A directory that holds something, or no directory at all. */
  predicate Occupied(d: Disk, l: Loc) {
    l in d.files || (exists f :: f in d.files && l < f) || exists x :: x in d.dirs && l < x
  }

  /** Opening a path goes up only from directories. */
  predicate Walkable(d: Disk, from: Loc, parts: seq<Part>)
    decreases |parts|
  {
    parts == []
    || ((parts[0].Up? ==> IsDir(d, from)) && Walkable(d, Step(from, parts[0]), parts[1..]))
  }

  lemma {:induction false} PlainIsWalkable(d: Disk, from: Loc, l: Loc)
    ensures Walkable(d, from, PlainPath(l).parts)
    decreases |l|
  {
    if l != [] {
      assert PlainPath(l).parts[1..] == PlainPath(l[1..]).parts;
      PlainIsWalkable(d, from + [l[0]], l[1..]);
    }
  }

  /** A path can be opened if and only if each of its steps up is taken from a directory. */
  lemma {:induction false} WalkableIff(d: Disk, from: Loc, parts: seq<Part>)
    ensures Walkable(d, from, parts) <==>
              forall k :: 0 <= k < |parts| && parts[k].Up? ==> IsDir(d, Walk(from, parts[..k]))
    decreases |parts|
  {
    if parts != [] {
      var next, rest := Step(from, parts[0]), parts[1..];
      WalkableIff(d, next, rest);
      hide IsDir;
      forall k | 0 <= k < |rest| ensures Walk(next, rest[..k]) == Walk(from, parts[..k + 1]) {
        assert parts[..k + 1][1..] == rest[..k];
      }
      assert Walk(from, parts[..0]) == from;
      if forall k :: 0 <= k < |parts| && parts[k].Up? ==> IsDir(d, Walk(from, parts[..k])) {
        forall k | 0 <= k < |rest| && rest[k].Up? ensures IsDir(d, Walk(next, rest[..k])) {
          assert parts[k + 1].Up?;
        }
      }
      if (parts[0].Up? ==> IsDir(d, from)) && Walkable(d, next, rest) {
        forall k | 0 <= k < |parts| && parts[k].Up? ensures IsDir(d, Walk(from, parts[..k])) {
          if k > 0 { assert rest[k - 1].Up?; }
        }
      }
    }
  }

  /** Where nothing lies below a file, a file is no directory. */
  lemma FilesAreNoDirs(d: Disk, f: Loc)
    requires f in d.files && (forall g :: g in d.files ==> !(f < g)) && forall x :: x in d.dirs ==> !(f <= x)
    ensures Exists(d, f) && !IsDir(d, f)
  {
  }

  /** An empty directory may be there already. */
  lemma EmptyDirIsNotOccupied(d: Disk, l: Loc)
    ensures Occupied(d.(dirs := d.dirs + {l}), l) <==> Occupied(d, l)
    ensures Exists(d.(dirs := d.dirs + {l}), l)
  {
  }

  function Above(l: Loc): set<Loc> {
    set k | 0 <= k < |l| :: l[..k]
  }

  lemma AboveIsPrefix(l: Loc, a: Loc)
    ensures a in Above(l) <==> a < l
  {
    if a < l { assert l[..|a|] == a; }
  }

  // ---- Trees ----

  /** A tree put at a place. */
  function Placed(tree: Tree, at: Loc): Tree {
    map l | l in (set r | r in tree :: at + r) :: tree[l[|at|..]]
  }

  lemma PlacedMeans(tree: Tree, at: Loc)
    ensures forall l :: l in Placed(tree, at) <==> at <= l && l[|at|..] in tree
    ensures forall l :: l in Placed(tree, at) ==> Placed(tree, at)[l] == tree[l[|at|..]]
  {
    forall l
      ensures l in Placed(tree, at) <==> at <= l && l[|at|..] in tree
    {
      if at <= l { assert at + l[|at|..] == l; }
    }
  }

  function NamesBelow(files: Tree, dir: Loc): (names: set<Loc>)
    ensures forall r :: r in names <==> r != [] && dir + r in files
  {
    assert forall l :: l in files && dir < l ==> dir + l[|dir|..] == l;
    assert forall r :: (dir + r)[|dir|..] == r;
    set l | l in files && dir < l :: l[|dir|..]
  }

  /** The files strictly below a directory. */
  function Below(files: Tree, dir: Loc): (tree: Tree)
    ensures [] !in tree
  {
    map r | r in NamesBelow(files, dir) :: files[dir + r]
  }

  function Removed(d: Disk, dir: Loc): Disk {
    Disk(map l | l in d.files && !(dir <= l) :: d.files[l], set l | l in d.dirs && !(dir <= l))
  }
}
