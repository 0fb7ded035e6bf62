/** Where a path lands: joined to a directory, with its parent components followed one by one. */
module Paths {

  /** A place in the file system: the names that lead to it from the top. */
  type Loc = seq<string>

  datatype Part = Up | Name(name: string)

  /** A path as it is parsed; empty and "." components are gone. */
  datatype Path = Path(absolute: bool, parts: seq<Part>)

  function ParentOf(l: Loc): Loc {
    if l == [] then [] else l[..|l| - 1]
  }

  function Step(from: Loc, part: Part): Loc {
    match part
    case Up => ParentOf(from)
    case Name(n) => from + [n]
  }

  function Walk(from: Loc, parts: seq<Part>): Loc
    decreases |parts|
  {
    if parts == [] then from else Walk(Step(from, parts[0]), parts[1..])
  }

  /** Joining an absolute path to a directory forgets the directory. */
  function StartOf(dir: Loc, p: Path): Loc {
    if p.absolute then [] else dir
  }

  function Landing(dir: Loc, p: Path): Loc {
    Walk(StartOf(dir, p), p.parts)
  }

  /** The places that the walk passes before its last step: what making the parents makes. */
  function Trail(from: Loc, parts: seq<Part>): set<Loc>
    decreases |parts|
  {
    if |parts| <= 1 then {} else {Step(from, parts[0])} + Trail(Step(from, parts[0]), parts[1..])
  }

  /** The walk never climbs above the place it was `depth` names below. */
  predicate Stays(depth: nat, parts: seq<Part>)
    decreases |parts|
  {
    parts == []
    || match parts[0]
       case Up => depth > 0 && Stays(depth - 1, parts[1..])
       case Name(_) => Stays(depth + 1, parts[1..])
  }

  predicate StaysInside(p: Path) {
    !p.absolute && Stays(0, p.parts)
  }

  /** Where a path that stays inside lands, seen from the directory it is joined to. */
  function Inner(p: Path): Loc {
    Walk([], p.parts)
  }

  function PlainPath(l: Loc): Path {
    Path(false, seq(|l|, i requires 0 <= i < |l| => Name(l[i])))
  }

  // ---- Staying inside ----

  lemma {:induction false} StayingWalk(dir: Loc, rel: Loc, parts: seq<Part>)
    requires Stays(|rel|, parts)
    ensures Walk(dir + rel, parts) == dir + Walk(rel, parts)
    ensures forall l :: l in Trail(dir + rel, parts) ==> dir <= l
    decreases |parts|
  {
    if parts != [] {
      var next := Step(rel, parts[0]);
      assert Step(dir + rel, parts[0]) == dir + next;
      StayingWalk(dir, next, parts[1..]);
    }
  }

  lemma StayingLandsBelow(dir: Loc, p: Path)
    requires StaysInside(p)
    ensures Landing(dir, p) == dir + Inner(p)
    ensures forall l :: l in Trail(StartOf(dir, p), p.parts) ==> dir <= l
  {
    StayingWalk(dir, [], p.parts);
    assert dir + [] == dir;
  }

  lemma StepStaysOutside(from: Loc, dir: Loc, name: string, part: Part)
    requires !(dir + [name] <= from) && part != Name(name)
    ensures !(dir + [name] <= Step(from, part))
  {
    var inner, next := dir + [name], Step(from, part);
    assert inner[|dir|] == name;
    match part
    case Up =>
      assert next <= from;
    case Name(n) =>
      assert next[..|from|] == from && next[|from|] == n;
      if |inner| <= |from| {
        assert next[..|inner|] == from[..|inner|];
      }
  }

  /** Outside of a directory, only the directory's own name leads back in. */
  lemma {:induction false} WalkStaysOutside(from: Loc, dir: Loc, name: string, parts: seq<Part>)
    requires !(dir + [name] <= from) && Name(name) !in parts
    ensures !(dir + [name] <= Walk(from, parts))
    decreases |parts|
  {
    if parts != [] {
      StepStaysOutside(from, dir, name, parts[0]);
      WalkStaysOutside(Step(from, parts[0]), dir, name, parts[1..]);
    }
  }

  lemma {:induction false} LeavingWalk(dir: Loc, name: string, rel: Loc, parts: seq<Part>)
    requires !Stays(|rel|, parts) && Name(name) !in parts
    ensures !(dir + [name] <= Walk(dir + [name] + rel, parts))
    decreases |parts|
  {
    var next := Step(rel, parts[0]);
    if parts[0].Up? && rel == [] {
      assert dir + [name] + rel == dir + [name];
      WalkStaysOutside(dir, dir, name, parts[1..]);
    } else {
      assert Step(dir + [name] + rel, parts[0]) == dir + [name] + next;
      LeavingWalk(dir, name, next, parts[1..]);
    }
  }

  /** A path that does not mention a directory's own name lands below the directory if and only if
      it never climbs out of it. */
  lemma LandsInsideIff(dir: Loc, name: string, p: Path)
    requires Name(name) !in p.parts
    ensures dir + [name] <= Landing(dir + [name], p) <==> StaysInside(p)
  {
    if p.absolute {
      WalkStaysOutside([], dir, name, p.parts);
    } else if Stays(0, p.parts) {
      StayingLandsBelow(dir + [name], p);
    } else {
      LeavingWalk(dir, name, [], p.parts);
      assert dir + [name] + [] == dir + [name];
    }
  }

  lemma {:induction false} PlainWalk(from: Loc, l: Loc, depth: nat)
    ensures Walk(from, PlainPath(l).parts) == from + l && Stays(depth, PlainPath(l).parts)
    decreases |l|
  {
    var parts := PlainPath(l).parts;
    if l == [] {
      assert from + l == from;
    } else {
      assert parts[1..] == PlainPath(l[1..]).parts;
      PlainWalk(from + [l[0]], l[1..], depth + 1);
      assert from + [l[0]] + l[1..] == from + l;
    }
  }

  /** A path made of names alone lands where the names say, below any directory. */
  lemma PlainLanding(dir: Loc, l: Loc)
    ensures StaysInside(PlainPath(l)) && Inner(PlainPath(l)) == l && Landing(dir, PlainPath(l)) == dir + l
  {
    PlainWalk(dir, l, 0);
    PlainWalk([], l, 0);
    assert [] + l == l;
  }
}
