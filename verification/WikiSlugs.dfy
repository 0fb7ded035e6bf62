/** Choosing a slug for a wiki page by probing base, base-2, base-3, … */
module WikiSlugs {
  import Decimal

  /** The n-th slug that is tried. */
  function Candidate(base: string, n: nat): string {
    if n == 0 then base else base + "-" + Decimal.Print(n + 1)
  }

  lemma CandidatesDiffer(base: string, m: nat, n: nat)
    requires Candidate(base, m) == Candidate(base, n)
    ensures m == n
  {
    var k := |base| + 1;
    if m > 0 { assert Candidate(base, m)[k..] == Decimal.Print(m + 1); }
    if n > 0 { assert Candidate(base, n)[k..] == Decimal.Print(n + 1); }
    if m > 0 && n > 0 { Decimal.PrintInjective(m + 1, n + 1); }
  }

  ghost function FirstCandidates(base: string, n: nat): set<string> {
    if n == 0 then {} else FirstCandidates(base, n - 1) + {Candidate(base, n - 1)}
  }

  lemma {:induction false} FromFirstCandidates(base: string, n: nat, s: string) returns (k: nat)
    requires s in FirstCandidates(base, n)
    ensures k < n && s == Candidate(base, k)
  {
    if s == Candidate(base, n - 1) {
      k := n - 1;
    } else {
      k := FromFirstCandidates(base, n - 1, s);
    }
  }

  lemma {:induction false} FirstCandidatesSize(base: string, n: nat)
    ensures |FirstCandidates(base, n)| == n
  {
    if n > 0 {
      FirstCandidatesSize(base, n - 1);
      if Candidate(base, n - 1) in FirstCandidates(base, n - 1) {
        var k := FromFirstCandidates(base, n - 1, Candidate(base, n - 1));
        CandidatesDiffer(base, n - 1, k);
      }
    }
  }

  /** Pigeonhole: n distinct candidates in use need n slugs in use. */
  lemma ProbesAreBounded(base: string, used: set<string>, n: nat)
    requires forall k :: 0 <= k < n ==> Candidate(base, k) in used
    ensures n <= |used|
  {
    FirstCandidatesSize(base, n);
    var tried := FirstCandidates(base, n);
    forall s | s in tried
      ensures s in used
    {
      var k := FromFirstCandidates(base, n, s);
    }
    assert used == tried + (used - tried);
  }

  /** The slug that probing finds, as a function of the base and the slugs in use. */
  ghost predicate IsFirstFree(base: string, used: set<string>, n: nat) {
    Candidate(base, n) !in used && forall k :: 0 <= k < n ==> Candidate(base, k) in used
  }

  lemma {:induction false} FreeFrom(base: string, used: set<string>, n: nat)
    requires n <= |used| && forall k :: 0 <= k < n ==> Candidate(base, k) in used
    ensures exists m :: IsFirstFree(base, used, m)
    decreases |used| - n
  {
    if Candidate(base, n) in used {
      ProbesAreBounded(base, used, n + 1);
      FreeFrom(base, used, n + 1);
    } else {
      assert IsFirstFree(base, used, n);
    }
  }

  ghost function FreeSlug(base: string, used: set<string>): (slug: string)
    ensures slug !in used
  {
    FreeFrom(base, used, 0);
    var n :| IsFirstFree(base, used, n);
    Candidate(base, n)
  }

  /** It is the first candidate that is not in use. */
  lemma FreeSlugIsFirst(base: string, used: set<string>) returns (n: nat)
    ensures FreeSlug(base, used) == Candidate(base, n) && FreeSlug(base, used) !in used
    ensures forall k: nat :: k < n ==> Candidate(base, k) in used
  {
    FreeFrom(base, used, 0);
    n :| IsFirstFree(base, used, n) && Candidate(base, n) == FreeSlug(base, used);
  }

  /** The loop ends after at most one probe more than there are slugs in use, with the
      first candidate that is free. */
  method Probe(base: string, used: set<string>) returns (slug: string, ghost probes: nat)
    ensures slug !in used && slug == FreeSlug(base, used)
    ensures 1 <= probes <= |used| + 1 && slug == Candidate(base, probes - 1)
    ensures forall k :: 0 <= k < probes - 1 ==> Candidate(base, k) in used
  {
    slug := base;
    var suffix := 2;
    probes := 1;
    while slug in used
      invariant suffix == probes + 1 && 1 <= probes && slug == Candidate(base, probes - 1)
      invariant forall k :: 0 <= k < probes - 1 ==> Candidate(base, k) in used
      decreases |used| + 1 - probes
    {
      ProbesAreBounded(base, used, probes);
      slug := base + "-" + Decimal.Print(suffix);
      suffix := suffix + 1;
      probes := probes + 1;
    }
    ProbesAreBounded(base, used, probes - 1);
    assert IsFirstFree(base, used, probes - 1);
  }
}
