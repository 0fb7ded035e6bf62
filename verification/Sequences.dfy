/** Membership facts about sequences that several proofs share. */
module Sequences {

  lemma HeadOrTail<T>(s: seq<T>)
    requires s != []
    ensures forall x :: x in s <==> x == s[0] || x in s[1..]
  {
    assert s == [s[0]] + s[1..];
  }

  lemma FrontOrLast<T>(s: seq<T>)
    requires s != []
    ensures forall x :: x in s <==> x in s[..|s| - 1] || x == s[|s| - 1]
  {
    assert s == s[..|s| - 1] + [s[|s| - 1]];
  }

  lemma SliceOfSlice<T>(s: seq<T>, lo: nat, hi: nat, i: nat, j: nat)
    requires lo <= hi <= |s| && i <= j <= hi - lo
    ensures s[lo..hi][i..j] == s[lo + i..lo + j]
  {
    var t := s[lo..hi];
    forall k | 0 <= k < j - i
      ensures t[i..j][k] == s[lo + i..lo + j][k]
    {
      assert t[i..j][k] == t[i + k] == s[lo + (i + k)];
    }
  }

  lemma ThreeSlices<T>(s: seq<T>, b: nat, e: nat)
    requires b <= e <= |s|
    ensures s[..b] + s[b..e] + s[e..] == s
  {
  }

  lemma Associative<T>(a: seq<T>, b: seq<T>, c: seq<T>)
    ensures (a + b) + c == a + (b + c)
  {
  }
}
