/** Texts in the order of their code points, and finite sets of texts listed in that order. */
module TextOrder {

  predicate Before(a: string, b: string) {
    b != [] && (a == [] || a[0] < b[0] || (a[0] == b[0] && Before(a[1..], b[1..])))
  }

  /** Up to k they agree, and there the first one ends or has the smaller character. */
  predicate FirstDiffersAt(a: string, b: string, k: nat) {
    k <= |a| && k < |b| && a[..k] == b[..k] && (k == |a| || a[k] < b[k])
  }

  lemma {:induction false} BeforeIff(a: string, b: string)
    ensures Before(a, b) <==> exists k: nat :: FirstDiffersAt(a, b, k)
    decreases |a|
  {
    if b == [] {
    } else if a == [] || a[0] < b[0] {
      assert FirstDiffersAt(a, b, 0);
    } else if a[0] == b[0] {
      BeforeIff(a[1..], b[1..]);
      if k: nat :| FirstDiffersAt(a[1..], b[1..], k) {
        assert a[..k + 1] == [a[0]] + a[1..][..k] && b[..k + 1] == [b[0]] + b[1..][..k];
        assert FirstDiffersAt(a, b, k + 1);
      }
      if k: nat :| FirstDiffersAt(a, b, k) {
        assert k > 0 && a[1..][..k - 1] == a[..k][1..] && b[1..][..k - 1] == b[..k][1..];
        assert FirstDiffersAt(a[1..], b[1..], k - 1);
      }
    } else {
      forall k: nat ensures !FirstDiffersAt(a, b, k) {
        if 0 < k <= |a| && k < |b| { assert a[..k][0] == a[0] && b[..k][0] == b[0]; }
      }
    }
  }

  lemma {:induction false} BeforeIsStrict(a: string)
    ensures !Before(a, a)
  {
    if a != [] { BeforeIsStrict(a[1..]); }
  }

  lemma {:induction false} BeforeIsTransitive(a: string, b: string, c: string)
    requires Before(a, b) && Before(b, c)
    ensures Before(a, c)
  {
    if a != [] && a[0] == b[0] == c[0] { BeforeIsTransitive(a[1..], b[1..], c[1..]); }
  }

  lemma {:induction false} BeforeIsTotal(a: string, b: string)
    ensures a == b || Before(a, b) || Before(b, a)
  {
    if a != [] && b != [] && a[0] == b[0] {
      BeforeIsTotal(a[1..], b[1..]);
      if a[1..] == b[1..] { assert a == [a[0]] + a[1..] && b == [b[0]] + b[1..]; }
    }
  }

  predicate IsFirst(x: string, s: set<string>) {
    x in s && forall y :: y in s ==> y == x || Before(x, y)
  }

  lemma {:induction false} FirstExists(s: set<string>)
    requires s != {}
    ensures exists x :: IsFirst(x, s)
    decreases |s|
  {
    var z :| z in s;
    var rest := s - {z};
    if rest == {} {
      assert s == {z};
      assert IsFirst(z, s);
    } else {
      FirstExists(rest);
      var x :| IsFirst(x, rest);
      BeforeIsTotal(z, x);
      if Before(z, x) {
        forall y | y in s ensures y == z || Before(z, y) {
          if y != z && y != x { BeforeIsTransitive(z, x, y); }
        }
        assert IsFirst(z, s);
      } else {
        assert IsFirst(x, s);
      }
    }
  }

  lemma FirstIsUnique(x: string, y: string, s: set<string>)
    requires IsFirst(x, s) && IsFirst(y, s)
    ensures x == y
  {
    if x != y {
      BeforeIsTransitive(x, y, x);
      BeforeIsStrict(x);
    }
  }

  function First(s: set<string>): (x: string)
    requires s != {}
    ensures IsFirst(x, s)
  {
    FirstExists(s);
    assert forall x, y :: IsFirst(x, s) && IsFirst(y, s) ==> x == y by {
      forall x, y | IsFirst(x, s) && IsFirst(y, s) ensures x == y { FirstIsUnique(x, y, s); }
    }
    var x :| IsFirst(x, s);
    x
  }

  /** Strictly ascending. */
  ghost predicate Ordered(r: seq<string>) {
    forall i, j :: 0 <= i < j < |r| ==> Before(r[i], r[j])
  }

  function Ascending(s: set<string>): (r: seq<string>)
    ensures Ordered(r) && |r| == |s|
    ensures forall x :: x in r <==> x in s
    decreases |s|
  {
    if s == {} then []
    else
      var x := First(s);
      var rest := Ascending(s - {x});
      assert forall i :: 0 <= i < |rest| ==> Before(x, rest[i]) by {
        forall i | 0 <= i < |rest| ensures Before(x, rest[i]) { assert rest[i] in s - {x}; }
      }
      [x] + rest
  }

  lemma OrderedHeadIsFirst(r: seq<string>, s: set<string>)
    requires Ordered(r) && r != [] && forall x :: x in r <==> x in s
    ensures IsFirst(r[0], s)
  {
    forall y | y in s ensures y == r[0] || Before(r[0], y) {
      var i :| 0 <= i < |r| && r[i] == y;
    }
  }

  lemma OrderedTail(r: seq<string>, s: set<string>)
    requires Ordered(r) && r != [] && forall x :: x in r <==> x in s
    ensures Ordered(r[1..]) && forall x :: x in r[1..] <==> x in s - {r[0]}
  {
    hide Before;
    assert r == [r[0]] + r[1..];
    forall x | x in r[1..] ensures x in s - {r[0]} {
      var i :| 0 <= i < |r| - 1 && r[1..][i] == x;
      assert Before(r[0], r[i + 1]);
      BeforeIsStrict(r[0]);
    }
  }

  lemma AscendingBegins(s: set<string>)
    requires s != {}
    ensures Ascending(s) == [First(s)] + Ascending(s - {First(s)})
  {
  }

  /** A set has one ascending list. */
  lemma {:induction false} AscendingIsUnique(r: seq<string>, s: set<string>)
    requires Ordered(r) && forall x :: x in r <==> x in s
    ensures r == Ascending(s)
    decreases |r|
  {
    hide Ordered, IsFirst, Ascending;
    if r == [] {
      assert s == {};
      assert |Ascending(s)| == 0;
    } else {
      assert r[0] in s;
      AscendingBegins(s);
      OrderedHeadIsFirst(r, s);
      FirstIsUnique(r[0], First(s), s);
      OrderedTail(r, s);
      AscendingIsUnique(r[1..], s - {r[0]});
      assert r == [r[0]] + r[1..];
    }
  }

  // ---- Lists with repetitions ----

  predicate NotAfter(a: string, b: string) {
    a == b || Before(a, b)
  }

  ghost predicate NonDescending(r: seq<string>) {
    forall i, j :: 0 <= i < j < |r| ==> NotAfter(r[i], r[j])
  }

  function Insert(x: string, r: seq<string>): seq<string> {
    if r == [] || NotAfter(x, r[0]) then [x] + r else [r[0]] + Insert(x, r[1..])
  }

  function Sorted(s: seq<string>): seq<string> {
    if s == [] then [] else Insert(s[0], Sorted(s[1..]))
  }

  lemma {:induction false} InsertAdds(x: string, r: seq<string>)
    ensures multiset(Insert(x, r)) == multiset(r) + multiset{x}
  {
    if r != [] {
      assert r == [r[0]] + r[1..];
      InsertAdds(x, r[1..]);
    }
  }

  lemma {:induction false} InsertIsSorted(x: string, r: seq<string>)
    requires NonDescending(r)
    ensures NonDescending(Insert(x, r))
  {
    hide Before;
    if r != [] {
      if NotAfter(x, r[0]) {
        forall i | 0 <= i < |r| ensures NotAfter(x, r[i]) {
          if i > 0 && x != r[0] && r[0] != r[i] { BeforeIsTransitive(x, r[0], r[i]); }
        }
      } else {
        BeforeIsTotal(x, r[0]);
        InsertIsSorted(x, r[1..]);
        forall y | y in Insert(x, r[1..]) ensures NotAfter(r[0], y) {
          InsertAdds(x, r[1..]);
          assert y in multiset(Insert(x, r[1..]));
        }
      }
    }
  }

  /** Sorting puts the same texts, as often as they occur, in order. */
  lemma {:induction false} SortedIsSorted(s: seq<string>)
    ensures NonDescending(Sorted(s)) && multiset(Sorted(s)) == multiset(s)
  {
    if s != [] {
      SortedIsSorted(s[1..]);
      InsertIsSorted(s[0], Sorted(s[1..]));
      InsertAdds(s[0], Sorted(s[1..]));
      assert s == [s[0]] + s[1..];
    }
  }
}
