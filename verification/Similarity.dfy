/** The trigram vectors of knowledge search and the cosine of two of them, over the reals. */
module Similarity {
  import opened Text

  /** Trigrams with their counts; a missing trigram counts zero. */
  type Counter = map<string, nat>

  function Count(c: Counter, k: string): nat {
    if k in c then c[k] else 0
  }

  // ---- Sums over finite sets of trigrams ----

  ghost function Sum(keys: set<string>, f: string -> int): int {
    if keys == {} then 0 else
      var k :| k in keys;
      f(k) + Sum(keys - {k}, f)
  }

  /** The order in which a sum takes its terms does not matter. */
  lemma {:induction false} SumTakes(keys: set<string>, f: string -> int, k: string)
    requires k in keys
    ensures Sum(keys, f) == f(k) + Sum(keys - {k}, f)
    decreases keys
  {
    var first :| first in keys && Sum(keys, f) == f(first) + Sum(keys - {first}, f);
    if first != k {
      SumTakes(keys - {first}, f, k);
      SumTakes(keys - {k}, f, first);
      assert keys - {first} - {k} == keys - {k} - {first};
    }
  }

  lemma {:induction false} SumAgrees(keys: set<string>, f: string -> int, g: string -> int)
    requires forall k :: k in keys ==> f(k) == g(k)
    ensures Sum(keys, f) == Sum(keys, g)
    decreases keys
  {
    if keys != {} {
      var k :| k in keys;
      SumTakes(keys, f, k);
      SumTakes(keys, g, k);
      SumAgrees(keys - {k}, f, g);
    }
  }

  lemma {:induction false} SumIgnoresZeros(keys: set<string>, more: set<string>, f: string -> int)
    requires keys <= more && forall k :: k in more && k !in keys ==> f(k) == 0
    ensures Sum(more, f) == Sum(keys, f)
    decreases more
  {
    if keys != more {
      var k :| k in more && k !in keys;
      SumTakes(more, f, k);
      SumIgnoresZeros(keys, more - {k}, f);
    }
  }

  lemma {:induction false} SumNonNegative(keys: set<string>, f: string -> int)
    requires forall k :: k in keys ==> f(k) >= 0
    ensures Sum(keys, f) >= 0
    ensures (exists k :: k in keys && f(k) > 0) ==> Sum(keys, f) > 0
    decreases keys
  {
    if keys != {} {
      var k :| k in keys && ((exists j :: j in keys && f(j) > 0) ==> f(k) > 0);
      SumTakes(keys, f, k);
      SumNonNegative(keys - {k}, f);
    }
  }

  // ---- Products of counters ----

  ghost function Product(l: Counter, r: Counter): string -> int {
    k => Count(l, k) * Count(r, k)
  }

  /** The sum over the left counter's trigrams, as the source computes it. */
  ghost function Dot(l: Counter, r: Counter): int {
    Sum(l.Keys, Product(l, r))
  }

  lemma DotOverBoth(l: Counter, r: Counter)
    ensures Dot(l, r) == Sum(l.Keys + r.Keys, Product(l, r))
  {
    SumIgnoresZeros(l.Keys, l.Keys + r.Keys, Product(l, r));
  }

  lemma DotIsSymmetric(l: Counter, r: Counter)
    ensures Dot(l, r) == Dot(r, l)
  {
    DotOverBoth(l, r);
    DotOverBoth(r, l);
    assert l.Keys + r.Keys == r.Keys + l.Keys;
    SumAgrees(l.Keys + r.Keys, Product(l, r), Product(r, l));
  }

  lemma DotIsNonNegative(l: Counter, r: Counter)
    ensures Dot(l, r) >= 0
    ensures (exists k :: k in l && l[k] > 0) ==> Dot(l, l) > 0
  {
    SumNonNegative(l.Keys, Product(l, r));
    SumNonNegative(l.Keys, Product(l, l));
    if k :| k in l && l[k] > 0 { assert Product(l, l)(k) > 0; }
  }

  lemma {:induction false} SumIsZeroIff(keys: set<string>, f: string -> int)
    requires forall k :: k in keys ==> f(k) >= 0
    ensures Sum(keys, f) == 0 <==> forall k :: k in keys ==> f(k) == 0
    decreases keys
  {
    if keys != {} {
      var k :| k in keys;
      SumTakes(keys, f, k);
      SumNonNegative(keys - {k}, f);
      SumIsZeroIff(keys - {k}, f);
    }
  }

  /** Some trigram occurs in both. */
  predicate Shares(l: Counter, r: Counter) {
    exists k :: k in l && k in r && l[k] > 0 && r[k] > 0
  }

  lemma DotIsZeroIff(l: Counter, r: Counter)
    ensures Dot(l, r) == 0 <==> !Shares(l, r)
  {
    SumIsZeroIff(l.Keys, Product(l, r));
    forall k | k in l ensures Product(l, r)(k) == 0 <==> !(k in r && l[k] > 0 && r[k] > 0) {
      ProductIsZeroIff(Count(l, k), Count(r, k));
    }
    if Shares(l, r) {
      var k :| k in l && k in r && l[k] > 0 && r[k] > 0;
      assert Product(l, r)(k) != 0;
    }
  }

  lemma ProductIsZeroIff(x: nat, y: nat)
    ensures x * y == 0 <==> x == 0 || y == 0
  {
  }

  // ---- Cauchy–Schwarz ----

  lemma SmallerSquare(x: int, y: int)
    requires 0 <= y && x * x <= y * y
    ensures x <= y
  {
    if y < x { MulLess(y, x); }
  }

  lemma MulLess(y: int, x: int)
    requires 0 <= y < x
    ensures y * y < x * x
  {
    assert x * x == y * y + (x - y) * (x + y);
  }

  lemma RegroupProduct(a: int, b: int, c: int, d: int)
    ensures (a * b) * (c * d) == (a * c) * (b * d)
  {
    assert (a * b) * (c * d) == a * (b * (c * d));
    assert b * (c * d) == c * (b * d);
    assert a * (c * (b * d)) == (a * c) * (b * d);
  }

  lemma ScaleOrder(s: int, t: int, p: int)
    requires s <= t && 0 <= p
    ensures s * p <= t * p
  {
  }

  /** 4uv is at most (u + v)². */
  lemma TwiceRootAtMostSum(w: int, u: int, v: int)
    requires 0 <= u && 0 <= v && w * w <= u * v
    ensures 2 * w <= u + v
  {
    assert (u + v) * (u + v) == 4 * (u * v) + (u - v) * (u - v);
    assert (2 * w) * (2 * w) == 4 * (w * w);
    SmallerSquare(2 * w, u + v);
  }

  lemma MeanInequality(d: int, a: int, b: int, x: int, y: int)
    requires 0 <= a && 0 <= b && d * d <= a * b
    ensures 2 * (d * (x * y)) <= a * (y * y) + b * (x * x)
  {
    var p := (x * y) * (x * y);
    RegroupProduct(d, x * y, d, x * y);
    RegroupProduct(a, y * y, b, x * x);
    RegroupProduct(y, y, x, x);
    assert (y * y) * (x * x) == p;
    ScaleOrder(d * d, a * b, p);
    TwiceRootAtMostSum(d * (x * y), a * (y * y), b * (x * x));
  }

  predicate Bounds(d: int, a: int, b: int) {
    0 <= d && 0 <= a && 0 <= b && d * d <= a * b
  }

  lemma CauchyStep(d: int, a: int, b: int, x: int, y: int)
    requires Bounds(d, a, b) && 0 <= x && 0 <= y
    ensures Bounds(x * y + d, x * x + a, y * y + b)
  {
    MeanInequality(d, a, b, x, y);
    assert (x * y + d) * (x * y + d) == (x * y) * (x * y) + 2 * (d * (x * y)) + d * d;
    assert (x * x + a) * (y * y + b) == (x * y) * (x * y) + a * (y * y) + b * (x * x) + a * b;
  }

  lemma {:induction false} CauchySchwarzOver(keys: set<string>, l: Counter, r: Counter)
    ensures Bounds(Sum(keys, Product(l, r)), Sum(keys, Product(l, l)), Sum(keys, Product(r, r)))
    decreases keys
  {
    if keys != {} {
      var k :| k in keys;
      var rest := keys - {k};
      CauchySchwarzOver(rest, l, r);
      SumTakes(keys, Product(l, r), k);
      SumTakes(keys, Product(l, l), k);
      SumTakes(keys, Product(r, r), k);
      CauchyStep(Sum(rest, Product(l, r)), Sum(rest, Product(l, l)), Sum(rest, Product(r, r)), Count(l, k),
                 Count(r, k));
    }
  }

  /** dot(l, r)² is at most |l|²·|r|², with equality when the counters are equal. */
  lemma CauchySchwarz(l: Counter, r: Counter)
    ensures Dot(l, r) * Dot(l, r) <= Dot(l, l) * Dot(r, r)
    ensures l == r ==> Dot(l, r) * Dot(l, r) == Dot(l, l) * Dot(r, r)
  {
    var both := l.Keys + r.Keys;
    CauchySchwarzOver(both, l, r);
    DotOverBoth(l, r);
    SumIgnoresZeros(l.Keys, both, Product(l, l));
    SumIgnoresZeros(r.Keys, both, Product(r, r));
  }

  // ---- The score ----

  /** A square root on the non-negative reals. */
  ghost predicate IsRoot(root: real, square: int) {
    0.0 <= root && root * root == square as real
  }

  /** The cosine, given the two norms as square roots. */
  ghost function Cosine(l: Counter, r: Counter, leftNorm: real, rightNorm: real): real {
    if l == map[] || r == map[] then 0.0
    else if leftNorm == 0.0 || rightNorm == 0.0 then 0.0
    else Dot(l, r) as real / (leftNorm * rightNorm)
  }

  lemma RealSquareOrder(x: real, y: real)
    requires 0.0 <= x && 0.0 < y && x * x <= y * y
    ensures x <= y
  {
  }

  lemma QuotientAtMostOne(x: real, y: real)
    requires 0.0 <= x <= y && 0.0 < y
    ensures 0.0 <= x / y <= 1.0
  {
  }

  lemma NormsBoundDot(d: int, a: int, b: int, x: real, y: real)
    requires 0 <= d && IsRoot(x, a) && IsRoot(y, b) && d * d <= a * b && x != 0.0 && y != 0.0
    ensures 0.0 < x * y && d as real <= x * y
  {
    assert (x * y) * (x * y) == (x * x) * (y * y);
    assert (d * d) as real == d as real * d as real;
    assert (a * b) as real == a as real * b as real;
    RealSquareOrder(d as real, x * y);
  }

  /** The semantic score lies in [0, 1] and does not depend on which text is the query. */
  lemma CosineIsBounded(l: Counter, r: Counter, leftNorm: real, rightNorm: real)
    requires IsRoot(leftNorm, Dot(l, l)) && IsRoot(rightNorm, Dot(r, r))
    ensures 0.0 <= Cosine(l, r, leftNorm, rightNorm) <= 1.0
    ensures Cosine(l, r, leftNorm, rightNorm) == Cosine(r, l, rightNorm, leftNorm)
  {
    CauchySchwarz(l, r);
    DotIsNonNegative(l, r);
    DotIsSymmetric(l, r);
    if leftNorm != 0.0 && rightNorm != 0.0 {
      NormsBoundDot(Dot(l, r), Dot(l, l), Dot(r, r), leftNorm, rightNorm);
      QuotientAtMostOne(Dot(l, r) as real, leftNorm * rightNorm);
      assert leftNorm * rightNorm == rightNorm * leftNorm;
    }
  }

  /** The score is zero exactly when no trigram occurs in both, and otherwise the dot product in proportion to
      the norms. */
  lemma CosineIs(l: Counter, r: Counter, leftNorm: real, rightNorm: real)
    requires IsRoot(leftNorm, Dot(l, l)) && IsRoot(rightNorm, Dot(r, r))
    ensures Cosine(l, r, leftNorm, rightNorm) == 0.0 <==> !Shares(l, r)
    ensures Cosine(l, r, leftNorm, rightNorm) * (leftNorm * rightNorm) == Dot(l, r) as real
  {
    DotIsZeroIff(l, r);
    DotIsZeroIff(l, l);
    DotIsZeroIff(r, r);
    if Shares(l, r) {
      assert Shares(l, l) && Shares(r, r);
      assert leftNorm != 0.0 && rightNorm != 0.0;
      QuotientTimes(Dot(l, r) as real, leftNorm * rightNorm);
    } else {
      assert Dot(l, r) == 0;
      if leftNorm != 0.0 && rightNorm != 0.0 { QuotientTimes(0.0, leftNorm * rightNorm); }
    }
    hide Dot, Shares;
  }

  lemma QuotientTimes(x: real, y: real)
    requires y != 0.0
    ensures x / y * y == x && (x / y == 0.0 <==> x == 0.0)
  {
  }

  /** A text matches itself perfectly. */
  lemma CosineOfSelf(c: Counter, norm: real)
    requires IsRoot(norm, Dot(c, c)) && exists k :: k in c && c[k] > 0
    ensures Cosine(c, c, norm, norm) == 1.0
  {
    DotIsNonNegative(c, c);
    assert norm != 0.0;
    QuotientOfEqual(norm * norm);
  }

  lemma QuotientOfEqual(x: real)
    requires x != 0.0
    ensures x / x == 1.0
  {
  }

  /** Search adds twice the semantic score to the number of lexical hits. */
  ghost function Score(lexical: nat, hybrid: bool, l: Counter, r: Counter, leftNorm: real, rightNorm: real): real {
    lexical as real + (if hybrid then Cosine(l, r, leftNorm, rightNorm) else 0.0) * 2.0
  }

  /** Only a hybrid search of texts that share a trigram adds to the lexical hits, and then twice the cosine. */
  lemma ScoreIs(lexical: nat, hybrid: bool, l: Counter, r: Counter, leftNorm: real, rightNorm: real)
    requires IsRoot(leftNorm, Dot(l, l)) && IsRoot(rightNorm, Dot(r, r))
    ensures var extra := Score(lexical, hybrid, l, r, leftNorm, rightNorm) - lexical as real;
            && (extra > 0.0 <==> hybrid && Shares(l, r))
            && (hybrid ==> extra * (leftNorm * rightNorm) == 2.0 * Dot(l, r) as real)
  {
    CosineIsBounded(l, r, leftNorm, rightNorm);
    CosineIs(l, r, leftNorm, rightNorm);
    var cosine, norms := Cosine(l, r, leftNorm, rightNorm), leftNorm * rightNorm;
    assert cosine * 2.0 * norms == 2.0 * (cosine * norms);
    hide Cosine, Dot, Shares;
  }

  lemma ScoreIsNearLexical(lexical: nat, hybrid: bool, l: Counter, r: Counter, leftNorm: real, rightNorm: real)
    requires IsRoot(leftNorm, Dot(l, l)) && IsRoot(rightNorm, Dot(r, r))
    ensures lexical as real <= Score(lexical, hybrid, l, r, leftNorm, rightNorm) <= lexical as real + 2.0
  {
    CosineIsBounded(l, r, leftNorm, rightNorm);
  }

  // ---- Counting trigrams ----

  /** re.sub(r"\s+", " ", …): every run of white space becomes one space. */
  function Collapsed(s: string): string {
    if s == [] then []
    else if !IsSpace(s[0]) then [s[0]] + Collapsed(s[1..])
    else if |s| > 1 && IsSpace(s[1]) then Collapsed(s[1..])
    else [' '] + Collapsed(s[1..])
  }

  predicate AllSpace(s: string) {
    forall c :: c in s ==> IsSpace(c)
  }

  lemma {:induction false} CollapsedRun(s: string)
    requires s != [] && AllSpace(s)
    ensures Collapsed(s) == " "
  {
    if |s| > 1 { CollapsedRun(s[1..]); }
  }

  lemma {:induction false} CollapsedWord(s: string)
    requires forall c :: c in s ==> !IsSpace(c)
    ensures Collapsed(s) == s
  {
    if s != [] { CollapsedWord(s[1..]); }
  }

  /** A text is collapsed piece by piece wherever it is not cut inside of white space; with the two facts before,
      words stay and each run between them becomes one space. */
  lemma {:induction false} CollapsedPieces(a: string, b: string)
    requires a == [] || b == [] || !IsSpace(a[|a| - 1]) || !IsSpace(b[0])
    ensures Collapsed(a + b) == Collapsed(a) + Collapsed(b)
    decreases |a|
  {
    if a == [] {
      assert a + b == b;
    } else {
      assert (a + b)[1..] == a[1..] + b;
      if |a| > 1 { assert a[1..][|a| - 2] == a[|a| - 1]; }
      CollapsedPieces(a[1..], b);
    }
  }

  /** The text after case folding, padded by two spaces on both sides. */
  function Padded(folded: string): string {
    "  " + Strip(Collapsed(folded)) + "  "
  }

  /** How often a trigram occurs among the first n positions. */
  function Occurrences(s: string, k: string, n: nat): nat
    requires n + 2 <= |s|
  {
    if n == 0 then 0 else Occurrences(s, k, n - 1) + (if s[n - 1..n + 2] == k then 1 else 0)
  }

  predicate StandsAt(s: string, k: string, i: nat) {
    i + 3 <= |s| && s[i..i + 3] == k
  }

  /** The places among the first n where a trigram stands. */
  function Places(s: string, k: string, n: nat): set<nat> {
    set i: nat | i < n && StandsAt(s, k, i)
  }

  lemma NextPlace(s: string, k: string, n: nat)
    ensures n !in Places(s, k, n)
    ensures Places(s, k, n + 1) == if StandsAt(s, k, n) then Places(s, k, n) + {n} else Places(s, k, n)
  {
    hide StandsAt;
  }

  lemma {:induction false} OccurrencesAre(s: string, k: string, n: nat)
    requires n + 2 <= |s|
    ensures Occurrences(s, k, n) == |Places(s, k, n)|
  {
    if n > 0 {
      OccurrencesAre(s, k, n - 1);
      NextPlace(s, k, n - 1);
      hide Places;
    }
  }

  /** Each trigram of the padded text is counted as often as there are places where it stands. */
  method VectorFeatures(folded: string) returns (c: Counter)
    ensures var s := "  " + Strip(Collapsed(folded)) + "  ";
            && (forall k :: Count(c, k) == |Places(s, k, |s| - 2)|)
            && (forall k :: k in c ==> c[k] > 0)
            && Sum(c.Keys, k => Count(c, k)) == |s| - 2
  {
    var s := Padded(folded);
    c := map[];
    for i := 0 to |s| - 2
      invariant forall k :: Count(c, k) == Occurrences(s, k, i)
      invariant forall k :: k in c ==> c[k] > 0
      invariant Sum(c.Keys, k => Count(c, k)) == i
    {
      var gram := s[i..i + 3];
      IncrementAddsOne(c, gram);
      c := c[gram := Count(c, gram) + 1];
    }
    forall k ensures Count(c, k) == |Places(s, k, |s| - 2)| {
      OccurrencesAre(s, k, |s| - 2);
    }
  }

  lemma IncrementAddsOne(c: Counter, gram: string)
    ensures var c' := c[gram := Count(c, gram) + 1];
            Sum(c'.Keys, k => Count(c', k)) == Sum(c.Keys, k => Count(c, k)) + 1
  {
    var c' := c[gram := Count(c, gram) + 1];
    var f, g := (k: string) => Count(c, k) as int, (k: string) => Count(c', k) as int;
    var others := c.Keys - {gram};
    assert c'.Keys == others + {gram};
    assert c'.Keys - {gram} == others;
    SumTakes(c'.Keys, g, gram);
    SumAgrees(others, f, g);
    if gram in c {
      SumTakes(c.Keys, f, gram);
    } else {
      assert c.Keys == others;
    }
  }

  /** The dot product as a loop over the left counter's entries. */
  method DotProduct(l: Counter, r: Counter) returns (dot: int)
    ensures dot == Dot(l, r)
  {
    dot := 0;
    var keys := l.Keys;
    while keys != {}
      invariant keys <= l.Keys
      invariant dot + Sum(keys, Product(l, r)) == Dot(l, r)
    {
      var k :| k in keys;
      SumTakes(keys, Product(l, r), k);
      dot := dot + l[k] * Count(r, k);
      keys := keys - {k};
    }
  }
}
