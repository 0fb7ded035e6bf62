/** Least and greatest members of finite sets of integers, and initial segments. */
module Extremes {

  lemma Member<T>(s: set<T>) returns (x: T)
    requires s != {}
    ensures x in s
  {
    x :| x in s;
  }

  lemma {:induction false} LeastExists(s: set<int>)
    requires s != {}
    ensures exists x :: IsLeast(x, s)
    decreases |s|
  {
    var z := Member(s);
    var rest := s - {z};
    if rest == {} {
      assert s == {z};
      assert IsLeast(z, s);
    } else {
      LeastExists(rest);
      var x :| IsLeast(x, rest);
      assert s == rest + {z};
      assert IsLeast(if x < z then x else z, s);
    }
  }

  predicate IsLeast(x: int, s: set<int>) {
    x in s && forall y :: y in s ==> x <= y
  }

  predicate IsGreatest(x: int, s: set<int>) {
    x in s && forall y :: y in s ==> y <= x
  }

  function Least(s: set<int>): (m: int)
    requires s != {}
    ensures IsLeast(m, s)
  {
    LeastExists(s);
    var x :| IsLeast(x, s);
    x
  }

  lemma {:induction false} GreatestExists(s: set<int>)
    requires s != {}
    ensures exists x :: IsGreatest(x, s)
    decreases |s|
  {
    var z := Member(s);
    var rest := s - {z};
    if rest == {} {
      assert s == {z};
      assert IsGreatest(z, s);
    } else {
      GreatestExists(rest);
      var x :| IsGreatest(x, rest);
      assert s == rest + {z};
      assert IsGreatest(if x < z then z else x, s);
    }
  }

  function Greatest(s: set<int>): (m: int)
    requires s != {}
    ensures IsGreatest(m, s)
  {
    GreatestExists(s);
    var x :| IsGreatest(x, s);
    x
  }
}

/** Child rows numbered by an ordinal, sealed by their parent row.

    Several tables share this shape: children are inserted first, then the parent row
    states how many there are, and triggers compare that count with the children's
    count, least and greatest ordinal. Afterwards no child may be added and no row may
    be updated or deleted. */
module SealedRows {
  import opened Extremes
  import opened Wrappers

  datatype ChildKey<K> = ChildKey(owner: K, ordinal: int)

  /** One child table: the primary key is the owner with the ordinal. */
  type Children<K(==), V(==)> = map<ChildKey<K>, V>

  function Ordinals<K(==), V(==)>(t: Children<K, V>, owner: K): set<int> {
    set k | k in t && k.owner == owner :: k.ordinal
  }

  // ---- SQL aggregates over a finite set of ordinals ----

  /** min and max with the triggers' COALESCE(…, -1). */
  function MinOr(s: set<int>): int {
    if s == {} then -1 else Least(s)
  }

  function MaxOr(s: set<int>): int {
    if s == {} then -1 else Greatest(s)
  }

  // ---- Guards on inserts ----

  /** Primary key, unique value per owner, ordinal check, and the sealing trigger. */
  predicate AcceptsChild<K(==), V(==)>(t: Children<K, V>, parents: set<K>, owner: K, ordinal: int, value: V) {
    && ChildKey(owner, ordinal) !in t
    && (forall k :: k in t && k.owner == owner ==> t[k] != value)
    && 0 <= ordinal
    && owner !in parents
  }

  predicate SealHolds<K(==), V(==)>(t: Children<K, V>, owner: K, count: int) {
    var s := Ordinals(t, owner);
    |s| == count && MinOr(s) == 0 && MaxOr(s) == count - 1
  }

  /** The variant that lets a parent have no children at all. */
  predicate SealHoldsOrEmpty<K(==), V(==)>(t: Children<K, V>, owner: K, count: int) {
    |Ordinals(t, owner)| == count && (count > 0 ==> SealHolds(t, owner, count))
  }

  // ---- What the seal implies ----

  function UpTo(n: nat): (s: set<int>)
    ensures |s| == n && forall i :: i in s <==> 0 <= i < n
  {
    if n == 0 then {} else UpTo(n - 1) + {n - 1}
  }

  /** The children of an owner are numbered exactly 0..count-1. */
  ghost predicate Contiguous<K(!new), V>(t: Children<K, V>, owner: K, count: int) {
    0 <= count && forall i :: ChildKey(owner, i) in t <==> 0 <= i < count
  }

  lemma OrdinalsAre<K(!new), V>(t: Children<K, V>, owner: K, i: int)
    ensures i in Ordinals(t, owner) <==> ChildKey(owner, i) in t
  {
    if ChildKey(owner, i) in t { assert ChildKey(owner, i).ordinal in Ordinals(t, owner); }
  }

  lemma ContiguousOrdinals<K(!new), V>(t: Children<K, V>, owner: K, count: nat)
    ensures Contiguous(t, owner, count) <==> Ordinals(t, owner) == UpTo(count)
  {
    forall i
      ensures i in Ordinals(t, owner) <==> ChildKey(owner, i) in t
    {
      OrdinalsAre(t, owner, i);
    }
    if Ordinals(t, owner) == UpTo(count) {
      assert forall i :: ChildKey(owner, i) in t <==> i in UpTo(count);
    }
  }

  ghost predicate NonNegative<K(!new), V>(t: Children<K, V>) {
    forall k :: k in t ==> 0 <= k.ordinal
  }

  /** Pigeonhole: the trigger's three comparisons hold exactly of contiguous ordinals. */
  lemma SealMeansContiguous<K(!new), V>(t: Children<K, V>, owner: K, count: nat)
    requires NonNegative(t) && count > 0
    ensures SealHolds(t, owner, count) <==> Contiguous(t, owner, count)
  {
    ContiguousOrdinals(t, owner, count);
    var s := Ordinals(t, owner);
    if SealHolds(t, owner, count) {
      assert s <= UpTo(count);
      assert UpTo(count) == s + (UpTo(count) - s);
    }
    if s == UpTo(count) {
      assert 0 in s && count - 1 in s;
    }
  }

  lemma SealOrEmptyMeansContiguous<K(!new), V>(t: Children<K, V>, owner: K, count: nat)
    requires NonNegative(t)
    ensures SealHoldsOrEmpty(t, owner, count) <==> Contiguous(t, owner, count)
  {
    ContiguousOrdinals(t, owner, count);
    if count > 0 { SealMeansContiguous(t, owner, count); }
    else { assert UpTo(0) == {}; }
  }

  // ---- The reader ----

  /** SELECT … ORDER BY ordinal. */
  function InOrder(s: set<int>): (r: seq<int>)
    ensures |r| == |s| && (forall x :: x in r <==> x in s)
    ensures forall i, j :: 0 <= i < j < |r| ==> r[i] < r[j]
    decreases |s|
  {
    if s == {} then [] else [Least(s)] + InOrder(s - {Least(s)})
  }

  function Range(n: nat): seq<int> {
    seq(n, i => i)
  }

  lemma {:induction false} AscendingFromZero(r: seq<int>, n: nat, k: nat)
    requires |r| == n && (forall x :: x in r <==> 0 <= x < n)
    requires forall i, j :: 0 <= i < j < |r| ==> r[i] < r[j]
    requires k < n
    ensures k <= r[k]
  {
    assert r[0] in r;
    if k > 0 {
      AscendingFromZero(r, n, k - 1);
      assert r[k - 1] < r[k];
    }
  }

  lemma {:induction false} AscendingToEnd(r: seq<int>, n: nat, k: nat)
    requires |r| == n && (forall x :: x in r <==> 0 <= x < n)
    requires forall i, j :: 0 <= i < j < |r| ==> r[i] < r[j]
    requires k < n
    ensures r[k] <= k
    decreases n - k
  {
    assert r[n - 1] in r;
    if k < n - 1 {
      AscendingToEnd(r, n, k + 1);
      assert r[k] < r[k + 1];
    }
  }

  lemma AscendingIsRange(r: seq<int>, n: nat)
    requires |r| == n && (forall x :: x in r <==> 0 <= x < n)
    requires forall i, j :: 0 <= i < j < |r| ==> r[i] < r[j]
    ensures r == Range(n)
  {
    forall k | 0 <= k < n
      ensures r[k] == k
    {
      AscendingFromZero(r, n, k);
      AscendingToEnd(r, n, k);
    }
  }

  lemma OrderedRange(n: nat)
    ensures InOrder(UpTo(n)) == Range(n)
  {
    AscendingIsRange(InOrder(UpTo(n)), n);
  }

  function ValuesAt<K(==), V(==)>(t: Children<K, V>, owner: K, ordinals: seq<int>): (r: seq<V>)
    requires forall i :: i in ordinals ==> ChildKey(owner, i) in t
    ensures |r| == |ordinals|
    ensures forall i :: 0 <= i < |r| ==> r[i] == t[ChildKey(owner, ordinals[i])]
  {
    seq(|ordinals|, i requires 0 <= i < |ordinals| => t[ChildKey(owner, ordinals[i])])
  }

  datatype Incomplete = Incomplete

  predicate RequireContiguous(ordinals: seq<int>, expected: int) {
    |ordinals| == expected && ordinals == Range(|ordinals|)
  }

  function Read<K(==), V(==)>(t: Children<K, V>, owner: K, count: int): (r: Result<seq<V>, Incomplete>) {
    var ordinals := InOrder(Ordinals(t, owner));
    assert forall i :: i in ordinals ==> ChildKey(owner, i) in t;
    if RequireContiguous(ordinals, count) then Ok(ValuesAt(t, owner, ordinals)) else Err(Incomplete)
  }

  lemma ContiguousIsOrderedRange(s: set<int>, n: nat)
    ensures InOrder(s) == Range(n) <==> s == UpTo(n)
  {
    OrderedRange(n);
    if InOrder(s) == Range(n) {
      forall x
        ensures x in s <==> x in UpTo(n)
      {
        assert x in s <==> x in InOrder(s);
        assert x in UpTo(n) <==> x in InOrder(UpTo(n));
      }
    }
  }

  /** The reader raises exactly when the ordinals are not 0..count-1. */
  lemma ReadsIffContiguous<K(!new), V>(t: Children<K, V>, owner: K, count: int)
    ensures Read(t, owner, count).Ok? <==> Contiguous(t, owner, count)
    ensures Read(t, owner, count).Ok? ==>
              && |Read(t, owner, count).value| == count
              && forall i :: 0 <= i < count ==>
                   ChildKey(owner, i) in t && Read(t, owner, count).value[i] == t[ChildKey(owner, i)]
  {
    var ordinals := InOrder(Ordinals(t, owner));
    if 0 <= count {
      ContiguousIsOrderedRange(Ordinals(t, owner), count);
      ContiguousOrdinals(t, owner, count);
    }
    if Read(t, owner, count).Ok? {
      forall i | 0 <= i < count
        ensures ChildKey(owner, i) in t && ordinals[i] == i
      {
        OrdinalsAre(t, owner, i);
      }
    }
  }

  // ---- Staging a whole list of children ----

  predicate InList<K(==), V>(k: ChildKey<K>, owner: K, values: seq<V>) {
    k.owner == owner && 0 <= k.ordinal < |values|
  }

  function Staged<K(==,!new), V(==)>(t: Children<K, V>, owner: K, values: seq<V>): (r: Children<K, V>)
    ensures forall k :: k in r <==> k in t || InList(k, owner, values)
    ensures forall k :: k in r ==> r[k] == if InList(k, owner, values) then values[k.ordinal] else t[k]
    decreases |values|
  {
    if values == [] then t
    else
      var last := |values| - 1;
      Staged(t, owner, values[..last])[ChildKey(owner, last) := values[last]]
  }

  predicate Distinct<V(==)>(values: seq<V>) {
    forall i, j :: 0 <= i < j < |values| ==> values[i] != values[j]
  }

  // ---- One row per value ----

  /** The UNIQUE key: no owner has a value twice. */
  ghost predicate NoRepeats<K(!new), V(!new)>(t: Children<K, V>) {
    forall k, l :: k in t && l in t && k.owner == l.owner && t[k] == t[l] ==> k == l
  }

  lemma InsertKeepsNoRepeats<K(!new), V(!new)>(t: Children<K, V>, parents: set<K>, owner: K, ordinal: int, value: V)
    requires NoRepeats(t) && AcceptsChild(t, parents, owner, ordinal, value)
    ensures NoRepeats(t[ChildKey(owner, ordinal) := value])
  {
  }

  lemma StagedKeepsNoRepeats<K(!new), V(!new)>(t: Children<K, V>, owner: K, values: seq<V>)
    requires NoRepeats(t) && Distinct(values) && forall i :: ChildKey(owner, i) !in t
    ensures NoRepeats(Staged(t, owner, values))
  {
    var later := Staged(t, owner, values);
    forall k, l | k in later && l in later && k.owner == l.owner && later[k] == later[l]
      ensures k == l
    {
      assert k == ChildKey(k.owner, k.ordinal) && l == ChildKey(l.owner, l.ordinal);
    }
  }

  /** Hence what a reader collects has no repetition. */
  lemma ReadIsDistinct<K(!new), V(!new)>(t: Children<K, V>, owner: K, count: int)
    requires NoRepeats(t) && Read(t, owner, count).Ok?
    ensures Distinct(Read(t, owner, count).value)
  {
    ReadsIffContiguous(t, owner, count);
    var values := Read(t, owner, count).value;
    forall i, j | 0 <= i < j < |values|
      ensures values[i] != values[j]
    {
      assert ChildKey(owner, i) != ChildKey(owner, j);
    }
  }

  lemma ReadsAsListed<K(!new), V>(t: Children<K, V>, owner: K, values: seq<V>)
    requires forall i :: ChildKey(owner, i) in t <==> 0 <= i < |values|
    requires forall i :: 0 <= i < |values| ==> t[ChildKey(owner, i)] == values[i]
    ensures Contiguous(t, owner, |values|) && Read(t, owner, |values|) == Ok(values)
  {
    ReadsIffContiguous(t, owner, |values|);
    assert Read(t, owner, |values|).value == values;
  }

  /** Children staged for an owner that had none are read back as given. */
  lemma StagedReadsBack<K(!new), V>(t: Children<K, V>, owner: K, values: seq<V>)
    requires forall i :: ChildKey(owner, i) !in t
    ensures Contiguous(Staged(t, owner, values), owner, |values|)
    ensures Read(Staged(t, owner, values), owner, |values|) == Ok(values)
  {
    var t' := Staged(t, owner, values);
    forall i
      ensures ChildKey(owner, i) in t' <==> 0 <= i < |values|
      ensures 0 <= i < |values| ==> t'[ChildKey(owner, i)] == values[i]
    {
      assert InList(ChildKey(owner, i), owner, values) <==> 0 <= i < |values|;
    }
    ReadsAsListed(t', owner, values);
  }

  // ---- Stability ----

  ghost predicate SameChildren<K(!new), V>(t: Children<K, V>, t': Children<K, V>, owner: K) {
    && (forall i :: ChildKey(owner, i) in t <==> ChildKey(owner, i) in t')
    && (forall i :: ChildKey(owner, i) in t ==> t[ChildKey(owner, i)] == t'[ChildKey(owner, i)])
  }

  lemma SameChildrenStayContiguous<K(!new), V>(t: Children<K, V>, t': Children<K, V>, owner: K, count: int)
    requires SameChildren(t, t', owner) && Contiguous(t, owner, count)
    ensures Contiguous(t', owner, count)
  {
  }

  lemma SameChildrenReadTheSame<K(!new), V>(t: Children<K, V>, t': Children<K, V>, owner: K, count: int)
    requires SameChildren(t, t', owner)
    ensures Ordinals(t, owner) == Ordinals(t', owner)
    ensures Read(t, owner, count) == Read(t', owner, count)
  {
    forall i
      ensures i in Ordinals(t, owner) <==> i in Ordinals(t', owner)
    {
      OrdinalsAre(t, owner, i);
      OrdinalsAre(t', owner, i);
    }
    var ordinals := InOrder(Ordinals(t, owner));
    forall i | i in ordinals
      ensures ChildKey(owner, i) in t && ChildKey(owner, i) in t'
    {
      OrdinalsAre(t, owner, i);
    }
    assert ValuesAt(t, owner, ordinals) == ValuesAt(t', owner, ordinals);
  }

  /** The second table adds the given children under a new owner and touches no other. */
  ghost predicate Adds<K(!new), V>(t: Children<K, V>, t': Children<K, V>, owner: K, count: nat) {
    && Contiguous(t', owner, count)
    && (forall other :: other != owner ==> SameChildren(t, t', other))
    && (NonNegative(t) ==> NonNegative(t'))
  }

  lemma StagedAdds<K(!new), V>(t: Children<K, V>, owner: K, values: seq<V>)
    requires forall i :: ChildKey(owner, i) !in t
    ensures Adds(t, Staged(t, owner, values), owner, |values|)
  {
    var t' := Staged(t, owner, values);
    forall other | other != owner
      ensures SameChildren(t, t', other)
    {
      assert forall i :: !InList(ChildKey(other, i), owner, values);
    }
    assert forall i :: InList(ChildKey(owner, i), owner, values) <==> 0 <= i < |values|;
  }

  lemma StagedGrows<K(!new), V>(t: Children<K, V>, owner: K, values: seq<V>, i: nat)
    requires i < |values|
    ensures Staged(t, owner, values[..i + 1]) == Staged(t, owner, values[..i])[ChildKey(owner, i) := values[i]]
  {
    assert values[..i + 1][..i] == values[..i];
  }

  /** The next child of a growing list is accepted exactly when it repeats no earlier one. */
  lemma NextChildAccepted<K(!new), V>(t: Children<K, V>, parents: set<K>, owner: K, values: seq<V>, i: nat)
    requires (forall k :: k in t ==> k.owner in parents) && i < |values| && Distinct(values[..i])
    ensures AcceptsChild(Staged(t, owner, values[..i]), parents, owner, i, values[i]) <==>
              owner !in parents && Distinct(values[..i + 1])
  {
    var head := values[..i];
    var staged := Staged(t, owner, head);
    if owner !in parents {
      if !Distinct(values[..i + 1]) {
        var j :| 0 <= j < i && values[j] == values[i];
        assert InList(ChildKey(owner, j), owner, head);
        assert ChildKey(owner, j) in staged && staged[ChildKey(owner, j)] == values[i];
      }
      assert forall k :: k in staged && k.owner == owner ==> InList(k, owner, head);
    }
  }

  lemma DistinctPrefix<V>(values: seq<V>, i: nat)
    requires i <= |values|
    ensures Distinct(values) ==> Distinct(values[..i])
  {
  }

  ghost predicate Progress<K(!new), V>(t: Children<K, V>, parents: set<K>, owner: K, values: seq<V>,
                                       i: nat, rows: Children<K, V>)
    requires i <= |values|
  {
    && Distinct(values[..i]) && (i > 0 ==> owner !in parents)
    && rows == Staged(t, owner, values[..i])
  }

  lemma ProgressStep<K(!new), V>(t: Children<K, V>, parents: set<K>, owner: K, values: seq<V>,
                                 i: nat, rows: Children<K, V>)
    requires forall k :: k in t ==> k.owner in parents
    requires i < |values| && Progress(t, parents, owner, values, i, rows)
    ensures if AcceptsChild(rows, parents, owner, i, values[i])
            then Progress(t, parents, owner, values, i + 1, rows[ChildKey(owner, i) := values[i]])
            else owner in parents || !Distinct(values)
  {
    NextChildAccepted(t, parents, owner, values, i);
    StagedGrows(t, owner, values, i);
    DistinctPrefix(values, i + 1);
  }

  lemma ProgressDone<K(!new), V>(t: Children<K, V>, parents: set<K>, owner: K, values: seq<V>, rows: Children<K, V>)
    requires Progress(t, parents, owner, values, |values|, rows)
    ensures (values == [] || owner !in parents) && Distinct(values) && rows == Staged(t, owner, values)
  {
    assert values[..|values|] == values;
  }

  /** The loop that adds the numbered children of one new parent. */
  method StageChildren<K(==,!new), V(==)>(t: Children<K, V>, parents: set<K>, owner: K, values: seq<V>)
      returns (ok: bool, rows: Children<K, V>)
    requires forall k :: k in t ==> k.owner in parents
    ensures ok <==> (values == [] || owner !in parents) && Distinct(values)
    ensures ok ==> rows == Staged(t, owner, values)
  {
    rows := t;
    for ordinal := 0 to |values|
      invariant Progress(t, parents, owner, values, ordinal, rows)
    {
      ProgressStep(t, parents, owner, values, ordinal, rows);
      if !AcceptsChild(rows, parents, owner, ordinal, values[ordinal]) { return false, rows; }
      rows := rows[ChildKey(owner, ordinal) := values[ordinal]];
    }
    ProgressDone(t, parents, owner, values, rows);
    ok := true;
  }

  /** Staged children satisfy the seal of a parent that counts them. */
  lemma SealAfterStaging<K(!new), V>(t: Children<K, V>, parents: set<K>, owner: K, values: seq<V>)
    requires NonNegative(t) && forall k :: k in t ==> k.owner in parents
    ensures values != [] && owner !in parents ==> SealHolds(Staged(t, owner, values), owner, |values|)
    ensures owner !in parents ==> SealHoldsOrEmpty(Staged(t, owner, values), owner, |values|)
  {
    if owner !in parents {
      StagedReadsBack(t, owner, values);
      SealOrEmptyMeansContiguous(Staged(t, owner, values), owner, |values|);
    }
    if values != [] && owner !in parents {
      StagedReadsBack(t, owner, values);
      SealMeansContiguous(Staged(t, owner, values), owner, |values|);
    }
  }

  // ---- Children that hold a given list ----

  /** The owner's children are exactly the list, numbered from zero. */
  ghost predicate Holds<K(!new), V>(t: Children<K, V>, owner: K, values: seq<V>) {
    && (forall i :: ChildKey(owner, i) in t <==> 0 <= i < |values|)
    && (forall i :: 0 <= i < |values| ==> t[ChildKey(owner, i)] == values[i])
  }

  /** SELECT value … ORDER BY ordinal, without a check on the ordinals. */
  function InOrdinalOrder<K(==), V(==)>(t: Children<K, V>, owner: K): seq<V> {
    var ordinals := InOrder(Ordinals(t, owner));
    assert forall i :: i in ordinals ==> ChildKey(owner, i) in t;
    ValuesAt(t, owner, ordinals)
  }

  lemma HeldListIsRead<K(!new), V>(t: Children<K, V>, owner: K, values: seq<V>)
    requires Holds(t, owner, values)
    ensures InOrdinalOrder(t, owner) == values
  {
    ReadsIffContiguous(t, owner, |values|);
    assert Read(t, owner, |values|).value == values;
  }

  lemma StagedHolds<K(!new), V>(t: Children<K, V>, owner: K, values: seq<V>)
    requires forall i :: ChildKey(owner, i) !in t
    ensures Holds(Staged(t, owner, values), owner, values)
    ensures forall other :: other != owner ==> SameChildren(t, Staged(t, owner, values), other)
  {
    StagedReadsBack(t, owner, values);
    StagedAdds(t, owner, values);
    assert forall i :: InList(ChildKey(owner, i), owner, values) <==> 0 <= i < |values|;
  }

  lemma SameChildrenHold<K(!new), V>(t: Children<K, V>, t': Children<K, V>, owner: K, values: seq<V>)
    requires SameChildren(t, t', owner) && Holds(t, owner, values)
    ensures Holds(t', owner, values)
  {
  }

  function Without<K(==), V>(t: Children<K, V>, owner: K): Children<K, V> {
    map k | k in t && k.owner != owner :: t[k]
  }

  /** DELETE the owner's children, then insert the list. */
  function Replaced<K(==,!new), V(==)>(t: Children<K, V>, owner: K, values: seq<V>): Children<K, V> {
    Staged(Without(t, owner), owner, values)
  }

  lemma ReplacedHolds<K(!new), V>(t: Children<K, V>, owner: K, values: seq<V>)
    ensures Holds(Replaced(t, owner, values), owner, values)
    ensures forall other :: other != owner ==> SameChildren(t, Replaced(t, owner, values), other)
    ensures forall k :: k in Replaced(t, owner, values) ==> k in t || k.owner == owner
  {
    var rest := Without(t, owner);
    StagedHolds(rest, owner, values);
    forall other | other != owner
      ensures SameChildren(t, Replaced(t, owner, values), other)
    {
      assert SameChildren(t, rest, other) && SameChildren(rest, Staged(rest, owner, values), other);
    }
  }

  /** Replacing a list by itself changes nothing. */
  lemma ReplacingHeldList<K(!new), V>(t: Children<K, V>, owner: K, values: seq<V>)
    requires Holds(t, owner, values)
    ensures Replaced(t, owner, values) == t
  {
    var t' := Replaced(t, owner, values);
    ReplacedHolds(t, owner, values);
    forall k
      ensures k in t <==> k in t'
      ensures k in t ==> t[k] == t'[k]
    {
      assert k == ChildKey(k.owner, k.ordinal);
      if k.owner != owner { assert SameChildren(t, t', k.owner); }
    }
  }

  /** The loop that numbers a list of rows without looking for repeated values. */
  method InsertNumbered<K(==,!new), V(==)>(t: Children<K, V>, owner: K, values: seq<V>) returns (rows: Children<K, V>)
    ensures rows == Staged(t, owner, values)
  {
    rows := t;
    for ordinal := 0 to |values|
      invariant rows == Staged(t, owner, values[..ordinal])
    {
      StagedGrows(t, owner, values, ordinal);
      rows := rows[ChildKey(owner, ordinal) := values[ordinal]];
    }
    assert values[..|values|] == values;
  }
}
