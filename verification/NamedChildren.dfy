/** Children that are identifiers. */
module NamedChildren {
  import opened Identifiers
  import opened SealedRows

  ghost predicate Named<K(!new)>(t: Children<K, string>, owner: K) {
    forall i :: ChildKey(owner, i) in t ==> OpaqueId(t[ChildKey(owner, i)])
  }

  lemma ReadIsNamedIff<K(!new)>(t: Children<K, string>, owner: K, count: int)
    requires Read(t, owner, count).Ok?
    ensures AllOpaque(Read(t, owner, count).value) <==> Named(t, owner)
  {
    ReadsIffContiguous(t, owner, count);
    var values := Read(t, owner, count).value;
    hide Read, OpaqueId;
    if AllOpaque(values) {
      forall i | ChildKey(owner, i) in t ensures OpaqueId(t[ChildKey(owner, i)]) {
        assert values[i] in values;
      }
    }
  }

  lemma StagedIsNamedIff<K(!new)>(t: Children<K, string>, owner: K, values: seq<string>)
    requires forall i :: ChildKey(owner, i) !in t
    ensures Named(Staged(t, owner, values), owner) <==> AllOpaque(values)
  {
    StagedReadsBack(t, owner, values);
    hide Read, Staged, OpaqueId;
    ReadIsNamedIff(Staged(t, owner, values), owner, |values|);
  }
}
