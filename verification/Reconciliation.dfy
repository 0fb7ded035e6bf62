/** Finding inventory files that share a legacy key, a hash or a version family. */
module Reconciliation {
  import opened Sequences
  import opened TextOrder

  datatype SourceFile = SourceFile(path: string, sha256: string, legacyKey: string, group: string)

  /** What a record and a group member say of a file. */
  datatype Entry = Entry(path: string, sha256: string, legacyKey: string)

  /** A deferred mismatch; its reason lists the source groups of the candidates. */
  datatype Record = Record(path: string, sha256: string, legacyKey: string, groups: seq<string>)

  datatype Group = Group(key: string, members: seq<string>, hashes: seq<string>)

  datatype Summary = Summary(sameHash: seq<Group>, differentHash: seq<Group>, hashDuplicates: seq<Group>,
                             families: seq<Group>)

  // ---- Dictionaries of lists ----

  type Dict = map<string, seq<SourceFile>>

  function LegacyKey(f: SourceFile): string { f.legacyKey }

  function Hash(f: SourceFile): string { f.sha256 }

  /** The files with a key, in the order of the manifest. */
  function Bucket(files: seq<SourceFile>, keyOf: SourceFile -> string, key: string): (r: seq<SourceFile>)
    ensures forall f :: f in r <==> f in files && keyOf(f) == key
  {
    if files == [] then []
    else
      var last := files[|files| - 1];
      Bucket(files[..|files| - 1], keyOf, key) + if keyOf(last) == key then [last] else []
  }

  function Keys(files: seq<SourceFile>, keyOf: SourceFile -> string): set<string> {
    set f <- files :: keyOf(f)
  }

  ghost predicate IsDict(d: Dict, files: seq<SourceFile>, keyOf: SourceFile -> string) {
    d.Keys == Keys(files, keyOf) && forall key :: key in d ==> d[key] == Bucket(files, keyOf, key)
  }

  function Appended(d: Dict, key: string, f: SourceFile): Dict {
    d[key := (if key in d then d[key] else []) + [f]]
  }

  lemma BucketAppend(files: seq<SourceFile>, keyOf: SourceFile -> string, key: string, f: SourceFile)
    ensures Bucket(files + [f], keyOf, key) == Bucket(files, keyOf, key) + if keyOf(f) == key then [f] else []
  {
    assert (files + [f])[..|files|] == files;
  }

  lemma NoBucket(files: seq<SourceFile>, keyOf: SourceFile -> string, key: string)
    requires key !in Keys(files, keyOf)
    ensures Bucket(files, keyOf, key) == []
  {
    assert forall f :: f !in Bucket(files, keyOf, key);
  }

  lemma AppendedAt(d: Dict, files: seq<SourceFile>, keyOf: SourceFile -> string, f: SourceFile, key: string)
    requires IsDict(d, files, keyOf)
    ensures key in Appended(d, keyOf(f), f) <==> key in Keys(files + [f], keyOf)
    ensures key in Appended(d, keyOf(f), f) ==> Appended(d, keyOf(f), f)[key] == Bucket(files + [f], keyOf, key)
  {
    BucketAppend(files, keyOf, key, f);
    hide Bucket;
    if key !in d { NoBucket(files, keyOf, key); }
  }

  lemma AppendedIsDict(d: Dict, files: seq<SourceFile>, keyOf: SourceFile -> string, f: SourceFile)
    requires IsDict(d, files, keyOf)
    ensures IsDict(Appended(d, keyOf(f), f), files + [f], keyOf)
  {
    hide Bucket, Keys, Appended;
    forall key
      ensures key in Appended(d, keyOf(f), f) <==> key in Keys(files + [f], keyOf)
      ensures key in Appended(d, keyOf(f), f) ==> Appended(d, keyOf(f), f)[key] == Bucket(files + [f], keyOf, key)
    {
      AppendedAt(d, files, keyOf, f, key);
    }
  }

  // ---- Lists built key by key ----

  function Flat<A>(keys: seq<string>, part: string -> seq<A>): seq<A> {
    if keys == [] then [] else Flat(keys[..|keys| - 1], part) + part(keys[|keys| - 1])
  }

  lemma FlatOfNone<A>(part: string -> seq<A>)
    ensures Flat([], part) == []
  {
  }

  lemma FlatStep<A>(keys: seq<string>, part: string -> seq<A>, i: nat)
    requires i < |keys|
    ensures Flat(keys[..i + 1], part) == Flat(keys[..i], part) + part(keys[i])
  {
    assert keys[..i + 1][..i] == keys[..i];
  }

  /** A reading of a list that distributes over concatenation. */
  ghost predicate Homomorphic<A(!new), T(!new)>(h: seq<A> -> seq<T>) {
    h([]) == [] && forall a, b :: h(a + b) == h(a) + h(b)
  }

  ghost predicate Tagged<A(!new), T(!new)>(keys: seq<string>, part: string -> seq<A>, h: seq<A> -> seq<T>,
                                           tag: T -> string)
  {
    forall k, y :: k in keys && y in h(part(k)) ==> tag(y) == k
  }

  /** Whatever is read from the whole is read from the part of its own key, equally often. */
  lemma {:induction false} FlatCount<A(!new), T(!new)>(keys: seq<string>, part: string -> seq<A>, h: seq<A> -> seq<T>,
                                                       tag: T -> string, x: T)
    requires Ordered(keys) && Homomorphic(h) && Tagged(keys, part, h, tag)
    ensures multiset(h(Flat(keys, part)))[x] == if tag(x) in keys then multiset(h(part(tag(x))))[x] else 0
  {
    if keys != [] {
      var front, last := keys[..|keys| - 1], keys[|keys| - 1];
      assert keys == front + [last];
      FlatCount(front, part, h, tag, x);
      assert h(Flat(keys, part)) == h(Flat(front, part)) + h(part(last));
      if last in front { BeforeIsStrict(last); }
      if tag(x) != last { assert x !in h(part(last)); }
    }
  }

  // ---- The reconciliation records ----

  function Hashes(files: seq<SourceFile>): set<string> {
    set f <- files :: f.sha256
  }

  function SourceGroups(files: seq<SourceFile>): set<string> {
    set f <- files :: f.group
  }

  function RecordEach(files: seq<SourceFile>, groups: seq<string>): seq<Record> {
    if files == [] then []
    else
      var f := files[|files| - 1];
      RecordEach(files[..|files| - 1], groups) + [Record(f.path, f.sha256, f.legacyKey, groups)]
  }

  predicate Skipped(candidates: seq<SourceFile>) {
    |candidates| < 2 || |Hashes(candidates)| == 1
  }

  function RecordsFor(candidates: seq<SourceFile>): seq<Record> {
    if Skipped(candidates) then [] else RecordEach(candidates, Ascending(SourceGroups(candidates)))
  }

  function RecordPart(files: seq<SourceFile>): string -> seq<Record> {
    key => RecordsFor(Bucket(files, LegacyKey, key))
  }

  function Records(files: seq<SourceFile>): seq<Record> {
    Flat(Ascending(Keys(files, LegacyKey)), RecordPart(files))
  }

  method BuildReconciliation(files: seq<SourceFile>) returns (records: seq<Record>)
    ensures records == Records(files)
  {
    hide Ascending, Bucket, Hashes, RecordEach, SourceGroups, Appended;
    var byKey: Dict := map[];
    for i := 0 to |files|
      invariant IsDict(byKey, files[..i], LegacyKey)
    {
      AppendedIsDict(byKey, files[..i], LegacyKey, files[i]);
      assert files[..i + 1] == files[..i] + [files[i]];
      byKey := Appended(byKey, files[i].legacyKey, files[i]);
    }
    assert files[..|files|] == files;
    records := [];
    var keys := Ascending(byKey.Keys);
    for i := 0 to |keys|
      invariant records == Flat(keys[..i], RecordPart(files))
    {
      FlatStep(keys, RecordPart(files), i);
      assert keys[i] in byKey;
      var candidates := byKey[keys[i]];
      if |candidates| < 2 || |Hashes(candidates)| == 1 { continue; }
      records := AppendRecords(records, candidates);
    }
    assert keys[..|keys|] == keys;
  }

  method AppendRecords(before: seq<Record>, candidates: seq<SourceFile>) returns (records: seq<Record>)
    ensures records == before + RecordEach(candidates, Ascending(SourceGroups(candidates)))
  {
    hide Ascending;
    var groups := Ascending(SourceGroups(candidates));
    records := before;
    for i := 0 to |candidates|
      invariant records == before + RecordEach(candidates[..i], groups)
    {
      var f := candidates[i];
      assert candidates[..i + 1][..i] == candidates[..i];
      records := records + [Record(f.path, f.sha256, f.legacyKey, groups)];
    }
    assert candidates[..|candidates|] == candidates;
  }

  function EntryOf(f: SourceFile): Entry {
    Entry(f.path, f.sha256, f.legacyKey)
  }

  function EntryKey(e: Entry): string { e.legacyKey }

  function EntryHash(e: Entry): string { e.sha256 }

  function Entries(files: seq<SourceFile>): seq<Entry> {
    if files == [] then [] else Entries(files[..|files| - 1]) + [EntryOf(files[|files| - 1])]
  }

  function RecordEntries(records: seq<Record>): seq<Entry> {
    if records == [] then []
    else
      var r := records[|records| - 1];
      RecordEntries(records[..|records| - 1]) + [Entry(r.path, r.sha256, r.legacyKey)]
  }

  lemma RecordEntriesAppend(a: seq<Record>, x: Record)
    ensures RecordEntries(a + [x]) == RecordEntries(a) + [Entry(x.path, x.sha256, x.legacyKey)]
  {
    assert (a + [x])[..|a|] == a;
  }

  lemma {:induction false} RecordEntriesConcat(a: seq<Record>, b: seq<Record>)
    ensures RecordEntries(a + b) == RecordEntries(a) + RecordEntries(b)
  {
    if b == [] {
      assert a + b == a;
    } else {
      var front, last := b[..|b| - 1], b[|b| - 1];
      hide RecordEntries;
      assert b == front + [last];
      RecordEntriesConcat(a, front);
      RecordEntriesAppend(a + front, last);
      RecordEntriesAppend(front, last);
      Associative(a, front, [last]);
      Associative(RecordEntries(a), RecordEntries(front), [Entry(last.path, last.sha256, last.legacyKey)]);
    }
  }

  lemma {:induction false} RecordEachKeepsEntries(files: seq<SourceFile>, groups: seq<string>)
    ensures RecordEntries(RecordEach(files, groups)) == Entries(files)
  {
    if files != [] {
      RecordEachKeepsEntries(files[..|files| - 1], groups);
    }
  }

  /** Of the files with a key, a bucket has each as often as the list it is taken from. */
  lemma {:induction false} BucketCount(files: seq<SourceFile>, keyOf: SourceFile -> string, tag: Entry -> string,
                                       key: string, e: Entry)
    requires forall f :: keyOf(f) == tag(EntryOf(f))
    ensures multiset(Entries(Bucket(files, keyOf, key)))[e] == if tag(e) == key then multiset(Entries(files))[e] else 0
  {
    if files != [] {
      BucketCount(files[..|files| - 1], keyOf, tag, key, e);
      EntriesAppend(Bucket(files[..|files| - 1], keyOf, key), files[|files| - 1]);
    }
  }

  lemma EntriesAppend(files: seq<SourceFile>, f: SourceFile)
    ensures Entries(files + [f]) == Entries(files) + [EntryOf(f)]
    ensures files + [] == files
  {
  }

  lemma {:induction false} EntriesMembers(files: seq<SourceFile>, e: Entry)
    ensures e in Entries(files) <==> exists f :: f in files && EntryOf(f) == e
  {
    if files != [] {
      EntriesMembers(files[..|files| - 1], e);
      assert files == files[..|files| - 1] + [files[|files| - 1]];
    }
  }

  /** Another file has the same legacy key and a different hash. */
  ghost predicate Contradicted(files: seq<SourceFile>, e: Entry) {
    exists f :: f in files && f.legacyKey == e.legacyKey && f.sha256 != e.sha256
  }

  lemma TwoMembers(s: set<string>, a: string, b: string)
    requires a in s && b in s && a != b
    ensures |s| >= 2
  {
    assert |s - {a}| == |s| - 1;
    assert b in s - {a};
  }

  lemma SingleHash(candidates: seq<SourceFile>, f: SourceFile)
    requires f in candidates
    ensures |Hashes(candidates)| == 1 <==> forall g :: g in candidates ==> g.sha256 == f.sha256
    ensures |candidates| < 2 ==> |Hashes(candidates)| == 1
  {
    assert f.sha256 in Hashes(candidates);
    if forall g :: g in candidates ==> g.sha256 == f.sha256 {
      assert Hashes(candidates) == {f.sha256};
    } else {
      var g :| g in candidates && g.sha256 != f.sha256;
      TwoMembers(Hashes(candidates), f.sha256, g.sha256);
    }
  }

  lemma SkippedIffUncontradicted(files: seq<SourceFile>, e: Entry)
    requires e in Entries(files)
    ensures Skipped(Bucket(files, LegacyKey, e.legacyKey)) <==> !Contradicted(files, e)
  {
    EntriesMembers(files, e);
    var f :| f in files && EntryOf(f) == e;
    SingleHash(Bucket(files, LegacyKey, e.legacyKey), f);
  }

  lemma RecordsOfKey(files: seq<SourceFile>, key: string, e: Entry)
    ensures multiset(RecordEntries(RecordPart(files)(key)))[e]
              == if e.legacyKey == key && Contradicted(files, e) then multiset(Entries(files))[e] else 0
  {
    hide Ascending, Bucket, SourceGroups, Hashes, RecordEach, Contradicted;
    var candidates := Bucket(files, LegacyKey, key);
    RecordEachKeepsEntries(candidates, Ascending(SourceGroups(candidates)));
    BucketCount(files, LegacyKey, EntryKey, key, e);
    if e.legacyKey == key && e in Entries(files) { SkippedIffUncontradicted(files, e); }
  }

  lemma RecordsAreTagged(files: seq<SourceFile>)
    ensures Tagged(Ascending(Keys(files, LegacyKey)), RecordPart(files), RecordEntries, EntryKey)
  {
    hide Ascending, RecordPart;
    forall key, e | key in Ascending(Keys(files, LegacyKey)) && e in RecordEntries(RecordPart(files)(key))
      ensures e.legacyKey == key
    {
      RecordsOfKey(files, key, e);
    }
  }

  /** A file is recorded, exactly as often as the manifest lists it, if and only if another file has
      its legacy key and a different hash. */
  lemma RecordedIffContradicted(files: seq<SourceFile>, e: Entry)
    ensures multiset(RecordEntries(Records(files)))[e]
              == if Contradicted(files, e) then multiset(Entries(files))[e] else 0
  {
    hide Ascending, RecordPart;
    RecordEntriesDistribute();
    RecordsAreTagged(files);
    FlatCount(Ascending(Keys(files, LegacyKey)), RecordPart(files), RecordEntries, EntryKey, e);
    RecordsOfKey(files, e.legacyKey, e);
    if e in Entries(files) { EntriesMembers(files, e); }
  }

  lemma RecordEntriesDistribute()
    ensures Homomorphic(RecordEntries)
  {
    forall a, b ensures RecordEntries(a + b) == RecordEntries(a) + RecordEntries(b) { RecordEntriesConcat(a, b); }
  }

  // ---- The summary ----

  function Paths(files: seq<SourceFile>): seq<string> {
    if files == [] then [] else Paths(files[..|files| - 1]) + [files[|files| - 1].path]
  }

  function GroupOf(key: string, items: seq<SourceFile>): Group {
    Group(key, Sorted(Paths(items)), Ascending(Hashes(items)))
  }

  function IfSeveral(key: string, items: seq<SourceFile>): seq<Group> {
    if |items| > 1 then [GroupOf(key, items)] else []
  }

  function SharedPart(files: seq<SourceFile>, keyOf: SourceFile -> string): string -> seq<Group> {
    key => IfSeveral(key, Bucket(files, keyOf, key))
  }

  function ConflictPart(files: seq<SourceFile>): string -> seq<Group> {
    key =>
      var items := Bucket(files, LegacyKey, key);
      if |items| > 1 && |Hashes(items)| > 1 then [GroupOf(key, items)] else []
  }

  /** The groups of one key: the identical files, hash by hash. */
  function SubsetPart(key: string, items: seq<SourceFile>): string -> seq<Group> {
    sha => IfSeveral(key, Bucket(items, Hash, sha))
  }

  function SamePart(files: seq<SourceFile>): string -> seq<Group> {
    key =>
      var items := Bucket(files, LegacyKey, key);
      if |items| > 1 then Flat(Ascending(Hashes(items)), SubsetPart(key, items)) else []
  }

  function SharedGroups(files: seq<SourceFile>, keyOf: SourceFile -> string): seq<Group> {
    Flat(Ascending(Keys(files, keyOf)), SharedPart(files, keyOf))
  }

  function ConflictGroups(files: seq<SourceFile>): seq<Group> {
    Flat(Ascending(Keys(files, LegacyKey)), ConflictPart(files))
  }

  function SameGroups(files: seq<SourceFile>): seq<Group> {
    Flat(Ascending(Keys(files, LegacyKey)), SamePart(files))
  }

  /** The family of a file is a text made from its name. */
  method ReconcileSummary(files: seq<SourceFile>, family: SourceFile -> string) returns (summary: Summary)
    ensures summary == Summary(SameGroups(files), ConflictGroups(files), SharedGroups(files, Hash),
                               SharedGroups(files, family))
  {
    hide Ascending, Bucket, Hashes, Appended, Sorted, Keys;
    var byKey: Dict, byHash: Dict, byFamily: Dict := map[], map[], map[];
    EmptyDict(LegacyKey);
    EmptyDict(Hash);
    EmptyDict(family);
    for i := 0 to |files|
      invariant IsDict(byKey, files[..i], LegacyKey)
      invariant IsDict(byHash, files[..i], Hash)
      invariant IsDict(byFamily, files[..i], family)
    {
      hide IsDict;
      AppendedIsDict(byKey, files[..i], LegacyKey, files[i]);
      AppendedIsDict(byHash, files[..i], Hash, files[i]);
      AppendedIsDict(byFamily, files[..i], family, files[i]);
      assert files[..i + 1] == files[..i] + [files[i]];
      byKey := Appended(byKey, files[i].legacyKey, files[i]);
      byHash := Appended(byHash, files[i].sha256, files[i]);
      byFamily := Appended(byFamily, family(files[i]), files[i]);
    }
    assert files[..|files|] == files;
    var same, conflict := GroupByKey(byKey, files);
    var duplicates := GroupShared(byHash, files, Hash);
    var families := GroupShared(byFamily, files, family);
    summary := Summary(same, conflict, duplicates, families);
  }

  lemma EmptyDict(keyOf: SourceFile -> string)
    ensures IsDict(map[], [], keyOf)
  {
  }

  method GroupByKey(byKey: Dict, files: seq<SourceFile>) returns (same: seq<Group>, conflict: seq<Group>)
    requires IsDict(byKey, files, LegacyKey)
    ensures same == SameGroups(files) && conflict == ConflictGroups(files)
  {
    hide Ascending, Bucket, Hashes, GroupOf, Keys, Flat;
    same, conflict := [], [];
    FlatOfNone(SamePart(files));
    FlatOfNone(ConflictPart(files));
    var keys := Ascending(byKey.Keys);
    for i := 0 to |keys|
      invariant same == Flat(keys[..i], SamePart(files))
      invariant conflict == Flat(keys[..i], ConflictPart(files))
    {
      FlatStep(keys, SamePart(files), i);
      FlatStep(keys, ConflictPart(files), i);
      assert keys[i] in byKey;
      var items := byKey[keys[i]];
      if |items| > 1 {
        if |Hashes(items)| > 1 { conflict := conflict + [GroupOf(keys[i], items)]; }
        same := AppendSame(same, keys[i], items);
      }
    }
    assert keys[..|keys|] == keys;
  }

  method AppendSame(before: seq<Group>, key: string, items: seq<SourceFile>) returns (same: seq<Group>)
    ensures same == before + Flat(Ascending(Hashes(items)), SubsetPart(key, items))
  {
    hide Ascending, Bucket, Hashes, GroupOf, Flat;
    var hashes := Ascending(Hashes(items));
    same := before;
    FlatOfNone(SubsetPart(key, items));
    for i := 0 to |hashes|
      invariant same == before + Flat(hashes[..i], SubsetPart(key, items))
    {
      FlatStep(hashes, SubsetPart(key, items), i);
      var subset := Bucket(items, Hash, hashes[i]);
      if |subset| > 1 { same := same + [GroupOf(key, subset)]; }
    }
    assert hashes[..|hashes|] == hashes;
  }

  method GroupShared(d: Dict, files: seq<SourceFile>, keyOf: SourceFile -> string) returns (groups: seq<Group>)
    requires IsDict(d, files, keyOf)
    ensures groups == SharedGroups(files, keyOf)
  {
    hide Ascending, Bucket, GroupOf, Keys, Flat;
    groups := [];
    FlatOfNone(SharedPart(files, keyOf));
    var keys := Ascending(d.Keys);
    for i := 0 to |keys|
      invariant groups == Flat(keys[..i], SharedPart(files, keyOf))
    {
      FlatStep(keys, SharedPart(files, keyOf), i);
      assert keys[i] in d;
      if |d[keys[i]]| > 1 { groups := groups + [GroupOf(keys[i], d[keys[i]])]; }
    }
    assert keys[..|keys|] == keys;
  }

  // ---- What the groups hold ----

  /** The members of a list of groups, each with the key of its group. */
  function KeyedPaths(groups: seq<Group>): seq<(string, string)> {
    if groups == [] then []
    else KeyedPaths(groups[..|groups| - 1]) + Keyed(groups[|groups| - 1].key, groups[|groups| - 1].members)
  }

  function Keyed(key: string, paths: seq<string>): seq<(string, string)> {
    if paths == [] then [] else Keyed(key, paths[..|paths| - 1]) + [(key, paths[|paths| - 1])]
  }

  lemma KeyedPathsAppend(a: seq<Group>, x: Group)
    ensures KeyedPaths(a + [x]) == KeyedPaths(a) + Keyed(x.key, x.members)
  {
    assert (a + [x])[..|a|] == a;
  }

  lemma {:induction false} KeyedPathsConcat(a: seq<Group>, b: seq<Group>)
    ensures KeyedPaths(a + b) == KeyedPaths(a) + KeyedPaths(b)
  {
    if b == [] {
      assert a + b == a;
    } else {
      var front, last := b[..|b| - 1], b[|b| - 1];
      hide KeyedPaths;
      assert b == front + [last];
      KeyedPathsConcat(a, front);
      KeyedPathsAppend(a + front, last);
      KeyedPathsAppend(front, last);
      Associative(a, front, [last]);
      Associative(KeyedPaths(a), KeyedPaths(front), Keyed(last.key, last.members));
    }
  }

  lemma KeyedPathsDistribute()
    ensures Homomorphic(KeyedPaths)
  {
    forall a, b ensures KeyedPaths(a + b) == KeyedPaths(a) + KeyedPaths(b) { KeyedPathsConcat(a, b); }
  }

  lemma {:induction false} KeyedCount(key: string, paths: seq<string>, x: (string, string))
    ensures multiset(Keyed(key, paths))[x] == if x.0 == key then multiset(paths)[x.1] else 0
  {
    if paths != [] {
      KeyedCount(key, paths[..|paths| - 1], x);
      assert paths == paths[..|paths| - 1] + [paths[|paths| - 1]];
    }
  }

  lemma OneGroupCount(key: string, items: seq<SourceFile>, x: (string, string))
    ensures multiset(KeyedPaths([GroupOf(key, items)]))[x] == if x.0 == key then multiset(Paths(items))[x.1] else 0
  {
    hide Ascending, Hashes, Sorted;
    var members := Sorted(Paths(items));
    SortedIsSorted(Paths(items));
    KeyedCount(key, members, x);
    assert KeyedPaths([GroupOf(key, items)]) == Keyed(key, members);
  }

  function PairKey(x: (string, string)): string { x.0 }

  /** The groups by hash, and by family, hold exactly the files that share the key with another
      file, each as often as the manifest lists it. */
  lemma SharedMembers(files: seq<SourceFile>, keyOf: SourceFile -> string, key: string, path: string)
    ensures multiset(KeyedPaths(SharedGroups(files, keyOf)))[(key, path)]
              == if |Bucket(files, keyOf, key)| > 1 then multiset(Paths(Bucket(files, keyOf, key)))[path] else 0
  {
    hide Ascending, Bucket, SharedPart, Keys;
    KeyedPathsDistribute();
    var keys := Ascending(Keys(files, keyOf));
    forall k, y | k in keys && y in KeyedPaths(SharedPart(files, keyOf)(k)) ensures PairKey(y) == k {
      SharedPartCount(files, keyOf, k, y);
    }
    FlatCount(keys, SharedPart(files, keyOf), KeyedPaths, PairKey, (key, path));
    SharedPartCount(files, keyOf, key, (key, path));
    if key !in Keys(files, keyOf) { NoBucket(files, keyOf, key); }
  }

  lemma SharedPartCount(files: seq<SourceFile>, keyOf: SourceFile -> string, key: string, x: (string, string))
    ensures multiset(KeyedPaths(SharedPart(files, keyOf)(key)))[x]
              == if x.0 == key && |Bucket(files, keyOf, key)| > 1
                 then multiset(Paths(Bucket(files, keyOf, key)))[x.1] else 0
  {
    hide Bucket;
    OneGroupCount(key, Bucket(files, keyOf, key), x);
  }

  // ---- Conflicts and records agree ----

  function RecordKeyedPaths(records: seq<Record>): seq<(string, string)> {
    if records == [] then []
    else RecordKeyedPaths(records[..|records| - 1]) + [(records[|records| - 1].legacyKey, records[|records| - 1].path)]
  }

  lemma RecordKeyedPathsAppend(a: seq<Record>, x: Record)
    ensures RecordKeyedPaths(a + [x]) == RecordKeyedPaths(a) + [(x.legacyKey, x.path)]
  {
    assert (a + [x])[..|a|] == a;
  }

  lemma {:induction false} RecordKeyedPathsConcat(a: seq<Record>, b: seq<Record>)
    ensures RecordKeyedPaths(a + b) == RecordKeyedPaths(a) + RecordKeyedPaths(b)
  {
    if b == [] {
      assert a + b == a;
    } else {
      var front, last := b[..|b| - 1], b[|b| - 1];
      hide RecordKeyedPaths;
      assert b == front + [last];
      RecordKeyedPathsConcat(a, front);
      RecordKeyedPathsAppend(a + front, last);
      RecordKeyedPathsAppend(front, last);
      Associative(a, front, [last]);
      Associative(RecordKeyedPaths(a), RecordKeyedPaths(front), [(last.legacyKey, last.path)]);
    }
  }

  lemma {:induction false} RecordEachPaths(files: seq<SourceFile>, groups: seq<string>, key: string)
    requires forall f :: f in files ==> f.legacyKey == key
    ensures RecordKeyedPaths(RecordEach(files, groups)) == Keyed(key, Paths(files))
  {
    if files != [] {
      assert files[|files| - 1] in files;
      RecordEachPaths(files[..|files| - 1], groups, key);
    }
  }

  lemma ConflictPartAgrees(files: seq<SourceFile>, key: string)
    requires key in Keys(files, LegacyKey)
    ensures multiset(RecordKeyedPaths(RecordPart(files)(key))) == multiset(KeyedPaths(ConflictPart(files)(key)))
  {
    hide Ascending, Bucket, GroupOf, SourceGroups;
    var items := Bucket(files, LegacyKey, key);
    RecordEachPaths(items, Ascending(SourceGroups(items)), key);
    forall x ensures multiset(Keyed(key, Paths(items)))[x] == multiset(KeyedPaths([GroupOf(key, items)]))[x] {
      OneGroupCount(key, items, x);
      KeyedCount(key, Paths(items), x);
    }
    var f :| f in files && f.legacyKey == key;
    assert f in items && f.sha256 in Hashes(items);
  }

  lemma {:induction false} PartsAgree(files: seq<SourceFile>, keys: seq<string>)
    requires forall key :: key in keys ==> key in Keys(files, LegacyKey)
    ensures multiset(RecordKeyedPaths(Flat(keys, RecordPart(files))))
              == multiset(KeyedPaths(Flat(keys, ConflictPart(files))))
  {
    hide RecordPart, ConflictPart, Keys;
    if keys != [] {
      var front, last := keys[..|keys| - 1], keys[|keys| - 1];
      assert last in keys;
      PartsAgree(files, front);
      ConflictPartAgrees(files, last);
      RecordKeyedPathsConcat(Flat(front, RecordPart(files)), RecordPart(files)(last));
      KeyedPathsConcat(Flat(front, ConflictPart(files)), ConflictPart(files)(last));
    }
  }

  /** The report and the summary, computed apart, name the same conflicting files under the same keys. */
  lemma RecordsAreTheConflicts(files: seq<SourceFile>)
    ensures multiset(RecordKeyedPaths(Records(files))) == multiset(KeyedPaths(ConflictGroups(files)))
  {
    hide Ascending;
    PartsAgree(files, Ascending(Keys(files, LegacyKey)));
  }

  // ---- Identical files ----

  /** The members of groups that state one hash each. */
  function GroupEntries(groups: seq<Group>): seq<Entry> {
    if groups == [] then []
    else
      var g := groups[|groups| - 1];
      GroupEntries(groups[..|groups| - 1]) + MemberEntries(g.key, if g.hashes == [] then "" else g.hashes[0], g.members)
  }

  function MemberEntries(key: string, sha: string, paths: seq<string>): seq<Entry> {
    if paths == [] then [] else MemberEntries(key, sha, paths[..|paths| - 1]) + [Entry(paths[|paths| - 1], sha, key)]
  }

  lemma GroupEntriesAppend(a: seq<Group>, x: Group)
    ensures GroupEntries(a + [x])
              == GroupEntries(a) + MemberEntries(x.key, if x.hashes == [] then "" else x.hashes[0], x.members)
  {
    assert (a + [x])[..|a|] == a;
  }

  lemma {:induction false} GroupEntriesConcat(a: seq<Group>, b: seq<Group>)
    ensures GroupEntries(a + b) == GroupEntries(a) + GroupEntries(b)
  {
    if b == [] {
      assert a + b == a;
    } else {
      var front, last := b[..|b| - 1], b[|b| - 1];
      hide GroupEntries;
      assert b == front + [last];
      GroupEntriesConcat(a, front);
      GroupEntriesAppend(a + front, last);
      GroupEntriesAppend(front, last);
      Associative(a, front, [last]);
      Associative(GroupEntries(a), GroupEntries(front),
                  MemberEntries(last.key, if last.hashes == [] then "" else last.hashes[0], last.members));
    }
  }

  lemma GroupEntriesDistribute()
    ensures Homomorphic(GroupEntries)
  {
    forall a, b ensures GroupEntries(a + b) == GroupEntries(a) + GroupEntries(b) { GroupEntriesConcat(a, b); }
  }

  lemma {:induction false} MemberCount(key: string, sha: string, paths: seq<string>, e: Entry)
    ensures multiset(MemberEntries(key, sha, paths))[e]
            == if e.legacyKey == key && e.sha256 == sha then multiset(paths)[e.path] else 0
  {
    if paths != [] {
      MemberCount(key, sha, paths[..|paths| - 1], e);
      assert paths == paths[..|paths| - 1] + [paths[|paths| - 1]];
    }
  }

  lemma {:induction false} PathsAreEntries(items: seq<SourceFile>, e: Entry)
    requires forall f :: f in items ==> f.legacyKey == e.legacyKey && f.sha256 == e.sha256
    ensures multiset(Paths(items))[e.path] == multiset(Entries(items))[e]
  {
    if items != [] {
      assert items[|items| - 1] in items;
      PathsAreEntries(items[..|items| - 1], e);
    }
  }

  /** The group of the identical files of one key and hash. */
  lemma SubsetCount(key: string, items: seq<SourceFile>, sha: string, e: Entry)
    requires forall f :: f in items ==> f.legacyKey == key
    ensures multiset(GroupEntries(SubsetPart(key, items)(sha)))[e]
              == if e.legacyKey == key && e.sha256 == sha && |Bucket(items, Hash, sha)| > 1
                 then multiset(Entries(items))[e] else 0
  {
    hide Ascending, Bucket, Sorted;
    var subset := Bucket(items, Hash, sha);
    if |subset| > 1 {
      assert subset[0] in subset;
      assert Hashes(subset) == {sha};
      assert Ascending({sha}) == [sha] by { AscendingIsUnique([sha], {sha}); }
      SortedIsSorted(Paths(subset));
      MemberCount(key, sha, Sorted(Paths(subset)), e);
      BucketCount(items, Hash, EntryHash, sha, e);
      if e.legacyKey == key && e.sha256 == sha { PathsAreEntries(subset, e); }
      assert GroupEntries([GroupOf(key, subset)]) == MemberEntries(key, sha, Sorted(Paths(subset)));
    }
  }

  /** The files with the key and the hash. */
  function Twins(files: seq<SourceFile>, e: Entry): seq<SourceFile> {
    Bucket(Bucket(files, LegacyKey, e.legacyKey), Hash, e.sha256)
  }

  lemma SamePartCount(files: seq<SourceFile>, key: string, e: Entry)
    ensures multiset(GroupEntries(SamePart(files)(key)))[e]
              == if e.legacyKey == key && |Twins(files, e)| > 1 then multiset(Entries(files))[e] else 0
  {
    hide Ascending, Bucket, SubsetPart, Flat;
    var items := Bucket(files, LegacyKey, key);
    var hashes := Ascending(Hashes(items));
    GroupEntriesDistribute();
    forall sha, y | sha in hashes && y in GroupEntries(SubsetPart(key, items)(sha)) ensures EntryHash(y) == sha {
      SubsetCount(key, items, sha, y);
    }
    FlatCount(hashes, SubsetPart(key, items), GroupEntries, EntryHash, e);
    SubsetCount(key, items, e.sha256, e);
    BucketCount(files, LegacyKey, EntryKey, key, e);
    BucketIsShorter(items, Hash, e.sha256);
    if e.sha256 !in hashes { NoBucket(items, Hash, e.sha256); }
  }

  lemma {:induction false} BucketIsShorter(files: seq<SourceFile>, keyOf: SourceFile -> string, key: string)
    ensures |Bucket(files, keyOf, key)| <= |files|
  {
    if files != [] { BucketIsShorter(files[..|files| - 1], keyOf, key); }
  }

  ghost predicate Twin(f: SourceFile, e: Entry) {
    f.legacyKey == e.legacyKey && f.sha256 == e.sha256
  }

  lemma TwinsAppend(front: seq<SourceFile>, last: SourceFile, e: Entry)
    ensures |Twins(front + [last], e)| == |Twins(front, e)| + if Twin(last, e) then 1 else 0
  {
    var keyed := Bucket(front, LegacyKey, e.legacyKey);
    hide Bucket;
    BucketAppend(front, LegacyKey, e.legacyKey, last);
    BucketAppend(keyed, Hash, e.sha256, last);
    assert keyed + [] == keyed;
  }

  ghost predicate OnePlace(files: seq<SourceFile>, e: Entry) {
    exists i :: 0 <= i < |files| && Twin(files[i], e)
  }

  ghost predicate TwoPlaces(files: seq<SourceFile>, e: Entry) {
    exists i, j :: 0 <= i < j < |files| && Twin(files[i], e) && Twin(files[j], e)
  }

  lemma PlacesAppend(front: seq<SourceFile>, last: SourceFile, e: Entry)
    ensures OnePlace(front + [last], e) <==> OnePlace(front, e) || Twin(last, e)
    ensures TwoPlaces(front + [last], e) <==> TwoPlaces(front, e) || (OnePlace(front, e) && Twin(last, e))
  {
    hide Twin;
    var files := front + [last];
    assert files[|front|] == last;
    assert forall i :: 0 <= i < |front| ==> files[i] == front[i];
    if TwoPlaces(files, e) {
      var i, j :| 0 <= i < j < |files| && Twin(files[i], e) && Twin(files[j], e);
      assert Twin(front[i], e);
    }
  }

  /** More than one twin means two places in the manifest. */
  lemma {:induction false} TwinsIff(files: seq<SourceFile>, e: Entry)
    ensures |Twins(files, e)| > 1 <==> TwoPlaces(files, e)
    ensures |Twins(files, e)| > 0 <==> OnePlace(files, e)
  {
    if files != [] {
      var front, last := files[..|files| - 1], files[|files| - 1];
      assert files == front + [last];
      hide Twins, OnePlace, TwoPlaces, Twin;
      TwinsIff(front, e);
      TwinsAppend(front, last, e);
      PlacesAppend(front, last, e);
    }
  }

  /** The same-hash groups hold exactly the files that share both key and hash with another file,
      each as often as the manifest lists it. */
  lemma SameGroupMembers(files: seq<SourceFile>, e: Entry)
    ensures multiset(GroupEntries(SameGroups(files)))[e]
            == if TwoPlaces(files, e) then multiset(Entries(files))[e] else 0
  {
    hide Ascending, Bucket, SamePart, Twins, TwoPlaces;
    TwinsIff(files, e);
    GroupEntriesDistribute();
    var keys := Ascending(Keys(files, LegacyKey));
    forall key, y | key in keys && y in GroupEntries(SamePart(files)(key)) ensures EntryKey(y) == key {
      SamePartCount(files, key, y);
    }
    FlatCount(keys, SamePart(files), GroupEntries, EntryKey, e);
    SamePartCount(files, e.legacyKey, e);
    if e in Entries(files) { EntriesMembers(files, e); }
  }
}
