/** Preserving inspected legacy files in a content-addressed store under a verified index. */
module Archive {
  import opened Paths
  import opened SourceReading
  import opened Text
  import opened Wrappers

  datatype ArtifactClass = PublicSource | Personal | Sensitive | CredentialSession

  datatype SourceFile = SourceFile(path: string, group: string, size: int, modified: Time, sha256: string,
                                   legacyKey: string)

  /** `workspace` is resolved. */
  datatype Manifest = Manifest(workspace: Loc, files: seq<SourceFile>, hashes: map<string, string>, generatedAt: Time)

  /** Size and time of each file below the source root. */
  type Signature = map<string, (int, int)>

  datatype Selection = Selection(path: string, reason: string, artifactClass: ArtifactClass, sourceClass: string,
                                 inspected: bool, exceptionSha: Option<string>)

  datatype Disposition = Preserved | Excluded | Deferred

  datatype Entry = Entry(source: SourceFile, sourceClass: string, disposition: Disposition, reason: string,
                         location: Option<string>, artifactClass: ArtifactClass, exceptionSha: Option<string>)

  datatype Index = Index(inventorySha: string, entries: seq<Entry>)

  /** The digest, the serialisers, and the patterns over names and contents. */
  datatype Env = Env(
    hash: Bytes -> string,
    parseManifest: Bytes -> Option<Manifest>,
    writeIndex: Index -> Bytes,
    parseIndex: Bytes -> Option<Index>,
    excluded: string -> bool,
    exceptionName: string -> bool,
    credentialMarker: Bytes -> bool)

  ghost predicate ValidEnv(env: Env) {
    && (forall b :: IsSha256(env.hash(b)))
    && (forall i :: env.parseIndex(env.writeIndex(i)) == Some(i))
  }

  datatype ArchiveError =
    | BadDigest | MissingArtifact | HashMismatch | ExistingDiffers | CredentialRefused
    | BadInventory | SourceMismatch | DestinationInside | DuplicatePath | SelectionAbsent | HashMapMismatch
    | BadException | ExceptionUninspected | UnreadableSource
    | SourceChanged | BadIndex | ProvenanceMismatch | StrayLocation | ExcludedPreserved | LocationMismatch
    | SizeMismatch

  // ---- The store ----

  /** Stored bytes by location. */
  type Files = map<string, Bytes>

  function Location(sha: string): string {
    if |sha| < 4 then sha else sha[..2] + "/" + sha[2..4] + "/" + sha
  }

  /** Two directories named by the first digits, and the digest as the name. */
  lemma LocationIs(sha: string)
    requires IsSha256(sha)
    ensures |Location(sha)| == 70 && Location(sha)[6..] == sha
    ensures Location(sha)[..2] == sha[..2] && Location(sha)[2] == '/'
    ensures Location(sha)[3..5] == sha[2..4] && Location(sha)[5] == '/'
  {
  }

  lemma LocationInjective(a: string, b: string)
    requires IsSha256(a) && IsSha256(b) && Location(a) == Location(b)
    ensures a == b
  {
    assert Location(a)[6..] == a && Location(b)[6..] == b;
  }

  function VerifiedContent(env: Env, files: Files, sha: string): Result<Bytes, ArchiveError> {
    if !IsSha256(sha) then Err(BadDigest)
    else if Location(sha) !in files then Err(MissingArtifact)
    else if env.hash(files[Location(sha)]) != sha then Err(HashMismatch)
    else Ok(files[Location(sha)])
  }

  class ArtifactStore {
    var files: Files

    constructor (files: Files)
      ensures this.files == files
    {
      this.files := files;
    }

    /** An existing file is checked, and compared, before anything is written. */
    method Put(env: Env, content: Bytes, kind: ArtifactClass) returns (r: Result<string, ArchiveError>)
      requires ValidEnv(env)
      modifies this
      ensures r.Ok? <==>
                && kind != CredentialSession
                && (Location(env.hash(content)) in old(files) ==> old(files)[Location(env.hash(content))] == content)
      ensures r.Ok? ==> r.value == env.hash(content) && files == old(files)[Location(env.hash(content)) := content]
      ensures r.Ok? ==> VerifiedContent(env, files, r.value) == Ok(content)
      ensures r.Err? ==> files == old(files)
      ensures Extends(old(files), files)
    {
      var sha := env.hash(content);
      var target := Location(sha);
      if target in files {
        var existing := VerifiedContent(env, files, sha);
        if existing.Err? || existing.value != content { return Err(ExistingDiffers); }
      }
      if kind == CredentialSession { return Err(CredentialRefused); }
      if target !in files { files := files[target := content]; }
      assert files == old(files)[target := content];
      r := Ok(sha);
    }

    /** The loop over the inventory: one entry per file, in order, and one put per preserved entry. */
    method ArchiveEntries(env: Env, tree: map<string, File>, sources: seq<SourceFile>, selections: seq<Selection>)
      returns (r: Result<seq<Entry>, ArchiveError>)
      requires ValidEnv(env)
      modifies this
      ensures r.Ok? <==>
                && AllMade(env, tree, sources, selections)
                && Admits(env, old(files), Archived(env, tree, sources, selections))
      ensures r.Ok? ==> StoreAfter(env, old(files), Archived(env, tree, sources, selections), files)
      ensures r.Ok? ==> EntriesFor(env, tree, sources, selections, r.value)
      ensures r.Ok? ==> AllPass(env, files, r.value) && Extends(old(files), files)
      ensures r.Ok? ==> forall at :: at in files ==> at in old(files) || Locates(r.value, at)
    {
      hide EntryOf, Location, VerifiedContent, Archived, Admits, StoreAfter, AllMade, Preserves;
      NothingArchived(env, tree, selections, files);
      assert sources[..0] == [];
      var entries: seq<Entry> := [];
      for i := 0 to |sources|
        invariant EntriesFor(env, tree, sources[..i], selections, entries)
        invariant AllPass(env, files, entries) && Extends(old(files), files)
        invariant forall at :: at in files ==> at in old(files) || Locates(entries, at)
        invariant Admits(env, old(files), Archived(env, tree, sources[..i], selections))
        invariant StoreAfter(env, old(files), Archived(env, tree, sources[..i], selections), files)
      {
        hide AllPass, EntriesFor, Extends, Locates;
        var source := sources[i];
        ArchivedMore(env, tree, sources, selections, i);
        ArchivedIsPart(env, tree, sources, selections, i + 1, old(files));
        var outcome := EntryOf(env, tree, source, SelectionFor(selections, source.path));
        NextIsMade(env, tree, sources, selections, i);
        if outcome.Err? { return Err(outcome.error); }
        var entry := outcome.value;
        ghost var before := files;
        assert Archived(env, tree, sources[..i], selections) + {} == Archived(env, tree, sources[..i], selections);
        if entry.disposition == Preserved {
          var archived := Archived(env, tree, sources[..i], selections);
          PutIsAdmitted(env, old(files), archived, files, tree[source.path].content);
          var put := Put(env, tree[source.path].content, entry.artifactClass);
          if put.Err? { return Err(put.error); }
        }
        EntryFits(env, tree, sources, i, selections, entries, entry);
        EntryIsKept(env, tree, source, SelectionFor(selections, source.path), entries, entry, before, files);
        LocatesMore(entries, entry);
        ExtendsIsTransitive(old(files), before, files);
        entries := entries + [entry];
      }
      assert sources[..|sources|] == sources;
      EntriesAreMade(env, tree, sources, selections, entries);
      r := Ok(entries);
    }

    /** The inventory and then the index are put beside the entries' bytes. */
    method PutIndex(env: Env, inventory: Bytes, entries: seq<Entry>) returns (r: Result<(Index, string), ArchiveError>)
      requires ValidEnv(env)
      modifies this
      ensures r.Ok? <==> Admits(env, old(files), {inventory, env.writeIndex(Index(env.hash(inventory), entries))})
      ensures r.Ok? ==>
                && r.value.0 == Index(env.hash(inventory), entries) && r.value.1 == env.hash(env.writeIndex(r.value.0))
                && VerifiedContent(env, files, r.value.0.inventorySha) == Ok(inventory)
                && VerifiedContent(env, files, r.value.1) == Ok(env.writeIndex(r.value.0))
                && Extends(old(files), files)
                && forall at :: at in files ==>
                     at in old(files) || at == Location(r.value.0.inventorySha) || at == Location(r.value.1)
    {
      ghost var bytes := env.writeIndex(Index(env.hash(inventory), entries));
      NothingAdmitted(env, files);
      PutIsAdmitted(env, files, {}, files, inventory);
      AdmitsPart(env, files, {inventory}, {inventory, bytes});
      assert {} + {inventory} == {inventory} && {inventory} + {bytes} == {inventory, bytes};
      hide Admits, StoreAfter, Location, VerifiedContent;
      var first := Put(env, inventory, Sensitive);
      if first.Err? { return Err(first.error); }
      ghost var withInventory := files;
      var index := Index(first.value, entries);
      PutIsAdmitted(env, old(files), {inventory}, files, bytes);
      var second := Put(env, env.writeIndex(index), Sensitive);
      if second.Err? { return Err(second.error); }
      VerifiedOutlivesPuts(env, withInventory, files, first.value);
      r := Ok((index, second.value));
    }

    /** Whenever archiving returns, the returned digest loads the returned index, whose entries
        follow the inventory; the store kept all it had and gained nothing else. The roots are
        resolved; the signatures are the source's metadata before and after its files were read. */
    method ArchiveInventory(env: Env, inventory: Bytes, sourceRoot: Loc, storeRoot: Loc, tree: map<string, File>,
                            before: Signature, after: Signature, selections: seq<Selection>)
      returns (r: Result<(Index, string), ArchiveError>)
      requires ValidEnv(env)
      modifies this
      ensures r.Ok? <==>
                && env.parseManifest(inventory).Some?
                && var manifest := env.parseManifest(inventory).value;
                && sourceRoot == manifest.workspace && !(sourceRoot <= storeRoot) && before == after
                && CompleteManifest(manifest) && SelectionsFit(manifest, selections)
                && AllMade(env, tree, manifest.files, selections)
                && Admits(env, old(files), AllArchived(env, tree, inventory, manifest.files, selections))
      ensures r.Ok? ==>
                && var manifest := env.parseManifest(inventory).value;
                && r.value.0.inventorySha == env.hash(inventory)
                && EntriesFor(env, tree, manifest.files, selections, r.value.0.entries)
                && (forall e :: e in r.value.0.entries && e.disposition == Preserved ==>
                      SelectedItself(selections, e) && Unchanged(env, tree, e.source))
      ensures r.Ok? ==> LoadVerifiedIndex(env, files, r.value.1) == Ok(r.value.0)
      ensures r.Ok? ==>
                && Extends(old(files), files)
                && forall at :: at in files ==>
                     || at in old(files) || Locates(r.value.0.entries, at)
                     || at == Location(r.value.0.inventorySha) || at == Location(r.value.1)
    {
      hide Unchanged, SelectedItself, EntryOf, AllPass, VerifiedContent, Location, LoadVerifiedIndex, Admits,
        StoreAfter;
      hide Archived, AllMade;
      if env.parseManifest(inventory).None? { return Err(BadInventory); }
      var manifest := env.parseManifest(inventory).value;
      if sourceRoot != manifest.workspace { return Err(SourceMismatch); }
      if sourceRoot <= storeRoot { return Err(DestinationInside); }
      if !DistinctPaths(manifest.files) || !DistinctSelectionPaths(selections) { return Err(DuplicatePath); }
      if exists s :: s in selections && !HasPath(manifest.files, s.path) { return Err(SelectionAbsent); }
      if !HashMapAgrees(manifest) { return Err(HashMapMismatch); }
      AllArchivedAdmits(env, tree, inventory, manifest.files, selections, files);
      var archived := ArchiveEntries(env, tree, manifest.files, selections);
      if archived.Err? { return Err(archived.error); }
      if after != before { return Err(SourceChanged); }
      ghost var stored := files;
      EntriesAreOf(env, tree, manifest.files, selections, archived.value);
      AdmitsInTurn(env, old(files), Archived(env, tree, manifest.files, selections), stored,
                   {inventory, env.writeIndex(Index(env.hash(inventory), archived.value))});
      r := PutIndex(env, inventory, archived.value);
      if r.Ok? {
        EntriesOutlivePuts(env, stored, files, archived.value);
        LoadSucceeds(env, files, r.value.1, r.value.0, manifest, inventory);
        PreservedWereSelected(env, tree, manifest.files, selections, archived.value);
      }
    }
  }

  // ---- Which contents a store admits ----

  /** Nothing else is at the address of a content, in the store or among the contents. */
  ghost predicate Admits(env: Env, files: Files, contents: set<Bytes>) {
    && (forall c :: c in contents && Location(env.hash(c)) in files ==> files[Location(env.hash(c))] == c)
    && (forall c, d :: c in contents && d in contents && Location(env.hash(c)) == Location(env.hash(d)) ==> c == d)
  }

  /** What was stored, and the contents at their addresses. */
  ghost predicate StoreAfter(env: Env, before: Files, contents: set<Bytes>, files: Files) {
    && (forall at :: at in before ==> at in files && files[at] == before[at])
    && (forall c :: c in contents ==> Location(env.hash(c)) in files && files[Location(env.hash(c))] == c)
    && (forall at :: at in files ==> at in before || exists c :: c in contents && Location(env.hash(c)) == at)
  }

  lemma NothingAdmitted(env: Env, files: Files)
    ensures Admits(env, files, {}) && StoreAfter(env, files, {}, files)
  {
  }

  lemma AdmitsPart(env: Env, files: Files, part: set<Bytes>, contents: set<Bytes>)
    requires part <= contents
    ensures Admits(env, files, contents) ==> Admits(env, files, part)
  {
    hide Location;
  }

  /** A put goes through exactly when the store admits its content beside those put before. */
  lemma PutIsAdmitted(env: Env, before: Files, contents: set<Bytes>, files: Files, content: Bytes)
    requires Admits(env, before, contents) && StoreAfter(env, before, contents, files)
    ensures var at := Location(env.hash(content));
            && ((at in files ==> files[at] == content) <==> Admits(env, before, contents + {content}))
            && ((at in files ==> files[at] == content) ==>
                  StoreAfter(env, before, contents + {content}, files[at := content]))
  {
    hide Location;
    var at := Location(env.hash(content));
    if at in files && files[at] != content {
      if at in before { assert content in contents + {content}; } else {
        var c :| c in contents && Location(env.hash(c)) == at;
        assert c in contents + {content} && content in contents + {content};
      }
    }
  }

  lemma AdmitsInTurn(env: Env, before: Files, contents: set<Bytes>, files: Files, more: set<Bytes>)
    requires Admits(env, before, contents) && StoreAfter(env, before, contents, files)
    ensures Admits(env, files, more) <==> Admits(env, before, contents + more)
  {
    hide Location;
    if Admits(env, files, more) {
      forall c, d | c in contents + more && d in contents + more && Location(env.hash(c)) == Location(env.hash(d))
        ensures c == d
      {
        if c in contents && d in more { assert files[Location(env.hash(c))] == c; }
        if d in contents && c in more { assert files[Location(env.hash(d))] == d; }
      }
    }
    if Admits(env, before, contents + more) {
      forall c | c in more && Location(env.hash(c)) in files
        ensures files[Location(env.hash(c))] == c
      {
        if Location(env.hash(c)) !in before {
          var d :| d in contents && Location(env.hash(d)) == Location(env.hash(c));
        }
      }
    }
  }

  // ---- Which contents are archived ----

  predicate Preserves(env: Env, tree: map<string, File>, source: SourceFile, selections: seq<Selection>)
    ensures Preserves(env, tree, source, selections) ==> source.path in tree
  {
    var outcome := EntryOf(env, tree, source, SelectionFor(selections, source.path));
    outcome.Ok? && outcome.value.disposition == Preserved
  }

  ghost predicate AllMade(env: Env, tree: map<string, File>, sources: seq<SourceFile>, selections: seq<Selection>) {
    forall i :: 0 <= i < |sources| ==> EntryOf(env, tree, sources[i], SelectionFor(selections, sources[i].path)).Ok?
  }

  /** The contents of the files that are preserved. */
  ghost function Archived(env: Env, tree: map<string, File>, sources: seq<SourceFile>,
                          selections: seq<Selection>): set<Bytes>
  {
    set i | 0 <= i < |sources| && Preserves(env, tree, sources[i], selections) :: tree[sources[i].path].content
  }

  ghost function EntriesOf(env: Env, tree: map<string, File>, sources: seq<SourceFile>,
                           selections: seq<Selection>): seq<Entry>
    requires AllMade(env, tree, sources, selections)
  {
    seq(|sources|, i requires 0 <= i < |sources| =>
      EntryOf(env, tree, sources[i], SelectionFor(selections, sources[i].path)).value)
  }

  /** With the inventory and the index, which are put last. */
  ghost function AllArchived(env: Env, tree: map<string, File>, inventory: Bytes, sources: seq<SourceFile>,
                             selections: seq<Selection>): set<Bytes>
    requires AllMade(env, tree, sources, selections)
  {
    Archived(env, tree, sources, selections)
    + {inventory, env.writeIndex(Index(env.hash(inventory), EntriesOf(env, tree, sources, selections)))}
  }

  lemma NothingArchived(env: Env, tree: map<string, File>, selections: seq<Selection>, files: Files)
    ensures Archived(env, tree, [], selections) == {}
    ensures Admits(env, files, Archived(env, tree, [], selections))
    ensures StoreAfter(env, files, Archived(env, tree, [], selections), files)
  {
  }

  lemma ArchivedMore(env: Env, tree: map<string, File>, sources: seq<SourceFile>, selections: seq<Selection>, i: nat)
    requires i < |sources|
    ensures Archived(env, tree, sources[..i + 1], selections)
            == Archived(env, tree, sources[..i], selections)
               + if Preserves(env, tree, sources[i], selections) then {tree[sources[i].path].content} else {}
  {
    hide Preserves;
    var now, more := Archived(env, tree, sources[..i], selections), Archived(env, tree, sources[..i + 1], selections);
    forall c | c in now ensures c in more {
      var k :| 0 <= k < i && Preserves(env, tree, sources[..i][k], selections)
               && c == tree[sources[..i][k].path].content;
      assert sources[..i + 1][k] == sources[..i][k];
    }
    if Preserves(env, tree, sources[i], selections) { assert sources[..i + 1][i] == sources[i]; }
  }

  lemma ArchivedIsPart(env: Env, tree: map<string, File>, sources: seq<SourceFile>, selections: seq<Selection>, i: nat,
                       files: Files)
    requires i <= |sources|
    ensures Admits(env, files, Archived(env, tree, sources, selections)) ==>
              Admits(env, files, Archived(env, tree, sources[..i], selections))
  {
    hide Preserves;
    forall c | c in Archived(env, tree, sources[..i], selections)
      ensures c in Archived(env, tree, sources, selections)
    {
      var k :| 0 <= k < i && Preserves(env, tree, sources[..i][k], selections)
               && c == tree[sources[..i][k].path].content;
      assert sources[k] == sources[..i][k];
    }
    AdmitsPart(env, files, Archived(env, tree, sources[..i], selections), Archived(env, tree, sources, selections));
  }

  lemma NextIsMade(env: Env, tree: map<string, File>, sources: seq<SourceFile>, selections: seq<Selection>, i: nat)
    requires i < |sources|
    ensures var outcome := EntryOf(env, tree, sources[i], SelectionFor(selections, sources[i].path));
            && (AllMade(env, tree, sources, selections) ==> outcome.Ok?)
            && (outcome.Ok? ==>
                  && (Preserves(env, tree, sources[i], selections) <==> outcome.value.disposition == Preserved)
                  && (outcome.value.disposition == Preserved ==> outcome.value.artifactClass != CredentialSession))
  {
  }

  lemma EntriesAreMade(env: Env, tree: map<string, File>, sources: seq<SourceFile>, selections: seq<Selection>,
                       entries: seq<Entry>)
    requires EntriesFor(env, tree, sources, selections, entries)
    ensures AllMade(env, tree, sources, selections)
  {
    hide EntryOf, SelectionFor;
  }

  lemma EntriesAreOf(env: Env, tree: map<string, File>, sources: seq<SourceFile>, selections: seq<Selection>,
                     entries: seq<Entry>)
    requires EntriesFor(env, tree, sources, selections, entries)
    ensures AllMade(env, tree, sources, selections) && entries == EntriesOf(env, tree, sources, selections)
  {
    hide EntryOf, SelectionFor;
  }

  lemma AllArchivedAdmits(env: Env, tree: map<string, File>, inventory: Bytes, sources: seq<SourceFile>,
                          selections: seq<Selection>, files: Files)
    ensures AllMade(env, tree, sources, selections)
              && Admits(env, files, AllArchived(env, tree, inventory, sources, selections)) ==>
              Admits(env, files, Archived(env, tree, sources, selections))
  {
    if AllMade(env, tree, sources, selections) {
      AdmitsPart(env, files, Archived(env, tree, sources, selections),
                 AllArchived(env, tree, inventory, sources, selections));
    }
    hide Admits;
  }

  ghost predicate EntriesFor(env: Env, tree: map<string, File>, sources: seq<SourceFile>, selections: seq<Selection>,
                             entries: seq<Entry>)
  {
    && |entries| == |sources|
    && forall i :: 0 <= i < |sources| ==>
         EntryOf(env, tree, sources[i], SelectionFor(selections, sources[i].path)) == Ok(entries[i])
  }

  ghost predicate AllPass(env: Env, files: Files, entries: seq<Entry>) {
    forall i :: 0 <= i < |entries| ==> EntryPasses(env, files, entries[i])
  }

  ghost predicate Locates(entries: seq<Entry>, at: string) {
    exists e :: e in entries && e.location == Some(at)
  }

  lemma LocatesMore(entries: seq<Entry>, e: Entry)
    ensures forall at :: Locates(entries, at) || e.location == Some(at) ==> Locates(entries + [e], at)
  {
    forall at | Locates(entries, at) || e.location == Some(at)
      ensures Locates(entries + [e], at)
    {
      if e.location == Some(at) {
        assert e in entries + [e];
      } else {
        var x :| x in entries && x.location == Some(at);
        assert x in entries + [e];
      }
    }
  }

  lemma NewEntryPasses(env: Env, files: Files, tree: map<string, File>, source: SourceFile,
                       selection: Option<Selection>)
    requires EntryOf(env, tree, source, selection).Ok?
    requires EntryOf(env, tree, source, selection).value.disposition == Preserved ==>
               VerifiedContent(env, files, env.hash(tree[source.path].content)) == Ok(tree[source.path].content)
    ensures EntryPasses(env, files, EntryOf(env, tree, source, selection).value)
  {
  }

  lemma EntryFits(env: Env, tree: map<string, File>, sources: seq<SourceFile>, i: nat, selections: seq<Selection>,
                  entries: seq<Entry>, entry: Entry)
    requires i < |sources| && EntriesFor(env, tree, sources[..i], selections, entries)
    requires EntryOf(env, tree, sources[i], SelectionFor(selections, sources[i].path)) == Ok(entry)
    ensures EntriesFor(env, tree, sources[..i + 1], selections, entries + [entry])
  {
    hide EntryOf, SelectionFor;
    assert sources[..i + 1] == sources[..i] + [sources[i]];
  }

  /** After its put an entry passes, is located where it was put, and the earlier ones still pass. */
  lemma EntryIsKept(env: Env, tree: map<string, File>, source: SourceFile, selection: Option<Selection>,
                    entries: seq<Entry>, entry: Entry, before: Files, files: Files)
    requires EntryOf(env, tree, source, selection) == Ok(entry) && AllPass(env, before, entries)
               && Extends(before, files)
    requires entry.disposition == Preserved ==>
               && VerifiedContent(env, files, env.hash(tree[source.path].content)) == Ok(tree[source.path].content)
               && files == before[Location(env.hash(tree[source.path].content)) := tree[source.path].content]
    requires entry.disposition != Preserved ==> files == before
    ensures AllPass(env, files, entries + [entry])
    ensures forall at :: at in files ==> at in before || entry.location == Some(at)
  {
    NewEntryPasses(env, files, tree, source, selection);
    EntriesOutlivePuts(env, before, files, entries);
  }

  lemma ExtendsIsTransitive(a: Files, b: Files, c: Files)
    requires Extends(a, b) && Extends(b, c)
    ensures Extends(a, c)
  {
  }

  ghost predicate Extends(files: Files, later: Files) {
    forall at :: at in files ==> at in later && later[at] == files[at]
  }

  // ---- Deciding one entry ----

  /** None: no exception was asked for. An exception that does not fit is an error. */
  function SourceCodeException(env: Env, path: string, sha: string,
                               exception: Option<string>): Result<bool, ArchiveError>
  {
    if exception.None? then Ok(false)
    else if exception.value != sha || !env.exceptionName(path) then Err(BadException)
    else Ok(true)
  }

  function SelectionFor(selections: seq<Selection>, path: string): Option<Selection> {
    if selections == [] then None
    else if selections[|selections| - 1].path == path then Some(selections[|selections| - 1])
    else SelectionFor(selections[..|selections| - 1], path)
  }

  /** With distinct paths a file's selection is the one of its own path, and a file that nobody selected has none. */
  lemma {:induction false} SelectionForIff(selections: seq<Selection>, path: string, s: Selection)
    requires DistinctSelectionPaths(selections)
    ensures SelectionFor(selections, path) == Some(s) <==> s in selections && s.path == path
    decreases |selections|
  {
    if selections != [] {
      var front, last := selections[..|selections| - 1], selections[|selections| - 1];
      assert selections == front + [last];
      SelectionForIff(front, path, s);
      if s in front {
        var i :| 0 <= i < |front| && front[i] == s;
        assert selections[i] == s;
      }
    }
  }

  function Kind(selection: Option<Selection>): ArtifactClass {
    if selection.Some? then selection.value.artifactClass else Sensitive
  }

  function ExceptionSha(selection: Option<Selection>): Option<string> {
    if selection.Some? then selection.value.exceptionSha else None
  }

  function MakeEntry(source: SourceFile, selection: Option<Selection>, disposition: Disposition, reason: string,
                     location: Option<string>): Entry
  {
    Entry(source, if selection.Some? then selection.value.sourceClass else "unknown", disposition, reason, location,
          Kind(selection), ExceptionSha(selection))
  }

  predicate SourceMatches(env: Env, tree: map<string, File>, source: SourceFile) {
    && source.path in tree
    && Matches(env.hash, tree[source.path], Expectation(source.size, source.sha256, Some(source.modified)))
  }

  const EXCLUDED_BY_NAME := "fixture or credential/session path"
  const EXCLUDED_BY_CONTENT := "credential content marker"
  const NOT_INSPECTED := "not inspected and explicitly selected; legacy dependency remains"

  function EntryOf(env: Env, tree: map<string, File>, source: SourceFile,
                   selection: Option<Selection>): (r: Result<Entry, ArchiveError>)
    ensures r.Ok? ==> r.value.source == source
    ensures r.Ok? && r.value.disposition == Preserved ==> source.path in tree
  {
    match SourceCodeException(env, source.path, source.sha256, ExceptionSha(selection))
    case Err(e) => Err(e)
    case Ok(exception) =>
      var inspected := selection.Some? && selection.value.inspected;
      if exception && !inspected then Err(ExceptionUninspected)
      else if (env.excluded(source.path) && !exception) || Kind(selection) == CredentialSession then
        Ok(MakeEntry(source, selection, Excluded, EXCLUDED_BY_NAME, None))
      else if !inspected then
        Ok(MakeEntry(source, selection, Deferred, NOT_INSPECTED, None))
      else if !SourceMatches(env, tree, source) then Err(UnreadableSource)
      else if env.credentialMarker(tree[source.path].content) then
        Ok(MakeEntry(source, selection, Excluded, EXCLUDED_BY_CONTENT, None))
      else Ok(MakeEntry(source, selection, Preserved, selection.value.reason, Some(Location(source.sha256))))
  }

  /** What is preserved was selected, inspected, permitted by name and free of markers, and
      its bytes on disk had the size and digest of the inventory. */
  lemma PreservedWasInspected(env: Env, tree: map<string, File>, source: SourceFile, selection: Option<Selection>)
    requires EntryOf(env, tree, source, selection).Ok?
    ensures EntryOf(env, tree, source, selection).value.disposition == Preserved <==>
              && selection.Some? && selection.value.inspected
              && selection.value.artifactClass != CredentialSession
              && (env.excluded(source.path) ==>
                    selection.value.exceptionSha == Some(source.sha256) && env.exceptionName(source.path))
              && SourceMatches(env, tree, source) && !env.credentialMarker(tree[source.path].content)
  {
  }

  /** The class, and the exception asked for, are the selection's, or those of a file that nobody selected. */
  predicate FollowsSelection(selection: Option<Selection>, e: Entry) {
    match selection
    case None => e.sourceClass == "unknown" && e.artifactClass == Sensitive && e.exceptionSha == None
    case Some(s) =>
      && e.sourceClass == s.sourceClass && e.artifactClass == s.artifactClass && e.exceptionSha == s.exceptionSha
  }

  /** The name alone excludes the file, or its class does. */
  predicate ExcludedByName(env: Env, source: SourceFile, selection: Option<Selection>) {
    || (env.excluded(source.path) && (selection.None? || selection.value.exceptionSha.None?))
    || (selection.Some? && selection.value.artifactClass == CredentialSession)
  }

  predicate Inspected(selection: Option<Selection>) {
    selection.Some? && selection.value.inspected
  }

  /** The bytes in the tree have the size, the time and the digest of the inventory. */
  predicate Unchanged(env: Env, tree: map<string, File>, source: SourceFile) {
    && source.path in tree && source.modified.zoned && tree[source.path].modified == source.modified.instant
    && tree[source.path].statSize == source.size && |tree[source.path].content| == source.size
    && IsSha256(source.sha256) && env.hash(tree[source.path].content) == source.sha256
  }

  /** An entry is made unless an exception is asked for that does not fit, or a file that is to be read is
      not as the inventory says. */
  lemma EntryIsMadeIff(env: Env, tree: map<string, File>, source: SourceFile, selection: Option<Selection>)
    ensures EntryOf(env, tree, source, selection).Ok? <==>
              && (selection.Some? && selection.value.exceptionSha.Some? ==>
                    && selection.value.exceptionSha.value == source.sha256 && env.exceptionName(source.path)
                    && selection.value.inspected)
              && (Inspected(selection) && !ExcludedByName(env, source, selection) ==> Unchanged(env, tree, source))
  {
  }

  /** Refused for an exception that does not fit, then for one without inspection, and then for the file. */
  lemma EntryRefusedFor(env: Env, tree: map<string, File>, source: SourceFile, selection: Option<Selection>)
    ensures var asked := selection.Some? && selection.value.exceptionSha.Some?;
            var fits := asked && selection.value.exceptionSha.value == source.sha256 && env.exceptionName(source.path);
            var outcome := EntryOf(env, tree, source, selection);
            && (outcome == Err(BadException) <==> asked && !fits)
            && (outcome == Err(ExceptionUninspected) <==> fits && !selection.value.inspected)
            && (outcome.Err? && (fits ==> selection.value.inspected) && (asked ==> fits) ==>
                  outcome == Err(UnreadableSource))
  {
  }

  /** The entry is of its source, follows its selection, and has the address of its digest exactly when preserved. */
  lemma EntryColumnsAre(env: Env, tree: map<string, File>, source: SourceFile, selection: Option<Selection>)
    requires EntryOf(env, tree, source, selection).Ok?
    ensures var e := EntryOf(env, tree, source, selection).value;
            && e.source == source && FollowsSelection(selection, e)
            && (e.location.Some? <==> e.disposition == Preserved)
            && (e.location.Some? ==> e.location.value == Location(source.sha256))
  {
    hide Location, SourceMatches, SourceCodeException;
  }

  /** What becomes of the file: excluded by name or by content, deferred when not inspected, else preserved. */
  lemma DispositionIs(env: Env, tree: map<string, File>, source: SourceFile, selection: Option<Selection>)
    requires EntryOf(env, tree, source, selection).Ok?
    ensures var e := EntryOf(env, tree, source, selection).value;
            && (ExcludedByName(env, source, selection) ==> e.disposition == Excluded)
            && (!ExcludedByName(env, source, selection) && !Inspected(selection) ==> e.disposition == Deferred)
            && (!ExcludedByName(env, source, selection) && Inspected(selection) ==>
                  && source.path in tree
                  && e.disposition == if env.credentialMarker(tree[source.path].content) then Excluded else Preserved)
  {
    EntryIsMadeIff(env, tree, source, selection);
    assert Inspected(selection) && !ExcludedByName(env, source, selection) ==> source.path in tree;
    hide Location, SourceMatches, Unchanged;
  }

  /** The reason is the selection's for what is preserved, and says otherwise why it is not. */
  lemma EntryReasonIs(env: Env, tree: map<string, File>, source: SourceFile, selection: Option<Selection>)
    requires EntryOf(env, tree, source, selection).Ok?
    ensures var e := EntryOf(env, tree, source, selection).value;
            && (e.disposition == Preserved ==> selection.Some? && e.reason == selection.value.reason)
            && (e.disposition == Deferred ==>
                  e.reason == "not inspected and explicitly selected; legacy dependency remains")
            && (e.disposition == Excluded ==>
                  e.reason == if ExcludedByName(env, source, selection) then "fixture or credential/session path"
                              else "credential content marker")
  {
    hide Location, SourceMatches;
  }

  /** A preserved entry was selected by its own path, and that selection was inspected. */
  ghost predicate SelectedItself(selections: seq<Selection>, e: Entry) {
    exists s :: && s in selections && s.path == e.source.path && s.inspected && s.reason == e.reason
                && s.artifactClass == e.artifactClass && s.sourceClass == e.sourceClass
  }

  lemma PreservedWereSelected(env: Env, tree: map<string, File>, sources: seq<SourceFile>, selections: seq<Selection>,
                              entries: seq<Entry>)
    requires DistinctSelectionPaths(selections) && EntriesFor(env, tree, sources, selections, entries)
    ensures forall e :: e in entries && e.disposition == Preserved ==>
              SelectedItself(selections, e) && Unchanged(env, tree, e.source)
    ensures forall i :: 0 <= i < |entries| ==> entries[i].source == sources[i]
    ensures forall i :: 0 <= i < |entries| && (forall s :: s in selections ==> s.path != sources[i].path) ==>
              entries[i].disposition != Preserved && FollowsSelection(None, entries[i])
  {
    forall i | 0 <= i < |entries|
      ensures entries[i].source == sources[i]
      ensures entries[i].disposition == Preserved ==>
                SelectedItself(selections, entries[i]) && Unchanged(env, tree, entries[i].source)
      ensures (forall s :: s in selections ==> s.path != sources[i].path) ==>
                entries[i].disposition != Preserved && FollowsSelection(None, entries[i])
    {
      var selection := SelectionFor(selections, sources[i].path);
      EntryIsMadeIff(env, tree, sources[i], selection);
      EntryColumnsAre(env, tree, sources[i], selection);
      DispositionIs(env, tree, sources[i], selection);
      EntryReasonIs(env, tree, sources[i], selection);
      if selection.Some? { SelectionForIff(selections, sources[i].path, selection.value); }
      hide EntryOf, SelectionFor, Unchanged;
    }
  }

  // ---- Inventory checks ----

  predicate DistinctPaths(files: seq<SourceFile>) {
    forall i, j :: 0 <= i < j < |files| ==> files[i].path != files[j].path
  }

  predicate DistinctSelectionPaths(selections: seq<Selection>) {
    forall i, j :: 0 <= i < j < |selections| ==> selections[i].path != selections[j].path
  }

  predicate HasPath(files: seq<SourceFile>, path: string) {
    exists f :: f in files && f.path == path
  }

  predicate HashMapAgrees(m: Manifest) {
    && (forall f :: f in m.files ==> f.path in m.hashes && m.hashes[f.path] == f.sha256)
    && (forall path :: path in m.hashes ==> HasPath(m.files, path))
  }

  predicate CompleteManifest(m: Manifest) {
    DistinctPaths(m.files) && HashMapAgrees(m)
  }

  /** No path is selected twice, and every selected one is in the inventory. */
  predicate SelectionsFit(m: Manifest, selections: seq<Selection>) {
    && (forall i, j :: 0 <= i < j < |selections| ==> selections[i].path != selections[j].path)
    && forall s :: s in selections ==> exists f :: f in m.files && f.path == s.path
  }

  /** A complete manifest names every path once, with its digest in the map and no other path there. */
  lemma CompleteManifestIff(m: Manifest)
    ensures CompleteManifest(m) <==>
              && (forall i, j :: 0 <= i < j < |m.files| ==> m.files[i].path != m.files[j].path)
              && (forall f :: f in m.files ==> f.path in m.hashes && m.hashes[f.path] == f.sha256)
              && (forall path :: path in m.hashes ==> exists f :: f in m.files && f.path == path)
  {
  }

  // ---- Loading an index again ----

  function EntryError(env: Env, files: Files, e: Entry): Option<ArchiveError> {
    if e.disposition != Preserved then if e.location.Some? then Some(StrayLocation) else None
    else
      var exception := if env.excluded(e.source.path)
                       then SourceCodeException(env, e.source.path, e.source.sha256, e.exceptionSha)
                       else Ok(true);
      if exception.Err? then Some(exception.error)
      else if !exception.value || e.artifactClass == CredentialSession then Some(ExcludedPreserved)
      else if e.location != Some(Location(e.source.sha256)) then Some(LocationMismatch)
      else match VerifiedContent(env, files, e.source.sha256)
        case Err(error) => Some(error)
        case Ok(content) => if |content| != e.source.size then Some(SizeMismatch) else None
  }

  predicate EntryPasses(env: Env, files: Files, e: Entry) {
    EntryError(env, files, e).None?
  }

  function FirstError(env: Env, files: Files, entries: seq<Entry>): Option<ArchiveError> {
    if entries == [] then None
    else match EntryError(env, files, entries[0])
      case Some(e) => Some(e)
      case None => FirstError(env, files, entries[1..])
  }

  function LoadVerifiedIndex(env: Env, files: Files, sha: string): Result<Index, ArchiveError> {
    match VerifiedContent(env, files, sha)
    case Err(e) => Err(e)
    case Ok(bytes) =>
      match env.parseIndex(bytes)
      case None => Err(BadIndex)
      case Some(index) =>
        match VerifiedContent(env, files, index.inventorySha)
        case Err(e) => Err(e)
        case Ok(inventory) =>
          match env.parseManifest(inventory)
          case None => Err(BadInventory)
          case Some(manifest) =>
            if SourcesOf(index.entries) != manifest.files then Err(ProvenanceMismatch)
            else if !CompleteManifest(manifest) then Err(HashMapMismatch)
            else match FirstError(env, files, index.entries)
              case Some(e) => Err(e)
              case None => Ok(index)
  }

  function SourcesOf(entries: seq<Entry>): seq<SourceFile> {
    seq(|entries|, i requires 0 <= i < |entries| => entries[i].source)
  }

  lemma {:induction false} NoFirstError(env: Env, files: Files, entries: seq<Entry>)
    ensures FirstError(env, files, entries).None? <==> AllPass(env, files, entries)
  {
    if entries != [] {
      NoFirstError(env, files, entries[1..]);
      assert forall i :: 0 < i < |entries| ==> entries[i] == entries[1..][i - 1];
    }
  }

  /** The bytes of a digest are those at its address, if they have it. */
  lemma VerifiedContentIs(env: Env, files: Files, sha: string, content: Bytes)
    ensures VerifiedContent(env, files, sha) == Ok(content) <==>
              && IsSha256(sha) && Location(sha) in files && files[Location(sha)] == content && env.hash(content) == sha
  {
  }

  /** Refused for a digest without its form, for nothing at its address, or for other bytes there. */
  lemma VerifiedContentErrorIs(env: Env, files: Files, sha: string)
    ensures VerifiedContent(env, files, sha) == Err(BadDigest) <==> !IsSha256(sha)
    ensures VerifiedContent(env, files, sha) == Err(MissingArtifact) <==> IsSha256(sha) && Location(sha) !in files
    ensures VerifiedContent(env, files, sha) == Err(HashMismatch) <==>
              IsSha256(sha) && Location(sha) in files && env.hash(files[Location(sha)]) != sha
  {
  }

  /** An entry passes when it is not preserved and has no location, or is preserved, permitted, at the address of
      its digest, and has bytes there of its digest and size. */
  lemma EntryPassesIff(env: Env, files: Files, e: Entry)
    ensures EntryPasses(env, files, e) <==>
              if e.disposition != Preserved then e.location.None?
              else
                && e.artifactClass != CredentialSession
                && (env.excluded(e.source.path) ==>
                      e.exceptionSha == Some(e.source.sha256) && env.exceptionName(e.source.path))
                && e.location == Some(Location(e.source.sha256)) && IsSha256(e.source.sha256)
                && e.location.value in files && |files[e.location.value]| == e.source.size
                && env.hash(files[e.location.value]) == e.source.sha256
  {
  }

  /** An index loads when it and its inventory are verified, the inventory is complete and lists the sources of
      the entries in their order, and every entry passes. */
  lemma LoadsIff(env: Env, files: Files, sha: string, index: Index)
    ensures LoadVerifiedIndex(env, files, sha) == Ok(index) <==>
              && VerifiedContent(env, files, sha).Ok?
              && env.parseIndex(VerifiedContent(env, files, sha).value) == Some(index)
              && VerifiedContent(env, files, index.inventorySha).Ok?
              && env.parseManifest(VerifiedContent(env, files, index.inventorySha).value).Some?
              && var manifest := env.parseManifest(VerifiedContent(env, files, index.inventorySha).value).value;
                 && CompleteManifest(manifest) && |manifest.files| == |index.entries|
                 && (forall i :: 0 <= i < |index.entries| ==> index.entries[i].source == manifest.files[i])
                 && (forall e :: e in index.entries ==> EntryPasses(env, files, e))
  {
    hide VerifiedContent, EntryPasses;
    if VerifiedContent(env, files, sha).Ok? && env.parseIndex(VerifiedContent(env, files, sha).value) == Some(index) {
      NoFirstError(env, files, index.entries);
      if && VerifiedContent(env, files, index.inventorySha).Ok?
         && env.parseManifest(VerifiedContent(env, files, index.inventorySha).value).Some?
      {
        var manifest := env.parseManifest(VerifiedContent(env, files, index.inventorySha).value).value;
        assert SourcesOf(index.entries) == manifest.files <==>
                 && |manifest.files| == |index.entries|
                 && forall i :: 0 <= i < |index.entries| ==> index.entries[i].source == manifest.files[i];
      }
    }
  }

  /** What a stored index is refused for, apart from bytes that do not verify: its form, its inventory's, other
      files than the inventory lists, and then other digests. */
  lemma LoadRefusedFor(env: Env, files: Files, sha: string)
    requires VerifiedContent(env, files, sha).Ok?
    ensures var index := env.parseIndex(VerifiedContent(env, files, sha).value);
            && (index.None? ==> LoadVerifiedIndex(env, files, sha) == Err(BadIndex))
            && (index.Some? && VerifiedContent(env, files, index.value.inventorySha).Ok? ==>
                  var manifest := env.parseManifest(VerifiedContent(env, files, index.value.inventorySha).value);
                  && (manifest.None? ==> LoadVerifiedIndex(env, files, sha) == Err(BadInventory))
                  && (manifest.Some? && SourcesOf(index.value.entries) != manifest.value.files ==>
                        LoadVerifiedIndex(env, files, sha) == Err(ProvenanceMismatch))
                  && (&& manifest.Some? && SourcesOf(index.value.entries) == manifest.value.files
                      && !CompleteManifest(manifest.value)
                      ==> LoadVerifiedIndex(env, files, sha) == Err(HashMapMismatch)))
  {
  }

  lemma VerifiedOutlivesPuts(env: Env, files: Files, later: Files, sha: string)
    requires Extends(files, later) && VerifiedContent(env, files, sha).Ok?
    ensures VerifiedContent(env, later, sha) == VerifiedContent(env, files, sha)
  {
  }

  lemma EntriesOutlivePuts(env: Env, files: Files, later: Files, entries: seq<Entry>)
    requires Extends(files, later) && AllPass(env, files, entries)
    ensures AllPass(env, later, entries)
  {
  }

  lemma LoadSucceeds(env: Env, files: Files, sha: string, index: Index, manifest: Manifest, inventory: Bytes)
    requires ValidEnv(env)
    requires VerifiedContent(env, files, sha) == Ok(env.writeIndex(index))
    requires VerifiedContent(env, files, index.inventorySha) == Ok(inventory)
    requires env.parseManifest(inventory) == Some(manifest) && CompleteManifest(manifest)
    requires |index.entries| == |manifest.files| && AllPass(env, files, index.entries)
    requires forall i :: 0 <= i < |index.entries| ==> index.entries[i].source == manifest.files[i]
    ensures LoadVerifiedIndex(env, files, sha) == Ok(index)
  {
    NoFirstError(env, files, index.entries);
    assert SourcesOf(index.entries) == manifest.files;
  }

  /** Once an index loads, it loads the same after any further puts, and every entry it
      preserves has stored bytes of the inventory's size and digest. */
  lemma LoadedIndexStaysLoaded(env: Env, files: Files, later: Files, sha: string)
    requires LoadVerifiedIndex(env, files, sha).Ok? && Extends(files, later)
    ensures LoadVerifiedIndex(env, later, sha) == LoadVerifiedIndex(env, files, sha)
    ensures forall e :: e in LoadVerifiedIndex(env, files, sha).value.entries && e.disposition == Preserved ==>
              && e.location == Some(Location(e.source.sha256)) && e.location.value in later
              && |later[e.location.value]| == e.source.size && env.hash(later[e.location.value]) == e.source.sha256
  {
    var index := LoadVerifiedIndex(env, files, sha).value;
    VerifiedOutlivesPuts(env, files, later, sha);
    VerifiedOutlivesPuts(env, files, later, index.inventorySha);
    NoFirstError(env, files, index.entries);
    EntriesOutlivePuts(env, files, later, index.entries);
    NoFirstError(env, later, index.entries);
    forall e | e in index.entries && e.disposition == Preserved
      ensures EntryPasses(env, later, e)
    {
      var i :| 0 <= i < |index.entries| && index.entries[i] == e;
    }
  }
}
