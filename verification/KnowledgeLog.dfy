/** The append-only log of knowledge revisions, with the two tables derived from it: the
    evidence reference rows and the chunk index. */
module KnowledgeLog {
  import opened Revisions
  import opened SealedRows
  import opened Wrappers

  datatype EntryStatus = DraftEntry | ProposedEntry | ApprovedEntry | ArchivedEntry

  datatype Entry = Entry(title: string, status: EntryStatus, category: string, authority: string, current: int)

  /** `refs` is the JSON copy of the evidence references. */
  datatype Revision = Revision(title: string, content: string, contentHash: string, sourceType: string, locator: string,
                               refs: seq<string>, authority: string, status: EntryStatus, flagged: bool)

  datatype Log = Log(entries: map<string, Entry>, revisions: map<Rev, Revision>,
                     evidence: Children<Rev, string>, chunks: Children<Rev, string>)

  /** The digest of a text, and its cut into chunks. */
  datatype Env = Env(hash: string -> string, chunks: string -> seq<string>)

  // ---- Invariant ----

  ghost predicate RevisionAgrees(env: Env, log: Log, r: Rev)
    requires r in log.revisions
  {
    var row := log.revisions[r];
    && row.contentHash == env.hash(row.content)
    && Holds(log.evidence, r, row.refs)
    && Holds(log.chunks, r, env.chunks(row.content))
  }

  ghost predicate NumberedFromOne(log: Log) {
    && (forall id :: id in log.entries ==> 1 <= log.entries[id].current)
    && (forall r :: r in log.revisions <==> r.id in log.entries && 1 <= r.revision <= log.entries[r.id].current)
  }

  ghost predicate NoStrayRows(log: Log) {
    && (forall k :: k in log.evidence ==> k.owner in log.revisions)
    && (forall k :: k in log.chunks ==> k.owner in log.revisions)
  }

  ghost predicate Inv(env: Env, log: Log) {
    && NumberedFromOne(log) && NoStrayRows(log)
    && (forall r :: r in log.revisions ==> RevisionAgrees(env, log, r))
  }

  /** No revision is overwritten and no entry forgets one. */
  ghost predicate Preserved(log: Log, later: Log) {
    && (forall id :: id in log.entries ==> id in later.entries && log.entries[id].current <= later.entries[id].current)
    && (forall r :: r in log.revisions ==> r in later.revisions && later.revisions[r] == log.revisions[r])
  }

  // ---- Appending a revision ----

  /** The keys that an append must not violate: the revision's primary key and one row per
      evidence reference. */
  predicate Appendable(log: Log, known: set<string>, r: Rev, row: Revision) {
    && r !in log.revisions && Distinct(row.refs)
    && forall ref :: ref in row.refs ==> ref in known
  }

  function Appended(env: Env, log: Log, r: Rev, entry: Entry, row: Revision): Log {
    Log(log.entries[r.id := entry],
        log.revisions[r := row],
        Staged(log.evidence, r, row.refs),
        Replaced(log.chunks, r, env.chunks(row.content)))
  }

  /** The appended revision reads back its references and its chunks, and nothing else is written. */
  lemma AppendedReads(env: Env, log: Log, r: Rev, entry: Entry, row: Revision)
    requires NoStrayRows(log) && r !in log.revisions
    ensures var later := Appended(env, log, r, entry, row);
            && later.entries == log.entries[r.id := entry] && later.revisions == log.revisions[r := row]
            && InOrdinalOrder(later.evidence, r) == row.refs
            && InOrdinalOrder(later.chunks, r) == env.chunks(row.content)
  {
    var later := Appended(env, log, r, entry, row);
    StagedHolds(log.evidence, r, row.refs);
    ReplacedHolds(log.chunks, r, env.chunks(row.content));
    hide InOrdinalOrder, Staged, Replaced;
    HeldListIsRead(later.evidence, r, row.refs);
    HeldListIsRead(later.chunks, r, env.chunks(row.content));
  }

  predicate NextOf(log: Log, r: Rev, entry: Entry) {
    && entry.current == r.revision
    && r.revision == if r.id in log.entries then log.entries[r.id].current + 1 else 1
  }

  lemma AppendKeepsInv(env: Env, log: Log, r: Rev, entry: Entry, row: Revision, later: Log)
    requires Inv(env, log) && r !in log.revisions && NextOf(log, r, entry)
    requires row.contentHash == env.hash(row.content)
    requires later == Appended(env, log, r, entry, row)
    ensures Inv(env, later) && Preserved(log, later)
  {
    AppendKeepsNumbering(env, log, r, entry, row, later);
    AppendKeepsRows(env, log, r, entry, row, later);
  }

  lemma AppendKeepsNumbering(env: Env, log: Log, r: Rev, entry: Entry, row: Revision, later: Log)
    requires NumberedFromOne(log) && NextOf(log, r, entry) && r !in log.revisions
    requires later == Appended(env, log, r, entry, row)
    ensures NumberedFromOne(later) && Preserved(log, later)
  {
  }

  lemma AppendKeepsRows(env: Env, log: Log, r: Rev, entry: Entry, row: Revision, later: Log)
    requires Inv(env, log) && r !in log.revisions && row.contentHash == env.hash(row.content)
    requires later == Appended(env, log, r, entry, row)
    ensures NoStrayRows(later)
    ensures forall x :: x in later.revisions ==> RevisionAgrees(env, later, x)
  {
    StagedHolds(log.evidence, r, row.refs);
    ReplacedHolds(log.chunks, r, env.chunks(row.content));
    forall x | x in later.revisions
      ensures RevisionAgrees(env, later, x)
    {
      if x != r {
        assert RevisionAgrees(env, log, x);
        SameChildrenHold(log.evidence, later.evidence, x, log.revisions[x].refs);
        SameChildrenHold(log.chunks, later.chunks, x, env.chunks(log.revisions[x].content));
      }
    }
  }

  /** An entry's other columns may change freely. */
  lemma EntryChangeKeepsInv(env: Env, log: Log, id: string, entry: Entry)
    requires Inv(env, log) && id in log.entries && entry.current == log.entries[id].current
    ensures var later := log.(entries := log.entries[id := entry]);
            Inv(env, later) && Preserved(log, later)
  {
    var later := log.(entries := log.entries[id := entry]);
    forall x | x in later.revisions
      ensures RevisionAgrees(env, later, x)
    {
      assert RevisionAgrees(env, log, x);
    }
  }

  lemma PreservedIsTransitive(a: Log, b: Log, c: Log)
    requires Preserved(a, b) && Preserved(b, c)
    ensures Preserved(a, c)
  {
  }

  // ---- Rebuilding the index ----

  /** One step per stored revision, in whatever order the rows are read. */
  function Reindexed(env: Env, log: Log, rows: seq<Rev>): Children<Rev, string>
    requires forall r :: r in rows ==> r in log.revisions
  {
    if rows == [] then log.chunks
    else
      var last := rows[|rows| - 1];
      Replaced(Reindexed(env, log, rows[..|rows| - 1]), last, env.chunks(log.revisions[last].content))
  }

  /** The index always agrees with the log, so rebuilding it changes nothing. */
  lemma {:induction false} RebuildChangesNothing(env: Env, log: Log, rows: seq<Rev>)
    requires Inv(env, log) && forall r :: r in rows ==> r in log.revisions
    ensures Reindexed(env, log, rows) == log.chunks
  {
    if rows != [] {
      var last := rows[|rows| - 1];
      RebuildChangesNothing(env, log, rows[..|rows| - 1]);
      assert RevisionAgrees(env, log, last);
      ReplacingHeldList(log.chunks, last, env.chunks(log.revisions[last].content));
    }
  }
}
