/** What each call of the knowledge repository stores, when it is refused, and where the content of
    every revision comes from. */
module KnowledgeWrites {
  import opened Chunks
  import Decimal
  import opened Knowledge
  import opened KnowledgeLog
  import opened Revisions
  import opened SealedRows
  import SqlChecks
  import Text
  import opened WikiSlugs
  import opened Wrappers

  // ---- Imports ----

  /** An import is accepted when its text can be cleaned, and its entry exists already or its evidence rows
      find their parents: a row that a check refuses is skipped, and only then may its key be missing. */
  lemma ImportSucceedsIff(c: Config, db: Db, d: Document)
    requires DbInv(c, db)
    ensures Imported(c, db, d).Ok? <==>
              && CleanContent(d.text).Ok?
              && (|| d.id in db.log.entries || d.evidenceRef in db.evidenceRefs
                  || (&& (d.locator in db.sources
                          || (SqlChecks.NonBlank(d.sourceType) && SqlChecks.Length(d.sourceType) <= 128
                              && SqlChecks.NonBlank(d.locator) && SqlChecks.Length(d.locator) <= 2048))
                      && (d.artifact in db.artifacts || SqlChecks.NonBlank(d.mediaType))))
  {
    hide CleanContent, KnowledgeLog.RevisionAgrees;
  }

  lemma ImportRefusedFor(c: Config, db: Db, d: Document)
    requires Imported(c, db, d).Err?
    ensures Imported(c, db, d).error == if CleanContent(d.text).Err? then BadContent else ConstraintViolated
  {
    hide CleanContent, Appendable, EvidenceAccepted;
  }

  /** A new entry with the cleaned text as revision one, under one reference that is known from then on. */
  lemma ImportStores(c: Config, db: Db, d: Document)
    requires DbInv(c, db) && Imported(c, db, d).Ok?
    ensures var later := Imported(c, db, d).value;
            && (d.id in db.log.entries ==> later == db)
            && (d.id !in db.log.entries ==>
                  && Rev(d.id, 1) !in db.log.revisions
                  && later.log.entries
                     == db.log.entries[d.id := Entry(d.title, ProposedEntry, d.category, d.authority, 1)]
                  && var text := CleanContent(d.text).value;
                  && later.log.revisions
                     == db.log.revisions[Rev(d.id, 1) :=
                          Revision(d.title, text, c.env.hash(text), d.sourceType, d.locator, [d.evidenceRef],
                                   d.authority, ProposedEntry, d.flagged)]
                  && InOrdinalOrder(later.log.evidence, Rev(d.id, 1)) == [d.evidenceRef]
                  && later.evidenceRefs == db.evidenceRefs + {d.evidenceRef}
                  && later.proposals == db.proposals && later.pages == db.pages && later.operations == db.operations)
  {
    if d.id !in db.log.entries {
      var text := CleanContent(d.text).value;
      assert Rev(d.id, 1) !in db.log.revisions;
      AppendedReads(c.env, db.log, Rev(d.id, 1), Entry(d.title, ProposedEntry, d.category, d.authority, 1),
                    ImportRow(c, d, text));
    }
    hide CleanContent, Appended, InOrdinalOrder, KnowledgeLog.Inv, SqlChecks.NonBlank, SqlChecks.Length;
  }

  // ---- Proposals ----

  /** A proposal is accepted when its text can be cleaned and it is new, with a known target and known
      references, or repeats the stored one. */
  lemma ProposalSucceedsIff(c: Config, db: Db, id: string, p: Proposal)
    ensures Proposed(c, db, id, p).Ok? <==>
              && CleanContent(p.content).Ok?
              && if id in db.proposals then
                   var stored := db.proposals[id];
                   && stored.category == p.category && stored.title == p.title
                   && stored.content == CleanContent(p.content).value
                   && stored.authority == p.authority && stored.createdBy == p.createdBy
                 else
                   && (p.target.Some? ==> p.target.value in db.log.entries)
                   && forall ref :: ref in p.refs ==> ref in db.evidenceRefs
  {
    hide CleanContent;
  }

  lemma ProposalRefusedFor(c: Config, db: Db, id: string, p: Proposal)
    requires Proposed(c, db, id, p).Err?
    ensures Proposed(c, db, id, p).error
            == if CleanContent(p.content).Err? then BadContent
               else if id in db.proposals then DifferentContent
               else if p.target.Some? && p.target.value !in db.log.entries then MissingTarget
               else UnknownEvidence
  {
    hide CleanContent;
  }

  /** Stored as given but for the cleaned text, its digest, the pending status, and the target's current
      revision where no base is named. */
  lemma ProposalStores(c: Config, db: Db, id: string, p: Proposal)
    requires Proposed(c, db, id, p).Ok?
    ensures var later := Proposed(c, db, id, p).value;
            && (id in db.proposals ==> later == db)
            && (id !in db.proposals ==>
                  && later == db.(proposals := later.proposals)
                  && id in later.proposals && later.proposals == db.proposals[id := later.proposals[id]]
                  && var stored := later.proposals[id];
                     && stored.target == p.target && stored.category == p.category && stored.title == p.title
                     && stored.content == CleanContent(p.content).value
                     && stored.contentHash == c.env.hash(stored.content)
                     && stored.refs == p.refs && stored.authority == p.authority && stored.createdBy == p.createdBy
                     && stored.status == PendingReview
                     && (p.base.Some? || p.target.None? ==> stored.base == p.base)
                     && (p.base.None? && p.target.Some? ==>
                           stored.base == Some(db.log.entries[p.target.value].current)))
  {
    hide CleanContent;
  }

  /** A review is accepted when it decides a pending proposal and, if it approves, no reference is unknown
      or repeated. */
  lemma ReviewSucceedsIff(c: Config, db: Db, id: string, decision: ReviewStatus)
    requires DbInv(c, db)
    ensures Reviewed(c, db, id, decision).Ok? <==>
              && (decision == ApprovedReview || decision == RejectedReview)
              && id in db.proposals && db.proposals[id].status == PendingReview
              && (decision == ApprovedReview ==> RefsFit(db.proposals[id].refs, db.evidenceRefs))
  {
    hide KnowledgeLog.RevisionAgrees, TextsClean, RefsValid;
  }

  lemma ReviewRefusedFor(c: Config, db: Db, id: string, decision: ReviewStatus)
    requires Reviewed(c, db, id, decision).Err?
    ensures Reviewed(c, db, id, decision).error
            == if decision == PendingReview then BadDecision
               else if id !in db.proposals then Missing
               else if db.proposals[id].status != PendingReview then AlreadyReviewed
               else ConstraintViolated
  {
    hide Appendable, Appended;
  }

  /** The entry that an approval writes: the target, or one named after the proposal. */
  function EntryNamed(id: string, p: Proposal): string {
    if p.target.Some? then p.target.value else if |id| <= 9 then "knowledge_" else "knowledge_" + id[9..]
  }

  lemma RejectionStores(c: Config, db: Db, id: string)
    requires Reviewed(c, db, id, RejectedReview).Ok?
    ensures var later := Reviewed(c, db, id, RejectedReview).value;
            later == db.(proposals := db.proposals[id := db.proposals[id].(status := RejectedReview)])
  {
  }

  lemma TargetIsNamed(id: string, p: Proposal)
    ensures TargetOf(id, p) == EntryNamed(id, p)
  {
    assert "knowledge_" + "" == "knowledge_";
  }

  function NextOfEntry(log: Log, target: string): Rev {
    Rev(target, if target in log.entries then log.entries[target].current + 1 else 1)
  }

  lemma ApprovalAppends(c: Config, db: Db, id: string)
    requires DbInv(c, db) && Reviewed(c, db, id, ApprovedReview).Ok?
    ensures var p := db.proposals[id];
            var target := EntryNamed(id, p);
            var r := NextOfEntry(db.log, target);
            && r !in db.log.revisions
            && Reviewed(c, db, id, ApprovedReview).value
               == db.(proposals := db.proposals[id := p.(status := ApprovedReview)],
                      log := Appended(c.env, db.log, r, ApprovedEntryOf(db.log, target, p), ApprovedRow(id, p)))
  {
    TargetIsNamed(id, db.proposals[id]);
    var r := NextOfEntry(db.log, EntryNamed(id, db.proposals[id]));
    assert r !in db.log.revisions;
    hide Appended, KnowledgeLog.Inv, ApprovedEntryOf, TargetOf, EntryNamed, DbInv;
  }

  /** The proposal's text and references, under its authority, from the proposal. */
  predicate IsApproval(row: Revision, id: string, p: Proposal) {
    && row.title == p.title && row.content == p.content && row.contentHash == p.contentHash && row.refs == p.refs
    && row.authority == p.authority && !row.flagged && row.status == ApprovedEntry
    && row.sourceType == "proposal" && row.locator == "proposal:" + id
  }

  /** An entry approved at its next revision, or a new one with the proposal's title, category and authority. */
  predicate IsApprovedEntry(entry: Entry, log: Log, target: string, p: Proposal) {
    && entry.status == ApprovedEntry
    && if target in log.entries then
         && entry.current == log.entries[target].current + 1 && entry.title == log.entries[target].title
         && entry.category == log.entries[target].category && entry.authority == log.entries[target].authority
       else
         && entry.current == 1 && entry.title == p.title && entry.category == p.category
         && entry.authority == p.authority
  }

  lemma ApprovedRowsAre(log: Log, id: string, p: Proposal)
    ensures IsApproval(ApprovedRow(id, p), id, p)
    ensures IsApprovedEntry(ApprovedEntryOf(log, EntryNamed(id, p), p), log, EntryNamed(id, p), p)
  {
  }

  /** The proposal's text and references become the next revision of the target, or of a new entry, which is
      approved at it; the proposal is recorded as approved, and nothing else changes. */
  lemma ApprovalStores(c: Config, db: Db, id: string)
    requires DbInv(c, db) && Reviewed(c, db, id, ApprovedReview).Ok?
    ensures var p, later := db.proposals[id], Reviewed(c, db, id, ApprovedReview).value;
            var target := EntryNamed(id, p);
            var r := NextOfEntry(db.log, target);
            && later == db.(log := later.log, proposals := db.proposals[id := p.(status := ApprovedReview)])
            && r !in db.log.revisions && r in later.log.revisions && IsApproval(later.log.revisions[r], id, p)
            && later.log.revisions == db.log.revisions[r := later.log.revisions[r]]
            && InOrdinalOrder(later.log.evidence, r) == p.refs
            && target in later.log.entries && IsApprovedEntry(later.log.entries[target], db.log, target, p)
            && later.log.entries == db.log.entries[target := later.log.entries[target]]
  {
    assert id in db.proposals;
    hide Reviewed, Appended, InOrdinalOrder, EntryNamed, ApprovedRow, ApprovedEntryOf, IsApproval, IsApprovedEntry;
    var p := db.proposals[id];
    var target := EntryNamed(id, p);
    InvHasNoStrayRows(c, db);
    hide DbInv;
    ApprovalAppends(c, db, id);
    ApprovedRowsAre(db.log, id, p);
    ApprovedRowRefs(id, p);
    AppendedReads(c.env, db.log, NextOfEntry(db.log, target), ApprovedEntryOf(db.log, target, p), ApprovedRow(id, p));
  }

  lemma ApprovedRowRefs(id: string, p: Proposal)
    ensures ApprovedRow(id, p).refs == p.refs
  {
  }

  lemma InvHasNoStrayRows(c: Config, db: Db)
    requires DbInv(c, db)
    ensures NoStrayRows(db.log)
  {
  }

  // ---- Wiki pages and operations ----

  /** The first candidate that no page has: base, base-2, base-3, ... */
  ghost predicate IsFirstFreeSlug(pages: map<string, Page>, base: string, slug: string) {
    exists n: nat :: && slug == Candidate(base, n) && slug !in SlugsInUse(pages)
                     && forall k: nat :: k < n ==> Candidate(base, k) in SlugsInUse(pages)
  }

  /** A page that is missing is made with the first free slug, and without a parent. */
  lemma WithPageStores(c: Config, db: Db, id: string, title: string)
    ensures var later := WithPage(c, db, id, title);
            && (id in db.pages ==> later == db)
            && (id !in db.pages ==>
                  && id in later.pages && later == db.(pages := db.pages[id := later.pages[id]])
                  && later.pages[id].parent.None?
                  && IsFirstFreeSlug(db.pages, c.slugOf(title), later.pages[id].slug))
  {
    if id !in db.pages {
      var n := FreeSlugIsFirst(c.slugOf(title), SlugsInUse(db.pages));
      hide Candidate, SlugsInUse, FreeSlug;
    }
  }

  /** What an operation asks for, apart from its target. */
  predicate Asks(o: Operation) {
    && (o.kind == Rename ==>
          (o.newTitle.Some? && o.newTitle.value != "") || (o.newSlug.Some? && o.newSlug.value != ""))
    && (o.kind == Move ==> o.parent.Some? && o.parent.value != "")
  }

  /** A request is accepted when it names its requester and what it asks for, target and parent are two
      entries, and it is new with a slug that no other page has, or repeats the stored one. */
  lemma RequestSucceedsIff(c: Config, db: Db, id: string, o: Operation, requester: string)
    ensures Requested(c, db, id, o, requester).Ok? <==>
              && Text.Strip(requester) != "" && Asks(o) && o.target in db.log.entries
              && (o.parent.Some? ==> o.parent.value != o.target && o.parent.value in db.log.entries)
              && if id in db.operations then
                   var stored := db.operations[id];
                   && stored.target == o.target && stored.kind == o.kind && stored.newTitle == o.newTitle
                   && stored.newSlug == o.newSlug && stored.parent == o.parent
                 else
                   var pages := WithPage(c, db, o.target, db.log.entries[o.target].title).pages;
                   o.newSlug.Some? ==>
                     forall other :: other in pages && other != o.target ==>
                       pages[other].slug != c.slugOf(o.newSlug.value)
  {
    hide Text.Strip, FreeSlug, WithPage;
  }

  lemma RequestRefusedFor(c: Config, db: Db, id: string, o: Operation, requester: string)
    requires Requested(c, db, id, o, requester).Err?
    ensures Requested(c, db, id, o, requester).error
            == if Text.Strip(requester) == "" then BlankText
               else if !Asks(o) then BadOperation
               else if o.target !in db.log.entries then MissingTarget
               else if o.parent == Some(o.target) then SelfParent
               else if o.parent.Some? && o.parent.value !in db.log.entries then MissingParent
               else if id in db.operations then DifferentContent
               else SlugInUse
  {
    hide Text.Strip, FreeSlug, WithPage;
  }

  /** Stored pending and with the cleaned slug, beside the target's page. */
  lemma RequestStores(c: Config, db: Db, id: string, o: Operation, requester: string)
    requires Requested(c, db, id, o, requester).Ok?
    ensures var later := Requested(c, db, id, o, requester).value;
            var paged := WithPage(c, db, o.target, db.log.entries[o.target].title);
            && later == paged.(operations := later.operations)
            && later.operations
               == if id in db.operations then db.operations
                  else db.operations[id := Operation(o.target, o.kind, o.newTitle,
                                                     if o.newSlug.Some? then Some(c.slugOf(o.newSlug.value)) else None,
                                                     o.parent, PendingReview)]
  {
    hide Text.Strip, FreeSlug;
  }

  /** A page is moved below its new parent, and nothing else changes. */
  lemma MoveStores(c: Config, db: Db, o: Operation)
    requires o.target in db.pages && o.target in db.log.entries && o.kind == Move
    ensures Applied(c, db, o)
            == Ok(db.(pages := db.pages[o.target := Page(db.pages[o.target].slug, o.parent)]))
  {
  }

  /** An entry is archived, and nothing else changes. */
  lemma ArchiveStores(c: Config, db: Db, o: Operation)
    requires o.target in db.pages && o.target in db.log.entries && o.kind == Archive
    ensures Applied(c, db, o).Ok?
    ensures var later, entry := Applied(c, db, o).value, db.log.entries[o.target];
            && later == db.(log := db.log.(entries := later.log.entries))
            && later.log.entries
               == db.log.entries[o.target :=
                    Entry(entry.title, ArchivedEntry, entry.category, entry.authority, entry.current)]
  {
  }

  /** A rename is accepted when no other page has the slug and, for a new title, the current revision can be read. */
  lemma RenameSucceedsIff(c: Config, db: Db, o: Operation)
    requires DbInv(c, db) && o.target in db.pages && o.target in db.log.entries && o.kind == Rename
    ensures Applied(c, db, o).Ok? <==>
              && (o.newSlug.Some? ==>
                    forall other :: other in db.pages && other != o.target ==> db.pages[other].slug != o.newSlug.value)
              && (o.newTitle.Some? ==>
                    RevisionFits(o.target, db.log.revisions[Rev(o.target, db.log.entries[o.target].current)]))
  {
    var current := Rev(o.target, db.log.entries[o.target].current);
    RevisionIsReadIffFits(c, db, current);
    assert RefsFit(db.log.revisions[current].refs, db.evidenceRefs);
    assert Rev(o.target, db.log.entries[o.target].current + 1) !in db.log.revisions;
    hide GetRevision, RevisionFits, KnowledgeLog.RevisionAgrees, Appended;
  }

  lemma RenameRefusedFor(c: Config, db: Db, o: Operation)
    requires DbInv(c, db) && o.target in db.pages && o.target in db.log.entries && o.kind == Rename
    requires Applied(c, db, o).Err?
    ensures Applied(c, db, o).error
            == if && o.newSlug.Some?
                  && exists other :: other in db.pages && other != o.target && db.pages[other].slug == o.newSlug.value
               then SlugInUse else InvalidRecord
  {
    var current := Rev(o.target, db.log.entries[o.target].current);
    RevisionIsReadIffFits(c, db, current);
    assert RefsFit(db.log.revisions[current].refs, db.evidenceRefs);
    assert Rev(o.target, db.log.entries[o.target].current + 1) !in db.log.revisions;
    hide RevisionFits, KnowledgeLog.RevisionAgrees, Appended;
  }

  /** The revision of a new title: the current content and evidence under the new title. */
  predicate IsRetitled(row: Revision, was: Revision, id: string, revision: int, title: string) {
    && row.title == title && row.content == was.content && row.contentHash == was.contentHash && row.refs == was.refs
    && row.authority == was.authority && row.flagged == was.flagged
    && row.sourceType == "wiki_rename" && row.status == ApprovedEntry
    && (0 <= revision ==> row.locator == id + "#" + Decimal.Print(revision))
  }

  /** A slug changes the page; a title appends a revision with the content and evidence of the current one and
      is the entry's from then on; nothing else changes. */
  lemma RenameStores(c: Config, db: Db, o: Operation)
    requires DbInv(c, db) && o.target in db.pages && o.target in db.log.entries && o.kind == Rename
    requires Applied(c, db, o).Ok?
    ensures var later := Applied(c, db, o).value;
            && later.pages == (if o.newSlug.Some? then
                                 db.pages[o.target := Page(o.newSlug.value, db.pages[o.target].parent)] else db.pages)
            && later == db.(pages := later.pages, log := later.log)
            && (o.newTitle.None? ==> later.log == db.log)
            && (o.newTitle.Some? ==> Retitles(c, db.log, later.log, o.target, o.newTitle.value))
  {
    hide Retitled, DbInv;
    if o.newTitle.Some? {
      var slugged := if o.newSlug.Some? then Reslugged(db, o.target, o.newSlug.value).value else db;
      SluggedKeepsInv(c, db, o);
      TitleStores(c, slugged, o.target, o.newTitle.value);
      hide Retitles;
    }
  }

  lemma SluggedKeepsInv(c: Config, db: Db, o: Operation)
    requires DbInv(c, db) && o.target in db.pages && o.kind == Rename
    requires o.newSlug.Some? ==> Reslugged(db, o.target, o.newSlug.value).Ok?
    ensures DbInv(c, if o.newSlug.Some? then Reslugged(db, o.target, o.newSlug.value).value else db)
  {
  }

  ghost predicate Retitles(c: Config, log: Log, later: Log, id: string, title: string) {
    && id in log.entries && Rev(id, log.entries[id].current) in log.revisions
    && var entry, r := log.entries[id], Rev(id, log.entries[id].current + 1);
       && r !in log.revisions && r in later.revisions && later.revisions == log.revisions[r := later.revisions[r]]
       && IsRetitled(later.revisions[r], log.revisions[Rev(id, entry.current)], id, entry.current, title)
       && InOrdinalOrder(later.evidence, r) == log.revisions[Rev(id, entry.current)].refs
       && later.entries
          == log.entries[id := Entry(title, entry.status, entry.category, entry.authority, entry.current + 1)]
  }

  lemma TitleStores(c: Config, db: Db, id: string, title: string)
    requires DbInv(c, db) && id in db.log.entries && Retitled(c, db, id, title).Ok?
    ensures var later := Retitled(c, db, id, title).value;
            later == db.(log := later.log) && Retitles(c, db.log, later.log, id, title)
  {
    var entry := db.log.entries[id];
    var current := Rev(id, entry.current);
    hide GetRevision, RevisionFits, Appended, InOrdinalOrder, KnowledgeLog.RevisionAgrees, TextsClean, RefsValid;
    hide SlugsUnique;
    RevisionIsReadIffFits(c, db, current);
    var row := RenamedRow(db.log.revisions[current], id, entry.current, title);
    AppendedReads(c.env, db.log, Rev(id, entry.current + 1), entry.(title := title, current := entry.current + 1), row);
  }

  /** A review of an operation records the decision and, when it approves, applies the operation to the
      tables with the target's page. */
  lemma OperationReviewStores(c: Config, db: Db, id: string, review: OperationReview)
    ensures var outcome := OperationReviewed(c, db, id, review);
            && (outcome.Ok? ==>
                  && (review.decision == ApprovedReview || review.decision == RejectedReview)
                  && Text.Strip(review.reviewer) != "" && Text.Strip(review.reason) != ""
                  && id in db.operations && db.operations[id].status == PendingReview
                  && var o := db.operations[id];
                     var recorded := Operation(o.target, o.kind, o.newTitle, o.newSlug, o.parent, review.decision);
                     && o.target in db.log.entries && outcome.value.operations == db.operations[id := recorded]
                     && (review.decision == RejectedReview ==>
                           outcome.value == db.(operations := db.operations[id := recorded]))
                     && (review.decision == ApprovedReview ==>
                           outcome == Applied(c, Decided(c, db, id, recorded), o)))
            && (&& (review.decision == ApprovedReview || review.decision == RejectedReview)
                && Text.Strip(review.reviewer) != "" && Text.Strip(review.reason) != ""
                && id in db.operations && db.operations[id].status == PendingReview
                && db.operations[id].target in db.log.entries
                && (review.decision == ApprovedReview ==>
                      Applied(c, Decided(c, db, id, db.operations[id].(status := ApprovedReview)),
                              db.operations[id]).Ok?)
                ==> outcome.Ok?)
  {
    hide Text.Strip, FreeSlug, Applied;
    if OperationReviewed(c, db, id, review).Ok? && review.decision == ApprovedReview {
      var o := db.operations[id];
      ApplyingKeepsOperations(c, Decided(c, db, id, o.(status := ApprovedReview)), o);
    }
  }

  lemma OperationReviewRefusedFor(c: Config, db: Db, id: string, review: OperationReview)
    requires OperationReviewed(c, db, id, review).Err?
    ensures var error := OperationReviewed(c, db, id, review).error;
            if review.decision == PendingReview then error == BadDecision
            else if Text.Strip(review.reviewer) == "" || Text.Strip(review.reason) == "" then error == BlankText
            else if id !in db.operations then error == Missing
            else if db.operations[id].status != PendingReview then error == AlreadyReviewed
            else if db.operations[id].target !in db.log.entries then error == MissingTarget
            else
              && review.decision == ApprovedReview
              && Applied(c, Decided(c, db, id, db.operations[id].(status := ApprovedReview)), db.operations[id])
                 == Err(error)
  {
    hide Text.Strip, FreeSlug, Applied;
  }

  /** The tables when the operation is applied: it is recorded as decided, and its target has a page. */
  ghost function Decided(c: Config, db: Db, id: string, o: Operation): (later: Db)
    requires o.target in db.log.entries
    ensures later.log == db.log && o.target in later.pages
  {
    WithPage(c, db.(operations := db.operations[id := o]), o.target, db.log.entries[o.target].title)
  }

  lemma ApplyingKeepsOperations(c: Config, db: Db, o: Operation)
    requires o.target in db.pages && o.target in db.log.entries && Applied(c, db, o).Ok?
    ensures Applied(c, db, o).value.operations == db.operations
  {
    hide GetRevision, Appended, Appendable, SlugTakenByOther;
  }
}
