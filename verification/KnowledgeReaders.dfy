/** What callers of the knowledge repository are answered over whole runs: which records can be
    read, and which requests can be repeated. */
module KnowledgeReaders {
  import Decimal
  import Chunks
  import opened Identifiers
  import opened Knowledge
  import opened KnowledgeLog
  import opened Revisions
  import Text
  import opened WikiSlugs
  import opened Wrappers

  // ---- What an event commits ----

  /** A revision row, with the entry as it is then. */
  datatype Commit = Commit(r: Rev, entry: Entry, row: Revision)

  function ImportCommit(c: Config, d: Document, text: string): Commit {
    Commit(Rev(d.id, 1), Entry(d.title, ProposedEntry, d.category, d.authority, 1), ImportRow(c, d, text))
  }

  function ApprovalCommit(log: Log, id: string, p: Proposal): Commit {
    var target := TargetOf(id, p);
    Commit(Rev(target, NextRevision(log, target)), ApprovedEntryOf(log, target, p), ApprovedRow(id, p))
  }

  function RetitleCommit(log: Log, id: string, title: string): Commit
    requires id in log.entries && GetRevision(log, Rev(id, log.entries[id].current)).Ok?
  {
    var entry := log.entries[id];
    var current := GetRevision(log, Rev(id, entry.current)).value;
    Commit(Rev(id, entry.current + 1), entry.(title := title, current := entry.current + 1),
           RenamedRow(current, id, entry.current, title))
  }

  function RestoreCommit(log: Log, read: RollbackRead): Commit
    requires read.target.id in log.entries
  {
    Commit(Rev(read.target.id, read.current + 1),
           log.entries[read.target.id].(status := ApprovedEntry, current := read.current + 1), RollbackRow(read.target))
  }

  predicate Retitles(o: Operation, review: OperationReview) {
    review.decision == ApprovedReview && o.kind == Rename && o.newTitle.Some?
  }

  /** The revision that a call appends when it succeeds, if it appends one. */
  ghost function CallCommit(c: Config, db: Db, call: Call): Option<Commit> {
    if Attempt(c, db, call).Err? then None
    else
      match call
      case Import(d) =>
        if d.id in db.log.entries then None else Some(ImportCommit(c, d, Chunks.CleanContent(d.text).value))
      case Review(id, decision) =>
        if decision == ApprovedReview then Some(ApprovalCommit(db.log, id, db.proposals[id])) else None
      case ReviewOperation(id, review) =>
        var o := db.operations[id];
        if Retitles(o, review) then Some(RetitleCommit(db.log, o.target, o.newTitle.value)) else None
      case _ => None
  }

  ghost function EventCommit(c: Config, s: State, e: Event): Option<Commit> {
    match e
    case Whole(call) => CallCommit(c, s.db, call)
    case WriteRollback(caller) =>
      if caller in s.rollbacks && RolledBack(c, s.db, s.rollbacks[caller]).Ok?
      then Some(RestoreCommit(s.db.log, s.rollbacks[caller])) else None
    case _ => None
  }

  predicate TitleKept(log: Log, x: Commit) {
    x.entry.title == x.row.title || (x.r.id in log.entries && x.entry.title == log.entries[x.r.id].title)
  }

  predicate SameTexts(log: Log, later: Log) {
    && later.revisions == log.revisions && later.entries.Keys == log.entries.Keys
    && forall id :: id in log.entries ==> later.entries[id].title == log.entries[id].title
  }

  /** A log after a commit, or after none. */
  ghost predicate LogAfter(c: Config, log: Log, commit: Option<Commit>, later: Log) {
    match commit
    case Some(x) =>
      && x.r !in log.revisions && TitleKept(log, x) && later == Appended(c.env, log, x.r, x.entry, x.row)
    case None => SameTexts(log, later)
  }

  lemma RetitlingCommits(c: Config, db: Db, id: string, title: string)
    requires id in db.log.entries && Retitled(c, db, id, title).Ok?
    ensures GetRevision(db.log, Rev(id, db.log.entries[id].current)).Ok?
    ensures LogAfter(c, db.log, Some(RetitleCommit(db.log, id, title)), Retitled(c, db, id, title).value.log)
  {
    hide GetRevision, Appended, LocatorOf;
  }

  lemma ApplyingCommits(c: Config, db: Db, o: Operation)
    requires o.target in db.pages && o.target in db.log.entries && Applied(c, db, o).Ok?
    ensures o.kind == Rename && o.newTitle.Some? ==>
              GetRevision(db.log, Rev(o.target, db.log.entries[o.target].current)).Ok?
    ensures LogAfter(c, db.log, if o.kind == Rename && o.newTitle.Some?
                                then Some(RetitleCommit(db.log, o.target, o.newTitle.value)) else None,
                     Applied(c, db, o).value.log)
  {
    if o.kind == Rename && o.newTitle.Some? {
      var slugged := if o.newSlug.Some? then Reslugged(db, o.target, o.newSlug.value).value else db;
      assert slugged.log == db.log;
      RetitlingCommits(c, slugged, o.target, o.newTitle.value);
      hide GetRevision, Retitled, RetitleCommit, LogAfter;
    }
  }

  lemma CallCommits(c: Config, db: Db, call: Call)
    requires DbInv(c, db)
    ensures LogAfter(c, db.log, CallCommit(c, db, call), OrElse(Attempt(c, db, call), db).log)
  {
    hide DbInv, Chunks.CleanContent, Text.Strip, GetRevision, Appended;
    if Attempt(c, db, call).Ok? {
      match call
      case ReviewOperation(id, review) =>
        var o := db.operations[id];
        var decided := db.(operations := db.operations[id := o.(status := review.decision)]);
        if review.decision == ApprovedReview {
          DecidingKeepsInv(c, db, id, o.(status := review.decision));
          WithPageKeepsInv(c, decided, o.target, db.log.entries[o.target].title);
          ApplyingCommits(c, WithPage(c, decided, o.target, db.log.entries[o.target].title), o);
        }
      case _ =>
    }
  }

  lemma EventCommits(c: Config, s: State, e: Event)
    requires Knowledge.Inv(c, s)
    ensures LogAfter(c, s.db.log, EventCommit(c, s, e), Step(c, s, e).db.log)
  {
    match e
    case Whole(call) => CallCommits(c, s.db, call);
    case ReadRollbackTarget(caller, id, revision) => FirstReadKeepsInv(c, s, caller, id, revision);
    case ReadRollbackEntry(caller) => SecondReadKeepsInv(c, s, caller);
    case WriteRollback(caller) =>
      hide Appended, Knowledge.Inv;
  }

  /** An entry has the title of one of its revisions. */
  ghost predicate TitlesRecorded(log: Log) {
    forall id :: id in log.entries ==>
      exists r :: r in log.revisions && r.id == id && log.revisions[r].title == log.entries[id].title
  }

  lemma CommitKeepsTitles(c: Config, log: Log, commit: Option<Commit>, later: Log)
    requires TitlesRecorded(log) && LogAfter(c, log, commit, later)
    ensures TitlesRecorded(later)
  {
    forall id | id in later.entries
      ensures exists x :: x in later.revisions && x.id == id && later.revisions[x].title == later.entries[id].title
    {
      if commit.Some? && id == commit.value.r.id && commit.value.entry.title == commit.value.row.title {
        assert later.revisions[commit.value.r].title == later.entries[id].title;
      } else {
        var x :| x in log.revisions && x.id == id && log.revisions[x].title == log.entries[id].title;
        assert later.revisions[x] == log.revisions[x];
      }
    }
  }

  // ---- Which records can be read ----

  /** In a reachable state each reader raises exactly when the texts of its row do not fit. */
  lemma ReadersRaiseIff(c: Config, start: State, events: seq<Event>)
    requires Begins(start)
    ensures var db := Run(c, start, events).db;
            && (forall r :: r in db.log.revisions ==>
                  GetRevision(db.log, r)
                  == if RevisionFits(r.id, db.log.revisions[r]) then Ok(db.log.revisions[r]) else Err(InvalidRecord))
            && (forall id :: id in db.log.entries ==>
                  (GetEntry(db.log, id).Ok? <==> EntryFits(id, db.log.entries[id])))
            && (forall id :: id in db.proposals ==> (GetProposal(db, id).Ok? <==> ProposalFits(id, db.proposals[id])))
  {
    RunKeepsInv(c, start, events);
    var db := Run(c, start, events).db;
    forall r | r in db.log.revisions
      ensures GetRevision(db.log, r)
              == if RevisionFits(r.id, db.log.revisions[r]) then Ok(db.log.revisions[r]) else Err(InvalidRecord)
    {
      RevisionIsReadIffFits(c, db, r);
    }
    hide GetRevision, RevisionFits, Run;
  }

  ghost predicate AllRead(db: Db) {
    && (forall r :: r in db.log.revisions ==> GetRevision(db.log, r).Ok?)
    && (forall id :: id in db.log.entries ==> GetEntry(db.log, id).Ok?)
    && (forall id :: id in db.proposals ==> GetProposal(db, id).Ok?)
  }

  ghost predicate AllFit(db: Db) {
    && (forall r :: r in db.log.revisions ==> RevisionFits(r.id, db.log.revisions[r]))
    && (forall id :: id in db.proposals ==> ProposalFits(id, db.proposals[id]))
  }

  lemma AllReadIffAllFit(c: Config, db: Db)
    requires DbInv(c, db) && TitlesRecorded(db.log)
    ensures AllRead(db) <==> AllFit(db)
  {
    forall r | r in db.log.revisions
      ensures GetRevision(db.log, r).Ok? <==> RevisionFits(r.id, db.log.revisions[r])
    {
      RevisionIsReadIffFits(c, db, r);
    }
    hide GetRevision;
    if AllFit(db) {
      forall id | id in db.log.entries
        ensures EntryFits(id, db.log.entries[id])
      {
        var r :| r in db.log.revisions && r.id == id && db.log.revisions[r].title == db.log.entries[id].title;
        assert RevisionFits(r.id, db.log.revisions[r]);
      }
    }
  }

  // ---- When every record can be read ----

  predicate DocumentFits(d: Document) {
    && OpaqueId(d.id) && OpaqueId(d.evidenceRef)
    && TitleFits(d.title) && 1 <= |d.sourceType| <= MAX_SOURCE_TYPE && 1 <= |d.locator| <= MAX_LOCATOR
  }

  predicate LocatorFits(id: string, revision: int) {
    |LocatorOf(id, revision)| <= MAX_LOCATOR
  }

  predicate ApprovalFits(id: string, p: Proposal) {
    && OpaqueId(TargetOf(id, p)) && AllOpaque(p.refs)
    && TitleFits(p.title) && |"proposal:" + id| <= MAX_LOCATOR
  }

  predicate CommitFits(x: Commit) {
    RevisionFits(x.r.id, x.row)
  }

  /** The identifiers and texts that a call commits fit. */
  ghost predicate CallFits(c: Config, db: Db, call: Call) {
    Attempt(c, db, call).Ok? ==>
      match call
      case Import(d) => d.id in db.log.entries || DocumentFits(d)
      case Propose(id, p) => id in db.proposals || ProposalFits(id, p)
      case Review(id, decision) =>
        decision == RejectedReview || ApprovalFits(id, db.proposals[id])
      case Request(_, _, _) => true
      case ReviewOperation(id, review) =>
        var o := db.operations[id];
        Retitles(o, review) ==> TitleFits(o.newTitle.value) && LocatorFits(o.target, db.log.entries[o.target].current)
  }

  ghost predicate EventFits(c: Config, s: State, e: Event) {
    match e
    case Whole(call) => CallFits(c, s.db, call)
    case WriteRollback(caller) =>
      caller in s.rollbacks && RolledBack(c, s.db, s.rollbacks[caller]).Ok? ==>
        LocatorFits(s.rollbacks[caller].target.id, s.rollbacks[caller].target.revision)
    case _ => true
  }

  /** Every import, proposal, approval, rename and rollback of the run that commits has texts that fit. */
  ghost predicate CommittedTextsFit(c: Config, s: State, events: seq<Event>)
    decreases |events|
  {
    events == [] || (EventFits(c, s, events[0]) && CommittedTextsFit(c, Step(c, s, events[0]), events[1..]))
  }

  lemma RetitlingReads(c: Config, db: Db, id: string, review: OperationReview)
    requires OperationReviewed(c, db, id, review).Ok? && Retitles(db.operations[id], review)
    ensures var o := db.operations[id];
            GetRevision(db.log, Rev(o.target, db.log.entries[o.target].current)).Ok?
  {
    hide Text.Strip, GetRevision, Appended, Appendable, FreeSlug, SlugTakenByOther;
  }

  lemma SingleOpaque(id: string)
    ensures AllOpaque([id]) <==> OpaqueId(id)
  {
    assert id in [id];
  }

  lemma CallFitsIffItsCommitFits(c: Config, db: Db, call: Call)
    requires !call.Propose?
    ensures CallFits(c, db, call) <==>
              (CallCommit(c, db, call).Some? ==> CommitFits(CallCommit(c, db, call).value))
  {
    hide Requested, Proposed, Applied, WithPage, Chunks.CleanContent, Text.Strip, OpaqueId;
    if Attempt(c, db, call).Ok? {
      match call
      case Import(d) => SingleOpaque(d.evidenceRef);
      case ReviewOperation(id, review) =>
        if Retitles(db.operations[id], review) { RetitlingReads(c, db, id, review); }
      case _ =>
    }
  }

  /** Rows that fit stay, and only what is committed is added. */
  lemma FittingRowsAfter(c: Config, log: Log, commit: Option<Commit>, later: Log)
    requires LogAfter(c, log, commit, later)
    ensures (forall r :: r in later.revisions ==> RevisionFits(r.id, later.revisions[r])) <==>
              && (forall r :: r in log.revisions ==> RevisionFits(r.id, log.revisions[r]))
              && (commit.Some? ==> CommitFits(commit.value))
  {
    hide RevisionFits;
    if commit.Some? {
      var r := commit.value.r;
      assert later.revisions[r] == commit.value.row;
      assert forall x :: x in log.revisions ==> later.revisions[x] == log.revisions[x];
    }
  }

  /** What a proposal's record is made of never changes. */
  ghost predicate SameProposals(db: Db, later: Db) {
    && later.proposals.Keys == db.proposals.Keys
    && forall id :: id in db.proposals ==>
         && later.proposals[id].title == db.proposals[id].title && later.proposals[id].base == db.proposals[id].base
         && later.proposals[id].refs == db.proposals[id].refs
  }

  lemma ApplyingKeepsRequests(c: Config, db: Db, o: Operation)
    requires o.target in db.pages && o.target in db.log.entries && Applied(c, db, o).Ok?
    ensures Applied(c, db, o).value.proposals == db.proposals && Applied(c, db, o).value.operations == db.operations
  {
    hide GetRevision, Appended, Appendable, SlugTakenByOther;
  }

  lemma OtherCallsKeepProposals(c: Config, db: Db, call: Call)
    requires !call.Propose?
    ensures SameProposals(db, OrElse(Attempt(c, db, call), db))
  {
    hide Chunks.CleanContent, Text.Strip, Appended, Appendable, SlugTakenByOther, Applied, EvidenceAccepted, FreeSlug;
    if call.ReviewOperation? && Attempt(c, db, call).Ok? && call.review.decision == ApprovedReview {
      var o := db.operations[call.id];
      var decided := db.(operations := db.operations[call.id := o.(status := ApprovedReview)]);
      ApplyingKeepsRequests(c, WithPage(c, decided, o.target, db.log.entries[o.target].title), o);
    }
  }

  lemma FittingProposalsAfter(c: Config, db: Db, id: string, p: Proposal)
    requires DbInv(c, db) && Proposed(c, db, id, p).Ok?
    ensures var later := Proposed(c, db, id, p).value;
            && later.log == db.log
            && ((forall x :: x in later.proposals ==> ProposalFits(x, later.proposals[x])) <==>
                  && (forall x :: x in db.proposals ==> ProposalFits(x, db.proposals[x]))
                  && (id in db.proposals || ProposalFits(id, p)))
  {
    hide Chunks.CleanContent;
    var later := Proposed(c, db, id, p).value;
    if id !in db.proposals {
      assert ProposalFits(id, later.proposals[id]) <==> ProposalFits(id, p);
      assert forall x :: x in db.proposals ==> later.proposals[x] == db.proposals[x];
    }
  }

  lemma SameProposalsFit(db: Db, later: Db)
    requires SameProposals(db, later)
    ensures (forall id :: id in later.proposals ==> ProposalFits(id, later.proposals[id])) <==>
              forall id :: id in db.proposals ==> ProposalFits(id, db.proposals[id])
  {
    forall id | id in db.proposals
      ensures ProposalFits(id, later.proposals[id]) <==> ProposalFits(id, db.proposals[id])
    {
    }
    hide ProposalFits;
  }

  lemma OtherCallKeepsFitIff(c: Config, db: Db, call: Call)
    requires DbInv(c, db) && !call.Propose?
    ensures AllFit(OrElse(Attempt(c, db, call), db)) <==> AllFit(db) && CallFits(c, db, call)
  {
    CallCommits(c, db, call);
    CallFitsIffItsCommitFits(c, db, call);
    OtherCallsKeepProposals(c, db, call);
    hide DbInv, CallFits, CallCommit, Attempt, RevisionFits, ProposalFits, LogAfter, SameProposals, CommitFits;
    FittingRowsAfter(c, db.log, CallCommit(c, db, call), OrElse(Attempt(c, db, call), db).log);
    SameProposalsFit(db, OrElse(Attempt(c, db, call), db));
  }

  lemma CallKeepsFitIff(c: Config, db: Db, call: Call)
    requires DbInv(c, db)
    ensures AllFit(OrElse(Attempt(c, db, call), db)) <==> AllFit(db) && CallFits(c, db, call)
  {
    if call.Propose? {
      if Attempt(c, db, call).Ok? { FittingProposalsAfter(c, db, call.id, call.proposal); }
      hide DbInv, Proposed, RevisionFits, ProposalFits;
    } else {
      OtherCallKeepsFitIff(c, db, call);
    }
  }

  lemma RestoreKeepsFitIff(c: Config, s: State, caller: nat)
    requires Knowledge.Inv(c, s)
    ensures AllFit(Step(c, s, WriteRollback(caller)).db) <==> AllFit(s.db) && EventFits(c, s, WriteRollback(caller))
  {
    var e := WriteRollback(caller);
    EventCommits(c, s, e);
    if EventCommit(c, s, e).Some? {
      assert TargetValid(c, s.db, s.rollbacks[caller].target);
      assert CommitFits(EventCommit(c, s, e).value) <==> EventFits(c, s, e);
    }
    hide LogAfter, Knowledge.Inv, RevisionFits, EventFits;
    FittingRowsAfter(c, s.db.log, EventCommit(c, s, e), Step(c, s, e).db.log);
  }

  lemma StepKeepsFitIff(c: Config, s: State, e: Event)
    requires Knowledge.Inv(c, s)
    ensures AllFit(Step(c, s, e).db) <==> AllFit(s.db) && EventFits(c, s, e)
  {
    match e
    case Whole(call) => CallKeepsFitIff(c, s.db, call);
    case ReadRollbackTarget(caller, id, revision) => FirstReadKeepsInv(c, s, caller, id, revision);
    case ReadRollbackEntry(caller) => SecondReadKeepsInv(c, s, caller);
    case WriteRollback(caller) => RestoreKeepsFitIff(c, s, caller);
  }

  lemma {:induction false} RunKeepsFitIff(c: Config, s: State, events: seq<Event>)
    requires Knowledge.Inv(c, s) && TitlesRecorded(s.db.log)
    ensures AllFit(Run(c, s, events).db) <==> AllFit(s.db) && CommittedTextsFit(c, s, events)
    ensures Knowledge.Inv(c, Run(c, s, events)) && TitlesRecorded(Run(c, s, events).db.log)
    decreases |events|
  {
    if events != [] {
      var next := Step(c, s, events[0]);
      StepKeepsInv(c, s, events[0]);
      EventCommits(c, s, events[0]);
      CommitKeepsTitles(c, s.db.log, EventCommit(c, s, events[0]), next.db.log);
      StepKeepsFitIff(c, s, events[0]);
      hide Knowledge.Inv, TitlesRecorded, AllFit, EventFits, Step, LogAfter;
      RunKeepsFitIff(c, next, events[1..]);
    }
  }

  /** Over every run: no reader of an entry, a revision or a proposal raises in the end if and only if
      every import, proposal, approval, rename and rollback that was committed had texts that fit. */
  lemma AllReadIffCommittedTextsFit(c: Config, start: State, events: seq<Event>)
    requires Begins(start)
    ensures AllRead(Run(c, start, events).db) <==> CommittedTextsFit(c, start, events)
  {
    RunKeepsFitIff(c, start, events);
    AllReadIffAllFit(c, Run(c, start, events).db);
  }

  /** For identifiers of their form, locators fit whatever the revision. */
  lemma ShortLocatorsFit(id: string, revision: nat)
    requires OpaqueId(id) && revision < Decimal.Power(MAX_LOCATOR - 129)
    ensures LocatorFits(id, revision) && |"proposal:" + id| <= MAX_LOCATOR
  {
    Decimal.PrintIsShort(revision, MAX_LOCATOR - 129);
  }

  /** An entry named after its proposal has an identifier of its form unless the proposal's is as long as can be. */
  lemma NamedAfterProposalIff(id: string, p: Proposal)
    requires OpaqueId(id) && p.target.None?
    ensures OpaqueId(TargetOf(id, p)) <==> |id| < 128
  {
    var prefix := "knowledge_";
    assert forall x :: x in prefix ==> 'a' <= x <= 'z' || x == '_';
    assert TargetOf(id, p)[0] == 'k';
    if |id| > 9 { assert forall x :: x in id[9..] ==> x in id; }
  }

  // ---- A rename to an empty title ----

  function EmptyTitle(id: string, slug: string): Operation {
    Operation(id, Rename, Some(""), Some(slug), None, PendingReview)
  }

  /** A rename may set an empty title beside a slug. Then neither the entry nor its current revision can
      be read, no revision of it can be restored, and it cannot be renamed again. */
  ghost predicate Stuck(c: Config, db: Db, id: string) {
    && id in db.log.entries && Rev(id, db.log.entries[id].current) in db.log.revisions
    && GetEntry(db.log, id) == Err(InvalidRecord)
    && GetRevision(db.log, Rev(id, db.log.entries[id].current)) == Err(InvalidRecord)
    && (forall target :: !CanRestore(db.log, id, target))
    && (forall title :: Retitled(c, db, id, title) == Err(InvalidRecord))
  }

  lemma EmptyTitleSticks(c: Config, db: Db, id: string, title: string)
    requires DbInv(c, db) && id in db.log.entries && title == ""
    requires RevisionFits(id, db.log.revisions[Rev(id, db.log.entries[id].current)])
    ensures Retitled(c, db, id, title).Ok? && Stuck(c, Retitled(c, db, id, title).value, id)
    ensures Retitled(c, db, id, title).value.operations == db.operations
  {
    var entry := db.log.entries[id];
    var current := Rev(id, entry.current);
    RevisionIsReadIffFits(c, db, current);
    assert RevisionAgrees(c.env, db.log, current);
    hide GetRevision, RevisionFits, LocatorOf;
    assert Retitled(c, db, id, title).Ok?;
    var later := Retitled(c, db, id, title).value;
    RetitleKeepsInv(c, db, id, title);
    EmptyTitleIsNotRead(c, later, id);
  }

  lemma EmptyTitleIsNotRead(c: Config, db: Db, id: string)
    requires DbInv(c, db) && id in db.log.entries && db.log.entries[id].title == ""
    requires db.log.revisions[Rev(id, db.log.entries[id].current)].title == ""
    ensures Stuck(c, db, id)
  {
    var current := Rev(id, db.log.entries[id].current);
    RevisionIsReadIffFits(c, db, current);
    assert !RevisionFits(current.id, db.log.revisions[current]);
    hide GetRevision, DbInv;
  }

  /** The stored request, beside the page of its target. */
  ghost function EmptyTitleRequested(c: Config, db: Db, id: string, opId: string, slug: string): Db
    requires id in db.log.entries
  {
    var paged := WithPage(c, db, id, db.log.entries[id].title);
    paged.(operations := paged.operations[opId := EmptyTitle(id, slug).(newSlug := Some(c.slugOf(slug)))])
  }

  lemma EmptyTitleIsRequested(c: Config, db: Db, id: string, opId: string, slug: string, requester: string)
    requires DbInv(c, db) && id in db.log.entries && opId !in db.operations && slug != ""
    requires Text.Strip(requester) != ""
    requires !SlugTakenByOther(WithPage(c, db, id, db.log.entries[id].title).pages, c.slugOf(slug), id)
    ensures Requested(c, db, opId, EmptyTitle(id, slug), requester) == Ok(EmptyTitleRequested(c, db, id, opId, slug))
    ensures var requested := EmptyTitleRequested(c, db, id, opId, slug);
            && DbInv(c, requested) && requested.log == db.log && id in requested.pages
  {
    hide Text.Strip, FreeSlug, SlugTakenByOther;
    RequestKeepsInv(c, db, opId, EmptyTitle(id, slug), requester);
    WithPageKeepsInv(c, db, id, db.log.entries[id].title);
    hide DbInv;
  }

  lemma EmptyTitleIsApproved(c: Config, db: Db, id: string, opId: string, slug: string, review: OperationReview)
    requires DbInv(c, db) && id in db.log.entries && id in db.pages && opId in db.operations
    requires db.operations[opId] == EmptyTitle(id, slug) && !SlugTakenByOther(db.pages, slug, id)
    requires RevisionFits(id, db.log.revisions[Rev(id, db.log.entries[id].current)])
    requires review.decision == ApprovedReview && Text.Strip(review.reviewer) != "" && Text.Strip(review.reason) != ""
    ensures var reviewed := OperationReviewed(c, db, opId, review);
            reviewed.Ok? && Stuck(c, reviewed.value, id)
  {
    hide Text.Strip, RevisionFits, Stuck, Retitled;
    var decided := db.(operations := db.operations[opId := EmptyTitle(id, slug).(status := ApprovedReview)]);
    var slugged := decided.(pages := decided.pages[id := decided.pages[id].(slug := slug)]);
    assert Reslugged(decided, id, slug) == Ok(slugged);
    assert SlugsUnique(slugged.pages);
    EmptyTitleSticks(c, slugged, id, "");
    hide DbInv, SlugTakenByOther;
    assert OperationReviewed(c, db, opId, review) == Retitled(c, slugged, id, "");
  }

  /** From any state with an entry whose current revision can be read: the request and its approval. */
  lemma EmptyTitleIsAccepted(c: Config, db: Db, id: string, opId: string, slug: string, requester: string,
                             review: OperationReview)
    requires DbInv(c, db) && id in db.log.entries && opId !in db.operations && slug != ""
    requires RevisionFits(id, db.log.revisions[Rev(id, db.log.entries[id].current)])
    requires review.decision == ApprovedReview && Text.Strip(review.reviewer) != "" && Text.Strip(review.reason) != ""
    requires Text.Strip(requester) != ""
    requires !SlugTakenByOther(WithPage(c, db, id, db.log.entries[id].title).pages, c.slugOf(slug), id)
    ensures var requested := Requested(c, db, opId, EmptyTitle(id, slug), requester);
            && requested.Ok?
            && OperationReviewed(c, requested.value, opId, review).Ok?
            && Stuck(c, OperationReviewed(c, requested.value, opId, review).value, id)
  {
    EmptyTitleIsRequested(c, db, id, opId, slug, requester);
    hide Text.Strip, RevisionFits, Stuck, FreeSlug, DbInv, Requested, OperationReviewed, WithPage;
    EmptyTitleIsApproved(c, EmptyTitleRequested(c, db, id, opId, slug), id, opId, c.slugOf(slug), review);
  }

  lemma ImportedBegins(c: Config, start: State, d: Document)
    requires Begins(start) && Imported(c, start.db, d).Ok? && DocumentFits(d)
    ensures var db := Imported(c, start.db, d).value;
            && DbInv(c, db) && d.id in db.log.entries && db.pages == map[] && db.operations == map[]
            && Rev(d.id, db.log.entries[d.id].current) in db.log.revisions
            && RevisionFits(d.id, db.log.revisions[Rev(d.id, db.log.entries[d.id].current)])
  {
    hide Chunks.CleanContent;
    ImportKeepsInv(c, start.db, d);
  }

  /** Three calls after which an entry can neither be read, rolled back nor renamed. */
  lemma EmptyTitleStopsRollback(c: Config, start: State, d: Document, opId: string, slug: string, requester: string,
                                review: OperationReview)
    requires Begins(start) && Imported(c, start.db, d).Ok? && DocumentFits(d) && slug != ""
    requires review.decision == ApprovedReview && Text.Strip(review.reviewer) != "" && Text.Strip(review.reason) != ""
    requires Text.Strip(requester) != ""
    ensures var events := [Whole(Import(d)), Whole(Request(opId, EmptyTitle(d.id, slug), requester)),
                           Whole(ReviewOperation(opId, review))];
            Stuck(c, Run(c, start, events).db, d.id)
  {
    hide Text.Strip, Stuck, Requested, OperationReviewed, Imported, FreeSlug, DbInv, RevisionFits, DocumentFits;
    ImportedBegins(c, start, d);
    var db := Imported(c, start.db, d).value;
    var first, second := Whole(Import(d)), Whole(Request(opId, EmptyTitle(d.id, slug), requester));
    var third := Whole(ReviewOperation(opId, review));
    EmptyTitleIsAccepted(c, db, d.id, opId, slug, requester, review);
    RunThree(c, start, first, second, third);
    hide EmptyTitle, Run;
  }

  lemma RunThree(c: Config, s: State, a: Event, b: Event, e: Event)
    ensures Run(c, s, [a, b, e]) == Step(c, Step(c, Step(c, s, a), b), e)
  {
    hide Step;
    RunOne(c, s, [a, b, e]);
    RunOne(c, Step(c, s, a), [b, e]);
    RunOne(c, Step(c, Step(c, s, a), b), [e]);
    assert [a, b, e][1..] == [b, e] && [b, e][1..] == [e] && [e][1..] == [];
  }

  lemma RunOne(c: Config, s: State, events: seq<Event>)
    requires events != []
    ensures Run(c, s, events) == Run(c, Step(c, s, events[0]), events[1..])
  {
    hide Step;
  }

  // ---- Repeating a request ----

  /** An operation once requested only ever changes its status. */
  predicate RequestKept(db: Db, later: Db, id: string)
    requires id in db.operations
  {
    id in later.operations && SameRequest(later.operations[id], db.operations[id])
  }

  lemma CallKeepsRequest(c: Config, db: Db, call: Call, id: string)
    requires id in db.operations
    ensures RequestKept(db, OrElse(Attempt(c, db, call), db), id)
  {
    hide Chunks.CleanContent, Text.Strip, Appended, Appendable, SlugTakenByOther, Applied, EvidenceAccepted, FreeSlug;
    if call.ReviewOperation? && Attempt(c, db, call).Ok? && call.review.decision == ApprovedReview {
      var o := db.operations[call.id];
      var decided := db.(operations := db.operations[call.id := o.(status := ApprovedReview)]);
      ApplyingKeepsRequests(c, WithPage(c, decided, o.target, db.log.entries[o.target].title), o);
    }
  }

  lemma StepKeepsRequest(c: Config, s: State, e: Event, id: string)
    requires id in s.db.operations
    ensures RequestKept(s.db, Step(c, s, e).db, id)
  {
    if e.Whole? { CallKeepsRequest(c, s.db, e.call, id); }
    hide Attempt, RolledBack, ReadTarget, ReadEntry;
  }

  lemma {:induction false} RunKeepsRequest(c: Config, s: State, events: seq<Event>, id: string)
    requires id in s.db.operations
    ensures RequestKept(s.db, Run(c, s, events).db, id)
    decreases |events|
  {
    if events != [] {
      StepKeepsRequest(c, s, events[0], id);
      RunKeepsRequest(c, Step(c, s, events[0]), events[1..], id);
      hide Step;
    }
  }

  /** Whatever has happened since, making the same request again succeeds if and only if its slug is
      one that cleaning leaves as it is; otherwise it is refused as different, for the slug that was
      stored is the cleaned one. */
  lemma RepeatedRequestIff(c: Config, s: State, id: string, o: Operation, requester: string, events: seq<Event>)
    requires Knowledge.Inv(c, s) && id !in s.db.operations && Requested(c, s.db, id, o, requester).Ok?
    ensures var later := Run(c, Step(c, s, Whole(Request(id, o, requester))), events).db;
            var again := Requested(c, later, id, o, requester);
            && (again.Ok? <==> (o.newSlug.Some? ==> c.slugOf(o.newSlug.value) == o.newSlug.value))
            && (again.Err? ==> again == Err(DifferentContent))
  {
    hide Text.Strip, FreeSlug;
    var e := Whole(Request(id, o, requester));
    var next := Step(c, s, e);
    StepKeepsInv(c, s, e);
    RunKeepsInv(c, next, events);
    RunKeepsRequest(c, next, events, id);
    hide Knowledge.Inv, Run, SlugTakenByOther;
  }
}
