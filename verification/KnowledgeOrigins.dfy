/** Where the content of every knowledge revision comes from, over every run. */
module KnowledgeOrigins {
  import Chunks
  import opened Knowledge
  import opened KnowledgeLog
  import opened KnowledgeWrites
  import opened Revisions
  import Text
  import opened Wrappers

  /** An approved proposal for this entry of which the revision has title, text, references and authority. */
  ghost predicate FromProposal(db: Db, r: Rev, q: string)
    requires r in db.log.revisions
  {
    && q in db.proposals && db.proposals[q].status == ApprovedReview && EntryNamed(q, db.proposals[q]) == r.id
    && IsApproval(db.log.revisions[r], q, db.proposals[q])
  }

  /** The first revision, or one that an approved proposal made. */
  ghost predicate IsRoot(db: Db, r: Rev) {
    r in db.log.revisions && (r.revision == 1 || exists q :: FromProposal(db, r, q))
  }

  predicate SameContent(row: Revision, was: Revision) {
    && row.content == was.content && row.contentHash == was.contentHash && row.refs == was.refs
    && row.authority == was.authority && row.flagged == was.flagged
  }

  /** The revision has the content and the evidence of a root of its own entry. */
  ghost predicate Rooted(db: Db, r: Rev) {
    && r in db.log.revisions
    && exists root :: && IsRoot(db, root) && root.id == r.id && root.revision <= r.revision
                      && SameContent(db.log.revisions[r], db.log.revisions[root])
  }

  ghost predicate AllRooted(db: Db) {
    forall r :: r in db.log.revisions ==> Rooted(db, r)
  }

  /** What a rollback has read is what is stored. */
  ghost predicate ReadStored(log: Log, target: TargetRead) {
    && Rev(target.id, target.revision) in log.revisions && target.row == log.revisions[Rev(target.id, target.revision)]
    && 1 <= target.revision
  }

  ghost predicate ReadsStored(s: State) {
    && (forall k :: k in s.targets ==> ReadStored(s.db.log, s.targets[k]))
    && (forall k :: k in s.rollbacks ==> ReadStored(s.db.log, s.rollbacks[k].target))
  }

  /** Revisions and approved proposals stay as they are. */
  ghost predicate Remembers(db: Db, later: Db) {
    && (forall r :: r in db.log.revisions ==> r in later.log.revisions && later.log.revisions[r] == db.log.revisions[r])
    && (forall q :: q in db.proposals && db.proposals[q].status == ApprovedReview ==>
          q in later.proposals && later.proposals[q] == db.proposals[q])
  }

  lemma RootStays(db: Db, later: Db, r: Rev)
    requires IsRoot(db, r) && Remembers(db, later)
    ensures IsRoot(later, r)
  {
    if q :| FromProposal(db, r, q) {
      hide EntryNamed, IsApproval;
      assert FromProposal(later, r, q);
    }
  }

  lemma RootedStays(db: Db, later: Db, r: Rev)
    requires Rooted(db, r) && Remembers(db, later)
    ensures Rooted(later, r)
  {
    var root :| && IsRoot(db, root) && root.id == r.id && root.revision <= r.revision
                && SameContent(db.log.revisions[r], db.log.revisions[root]);
    RootStays(db, later, root);
    hide FromProposal;
    assert SameContent(later.log.revisions[r], later.log.revisions[root]);
  }

  lemma RootIsRooted(db: Db, r: Rev)
    requires IsRoot(db, r)
    ensures Rooted(db, r)
  {
    hide FromProposal;
    assert SameContent(db.log.revisions[r], db.log.revisions[r]);
  }

  /** A copy of a rooted revision of its entry is rooted. */
  lemma CopyIsRooted(db: Db, r: Rev, of: Rev)
    requires Rooted(db, of) && r in db.log.revisions && r.id == of.id && of.revision <= r.revision
    requires SameContent(db.log.revisions[r], db.log.revisions[of])
    ensures Rooted(db, r)
  {
    hide FromProposal;
    var root :| && IsRoot(db, root) && root.id == of.id && root.revision <= of.revision
                && SameContent(db.log.revisions[of], db.log.revisions[root]);
    assert SameContent(db.log.revisions[r], db.log.revisions[root]);
  }

  /** Nothing is forgotten, and at most the one revision is new. */
  ghost predicate AddsAtMost(db: Db, later: Db, r: Rev) {
    Remembers(db, later) && forall x :: x in later.log.revisions ==> x in db.log.revisions || x == r
  }

  lemma AddingKeepsRooted(db: Db, later: Db, r: Rev)
    requires AllRooted(db) && AddsAtMost(db, later, r)
    requires r in later.log.revisions && r !in db.log.revisions ==> Rooted(later, r)
    ensures AllRooted(later)
  {
    hide Rooted, Remembers;
    forall x | x in later.log.revisions
      ensures Rooted(later, x)
    {
      if x in db.log.revisions { RootedStays(db, later, x); }
    }
  }

  /** A new revision that copies an older one of its entry is rooted where that is. */
  lemma CopyingKeepsRooted(db: Db, later: Db, r: Rev, of: Rev)
    requires AllRooted(db) && AddsAtMost(db, later, r)
    requires r in later.log.revisions && of in db.log.revisions && r.id == of.id && of.revision <= r.revision
    requires SameContent(later.log.revisions[r], db.log.revisions[of])
    ensures AllRooted(later)
  {
    assert later.log.revisions[of] == db.log.revisions[of];
    hide Rooted, Remembers, SameContent;
    RootedStays(db, later, of);
    CopyIsRooted(later, r, of);
    AddingKeepsRooted(db, later, r);
  }

  lemma ImportAdds(c: Config, db: Db, d: Document)
    requires DbInv(c, db) && Imported(c, db, d).Ok?
    ensures AddsAtMost(db, Imported(c, db, d).value, Rev(d.id, 1))
  {
    hide Imported, Chunks.CleanContent, DbInv;
    ImportStores(c, db, d);
  }

  lemma ImportKeepsRooted(c: Config, db: Db, d: Document)
    requires DbInv(c, db) && AllRooted(db) && Imported(c, db, d).Ok?
    ensures AllRooted(Imported(c, db, d).value)
  {
    ImportAdds(c, db, d);
    hide Imported, DbInv, Rooted, AddsAtMost, AllRooted;
    var later := Imported(c, db, d).value;
    if Rev(d.id, 1) in later.log.revisions { RootIsRooted(later, Rev(d.id, 1)); }
    AddingKeepsRooted(db, later, Rev(d.id, 1));
  }

  lemma ProposingKeepsRooted(c: Config, db: Db, id: string, p: Proposal)
    requires AllRooted(db) && Proposed(c, db, id, p).Ok?
    ensures AllRooted(Proposed(c, db, id, p).value)
  {
    ProposalStores(c, db, id, p);
    hide Proposed, Rooted, Chunks.CleanContent;
    assert AddsAtMost(db, Proposed(c, db, id, p).value, Rev("", 0));
    AddingKeepsRooted(db, Proposed(c, db, id, p).value, Rev("", 0));
  }

  lemma RejectionKeepsRooted(c: Config, db: Db, id: string)
    requires AllRooted(db) && Reviewed(c, db, id, RejectedReview).Ok?
    ensures AllRooted(Reviewed(c, db, id, RejectedReview).value)
  {
    RejectionStores(c, db, id);
    assert db.proposals[id].status == PendingReview;
    hide Reviewed, Rooted;
    assert AddsAtMost(db, Reviewed(c, db, id, RejectedReview).value, Rev("", 0));
    AddingKeepsRooted(db, Reviewed(c, db, id, RejectedReview).value, Rev("", 0));
  }

  lemma ApprovalAdds(c: Config, db: Db, id: string)
    requires DbInv(c, db) && Reviewed(c, db, id, ApprovedReview).Ok?
    ensures var r := NextOfEntry(db.log, EntryNamed(id, db.proposals[id]));
            var later := Reviewed(c, db, id, ApprovedReview).value;
            AddsAtMost(db, later, r) && r in later.log.revisions && FromProposal(later, r, id)
  {
    assert db.proposals[id].status == PendingReview;
    ApprovalStores(c, db, id);
    hide Reviewed, DbInv, EntryNamed, IsApprovedEntry;
  }

  lemma ApprovalKeepsRooted(c: Config, db: Db, id: string)
    requires DbInv(c, db) && AllRooted(db) && Reviewed(c, db, id, ApprovedReview).Ok?
    ensures AllRooted(Reviewed(c, db, id, ApprovedReview).value)
  {
    assert id in db.proposals;
    ApprovalAdds(c, db, id);
    hide Reviewed, DbInv, EntryNamed, Rooted, AllRooted, AddsAtMost, FromProposal;
    var r, later := NextOfEntry(db.log, EntryNamed(id, db.proposals[id])), Reviewed(c, db, id, ApprovedReview).value;
    RootIsRooted(later, r);
    AddingKeepsRooted(db, later, r);
  }

  lemma RequestKeepsRooted(c: Config, db: Db, id: string, o: Operation, requester: string)
    requires AllRooted(db) && Requested(c, db, id, o, requester).Ok?
    ensures AllRooted(Requested(c, db, id, o, requester).value)
  {
    RequestStores(c, db, id, o, requester);
    assert o.target in db.log.entries;
    WithPageStores(c, db, o.target, db.log.entries[o.target].title);
    hide Requested, Rooted, WithPage, IsFirstFreeSlug, Text.Strip;
    assert AddsAtMost(db, Requested(c, db, id, o, requester).value, Rev("", 0));
    AddingKeepsRooted(db, Requested(c, db, id, o, requester).value, Rev("", 0));
  }

  lemma SameLogKeepsRooted(db: Db, later: Db)
    requires AllRooted(db) && later.log == db.log && later.proposals == db.proposals
    ensures AllRooted(later)
  {
    hide Rooted;
    assert AddsAtMost(db, later, Rev("", 0));
    AddingKeepsRooted(db, later, Rev("", 0));
  }

  lemma RetitleAdds(c: Config, db: Db, later: Db, id: string, title: string)
    requires later.proposals == db.proposals && Retitles(c, db.log, later.log, id, title)
    ensures var current, r := Rev(id, db.log.entries[id].current), Rev(id, db.log.entries[id].current + 1);
            && AddsAtMost(db, later, r) && r in later.log.revisions
            && SameContent(later.log.revisions[r], db.log.revisions[current])
  {
  }

  lemma RenameKeepsRooted(c: Config, db: Db, o: Operation)
    requires DbInv(c, db) && AllRooted(db) && o.target in db.pages && o.target in db.log.entries && o.kind == Rename
    requires Applied(c, db, o).Ok?
    ensures AllRooted(Applied(c, db, o).value)
  {
    assert o.target in db.log.entries;
    hide Applied, Rooted, DbInv, AllRooted, SameContent, Retitles;
    RenameStores(c, db, o);
    var later, id := Applied(c, db, o).value, o.target;
    if o.newTitle.None? {
      SameLogKeepsRooted(db, later);
    } else {
      RetitleAdds(c, db, later, id, o.newTitle.value);
      hide AddsAtMost;
      CopyingKeepsRooted(db, later, Rev(id, db.log.entries[id].current + 1), Rev(id, db.log.entries[id].current));
    }
  }

  lemma ApplyKeepsRooted(c: Config, db: Db, o: Operation)
    requires DbInv(c, db) && AllRooted(db) && o.target in db.pages && o.target in db.log.entries
    requires Applied(c, db, o).Ok?
    ensures AllRooted(Applied(c, db, o).value)
  {
    hide Applied, Rooted, DbInv;
    var later := Applied(c, db, o).value;
    match o.kind
    case Move =>
      MoveStores(c, db, o);
      assert AddsAtMost(db, later, Rev("", 0));
      AddingKeepsRooted(db, later, Rev("", 0));
    case Archive =>
      ArchiveStores(c, db, o);
      assert AddsAtMost(db, later, Rev("", 0));
      AddingKeepsRooted(db, later, Rev("", 0));
    case Rename =>
      RenameKeepsRooted(c, db, o);
  }

  lemma PageKeepsRooted(c: Config, db: Db, id: string, o: Operation)
    requires AllRooted(db) && o.target in db.log.entries
    ensures AllRooted(Decided(c, db, id, o))
  {
    hide WithPage, IsFirstFreeSlug, Rooted, AllRooted;
    var decided := db.(operations := db.operations[id := o]);
    WithPageStores(c, decided, o.target, db.log.entries[o.target].title);
    assert AddsAtMost(db, Decided(c, db, id, o), Rev("", 0));
    AddingKeepsRooted(db, Decided(c, db, id, o), Rev("", 0));
  }

  lemma DecidedKeepsInv(c: Config, db: Db, id: string, o: Operation)
    requires DbInv(c, db) && o.target in db.log.entries
    ensures DbInv(c, Decided(c, db, id, o))
  {
    DecidingKeepsInv(c, db, id, o);
    WithPageKeepsInv(c, db.(operations := db.operations[id := o]), o.target, db.log.entries[o.target].title);
  }

  lemma OperationReviewKeepsRooted(c: Config, db: Db, id: string, review: OperationReview)
    requires DbInv(c, db) && AllRooted(db) && OperationReviewed(c, db, id, review).Ok?
    ensures AllRooted(OperationReviewed(c, db, id, review).value)
  {
    hide OperationReviewed, Rooted, DbInv, Applied, Text.Strip, Decided;
    OperationReviewStores(c, db, id, review);
    var o := db.operations[id];
    var later := OperationReviewed(c, db, id, review).value;
    if review.decision == ApprovedReview {
      hide AllRooted;
      PageKeepsRooted(c, db, id, o.(status := ApprovedReview));
      DecidedKeepsInv(c, db, id, o.(status := ApprovedReview));
      ApplyKeepsRooted(c, Decided(c, db, id, o.(status := ApprovedReview)), o);
    } else {
      assert AddsAtMost(db, later, Rev("", 0));
      AddingKeepsRooted(db, later, Rev("", 0));
    }
  }

  lemma CallKeepsRooted(c: Config, db: Db, call: Call)
    requires DbInv(c, db) && AllRooted(db)
    ensures AllRooted(OrElse(Attempt(c, db, call), db))
  {
    hide DbInv, AllRooted, Imported, Proposed, Requested, OperationReviewed;
    if Attempt(c, db, call).Ok? {
      match call
      case Import(d) => ImportKeepsRooted(c, db, d);
      case Propose(id, p) => ProposingKeepsRooted(c, db, id, p);
      case Review(id, decision) =>
        if decision == ApprovedReview { ApprovalKeepsRooted(c, db, id); } else { RejectionKeepsRooted(c, db, id); }
      case Request(id, o, requester) => RequestKeepsRooted(c, db, id, o, requester);
      case ReviewOperation(id, review) => OperationReviewKeepsRooted(c, db, id, review);
    }
  }

  lemma RollbackAdds(c: Config, s: State, k: nat, later: Db)
    requires Knowledge.Inv(c, s) && ReadsStored(s) && k in s.rollbacks
    requires RolledBack(c, s.db, s.rollbacks[k]) == Ok(later)
    ensures var read := s.rollbacks[k];
            var of, r := Rev(read.target.id, read.target.revision), Rev(read.target.id, read.current + 1);
            && AddsAtMost(s.db, later, r) && r in later.log.revisions && of in s.db.log.revisions
            && of.revision <= r.revision && SameContent(later.log.revisions[r], s.db.log.revisions[of])
  {
    var read := s.rollbacks[k];
    assert ReadStored(s.db.log, read.target);
    RollbackWritesIffStillCurrent(c, s, k);
    assert read.target.revision <= read.current;
    RolledBackStores(c, s.db, read);
    hide RolledBack, Knowledge.Inv, ReadsStored;
  }

  lemma RollbackKeepsRooted(c: Config, s: State, k: nat)
    requires Knowledge.Inv(c, s) && AllRooted(s.db) && ReadsStored(s) && k in s.rollbacks
    requires RolledBack(c, s.db, s.rollbacks[k]).Ok?
    ensures AllRooted(RolledBack(c, s.db, s.rollbacks[k]).value)
  {
    hide RolledBack, AllRooted, Knowledge.Inv, ReadsStored, AddsAtMost, SameContent;
    var read := s.rollbacks[k];
    RollbackAdds(c, s, k, RolledBack(c, s.db, read).value);
    CopyingKeepsRooted(s.db, RolledBack(c, s.db, read).value, Rev(read.target.id, read.current + 1),
                       Rev(read.target.id, read.target.revision));
  }

  lemma FirstReadIsStored(c: Config, s: State, caller: nat, id: string, revision: int)
    requires Knowledge.Inv(c, s) && ReadsStored(s)
    ensures ReadsStored(Step(c, s, ReadRollbackTarget(caller, id, revision)))
  {
    if ReadTarget(s.db.log, id, revision).Ok? {
      ReadTargetIsValid(c, s.db, id, revision);
      assert ReadStored(s.db.log, ReadTarget(s.db.log, id, revision).value);
    }
    hide GetRevision, Knowledge.Inv, ReadStored;
  }

  lemma StoredReadsStay(s: State, later: State)
    requires ReadsStored(s) && Preserved(s.db.log, later.db.log)
    requires forall k :: k in later.targets ==> k in s.targets && later.targets[k] == s.targets[k]
    requires forall k :: k in later.rollbacks ==>
               || (k in s.rollbacks && later.rollbacks[k] == s.rollbacks[k])
               || (k in s.targets && later.rollbacks[k].target == s.targets[k])
    ensures ReadsStored(later)
  {
    forall k | k in later.targets ensures ReadStored(later.db.log, later.targets[k]) {
      assert ReadStored(s.db.log, s.targets[k]);
    }
    forall k | k in later.rollbacks ensures ReadStored(later.db.log, later.rollbacks[k].target) {
      if k in s.rollbacks && later.rollbacks[k] == s.rollbacks[k] {
        assert ReadStored(s.db.log, s.rollbacks[k].target);
      } else {
        assert ReadStored(s.db.log, s.targets[k]);
      }
    }
  }

  lemma StepKeepsReadsStored(c: Config, s: State, e: Event)
    requires Knowledge.Inv(c, s) && ReadsStored(s)
    ensures ReadsStored(Step(c, s, e))
  {
    hide Attempt, RolledBack, GetEntry, Knowledge.Inv, ReadsStored, Preserved, ReadTarget;
    if e.ReadRollbackTarget? {
      FirstReadIsStored(c, s, e.caller, e.id, e.revision);
    } else {
      StepKeepsInv(c, s, e);
      StoredReadsStay(s, Step(c, s, e));
    }
  }

  lemma StepKeepsRooted(c: Config, s: State, e: Event)
    requires Knowledge.Inv(c, s) && AllRooted(s.db) && ReadsStored(s)
    ensures AllRooted(Step(c, s, e).db)
  {
    hide AllRooted, ReadsStored, RolledBack, ReadTarget, ReadEntry, Attempt;
    match e
    case Whole(call) => CallKeepsRooted(c, s.db, call);
    case ReadRollbackTarget(caller, id, revision) => FirstReadKeepsInv(c, s, caller, id, revision);
    case ReadRollbackEntry(caller) => SecondReadKeepsInv(c, s, caller);
    case WriteRollback(caller) =>
      if caller in s.rollbacks && RolledBack(c, s.db, s.rollbacks[caller]).Ok? { RollbackKeepsRooted(c, s, caller); }
  }

  /** Over every run every revision has the content and the evidence of a first revision of its entry or of
      one that an approved proposal made for it: a rollback or a rename never brings in anything else. */
  lemma {:induction false} RunKeepsRooted(c: Config, s: State, events: seq<Event>)
    requires Knowledge.Inv(c, s) && AllRooted(s.db) && ReadsStored(s)
    ensures AllRooted(Run(c, s, events).db)
    decreases |events|
  {
    if events != [] {
      StepKeepsInv(c, s, events[0]);
      StepKeepsRooted(c, s, events[0]);
      StepKeepsReadsStored(c, s, events[0]);
      hide Knowledge.Inv, AllRooted, ReadsStored, Step;
      RunKeepsRooted(c, Step(c, s, events[0]), events[1..]);
    }
  }

  lemma NothingIsRooted(start: State)
    requires Begins(start)
    ensures AllRooted(start.db) && ReadsStored(start)
  {
  }
}
