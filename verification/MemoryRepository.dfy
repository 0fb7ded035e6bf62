/** Memories under review: proposals, approval against a base revision, and tombstones. */
module Memory {
  import opened Revisions
  import opened Text
  import opened Wrappers

  datatype MemoryType = Profile | Preference | FactMemory | TaskMemory | Interest

  datatype ScopeKind = UserScope | Workspace | SessionScope

  datatype Creator = ByUser | ByLlm | ByPlugin | ByImporter | ByRule

  datatype Place = Place(memoryType: MemoryType, scopeKind: ScopeKind, scopeId: string)

  datatype Source = Source(kind: string, locator: string, refs: seq<string>, createdBy: Creator)

  datatype ItemStatus = Confirmed | Tombstoned

  datatype Item = Item(place: Place, status: ItemStatus, current: int)

  datatype Revision = Revision(content: string, source: Source)

  datatype ProposalStatus = Pending | Approved | Rejected

  datatype Proposal = Proposal(target: Option<string>, base: Option<int>, place: Place, content: string, source: Source,
                               status: ProposalStatus, reviewReason: Option<string>, approvedContent: Option<string>)

  datatype Db = Db(items: map<string, Item>, revisions: map<Rev, Revision>, proposals: map<string, Proposal>)

  datatype Error =
    | EmptyContent | TooLong | EmptyScopeOrLocator | DifferentContent | TargetUnavailable | DifferentPlace
    | NotUser | BadDecision | Missing | AlreadyReviewed | StaleBase | AlreadyDeleted | ConstraintViolated

  const MAX_CONTENT := 10000
  const DELETED := "[deleted]"
  const TOMBSTONE := "tombstone"

  // ---- The three writes on the tables ----

  datatype Op =
    | Propose(id: string, target: Option<string>, base: Option<int>, place: Place, content: string, source: Source)
    | Review(id: string, decision: ProposalStatus, reason: string, edited: Option<string>, reviewer: string,
             freshId: string)
    | Tombstone(id: string, reason: string, actor: string)

  predicate SameProposal(p: Proposal, place: Place, content: string, source: Source) {
    p.place == place && p.content == content && p.source.kind == source.kind && p.source.locator == source.locator
  }

  function Proposed(db: Db, id: string, target: Option<string>, base: Option<int>, place: Place, content: string,
                    source: Source): Result<Db, Error>
  {
    var cleaned := Strip(content);
    if cleaned == [] then Err(EmptyContent)
    else if |cleaned| > MAX_CONTENT then Err(TooLong)
    else if Strip(place.scopeId) == [] || Strip(source.locator) == [] then Err(EmptyScopeOrLocator)
    else if id in db.proposals then
      if SameProposal(db.proposals[id], place, cleaned, source) then Ok(db) else Err(DifferentContent)
    else if target.Some? && (target.value !in db.items || db.items[target.value].status == Tombstoned) then
      Err(TargetUnavailable)
    else if target.Some? && db.items[target.value].place != place then Err(DifferentPlace)
    else
      var stored := if target.Some? && base.None? then Some(db.items[target.value].current) else base;
      if stored.Some? && stored.value < 1 then Err(ConstraintViolated)
      else Ok(db.(proposals :=
                  db.proposals[id := Proposal(target, stored, place, cleaned, source, Pending, None, None)]))
  }

  function ApprovedContent(p: Proposal, edited: Option<string>): string {
    Strip(if edited.Some? && edited.value != [] then edited.value else p.content)
  }

  /** The memory an approval writes to: the target, or the identity drawn for a new one. */
  function MemoryOf(p: Proposal, freshId: string): string {
    p.target.GetOr(freshId)
  }

  function NextRevision(db: Db, memoryId: string): int {
    if memoryId in db.items then db.items[memoryId].current + 1 else 1
  }

  function Confirm(db: Db, p: Proposal, memoryId: string, content: string): Db {
    var revision := NextRevision(db, memoryId);
    var place := if memoryId in db.items then db.items[memoryId].place else p.place;
    db.(items := db.items[memoryId := Item(place, Confirmed, revision)],
        revisions := db.revisions[Rev(memoryId, revision) := Revision(content, p.source)])
  }

  function Decided(p: Proposal, decision: ProposalStatus, reason: string, content: string): Proposal {
    p.(status := decision, reviewReason := Some(reason),
       approvedContent := if decision == Approved then Some(content) else None)
  }

  function Reviewed(db: Db, id: string, decision: ProposalStatus, reason: string, edited: Option<string>,
                    reviewer: string, freshId: string): Result<Db, Error>
  {
    if reviewer != "user" then Err(NotUser)
    else if decision == Pending then Err(BadDecision)
    else if id !in db.proposals then Err(Missing)
    else if db.proposals[id].status != Pending then Err(AlreadyReviewed)
    else
      var p := db.proposals[id];
      var content := ApprovedContent(p, edited);
      var memoryId := MemoryOf(p, freshId);
      if content == [] then Err(EmptyContent)
      else if decision == Rejected then Ok(db.(proposals := db.proposals[id := Decided(p, decision, reason, content)]))
      else if memoryId in db.items && p.base.GetOr(0) != db.items[memoryId].current then Err(StaleBase)
      else if Rev(memoryId, NextRevision(db, memoryId)) in db.revisions then Err(ConstraintViolated)
      else
        var decided := Decided(p, decision, reason, content);
        Ok(Confirm(db, p, memoryId, content).(proposals := db.proposals[id := decided]))
  }

  function ReasonLocator(reason: string): string {
    "reason:" + (if |reason| <= 256 then reason else reason[..256])
  }

  function Deleted(db: Db, memoryId: string, reason: string, actor: string): Result<Db, Error> {
    if actor != "user" then Err(NotUser)
    else if memoryId !in db.items then Err(Missing)
    else if db.items[memoryId].status == Tombstoned then Err(AlreadyDeleted)
    else
      var revision := db.items[memoryId].current + 1;
      if Rev(memoryId, revision) in db.revisions then Err(ConstraintViolated)
      else Ok(db.(items := db.items[memoryId := db.items[memoryId].(status := Tombstoned, current := revision)],
                  revisions := db.revisions[Rev(memoryId, revision) :=
                                              Revision(DELETED, Source(TOMBSTONE, ReasonLocator(reason), [], ByUser))]))
  }

  function Attempt(db: Db, op: Op): Result<Db, Error> {
    match op
    case Propose(id, target, base, place, content, source) => Proposed(db, id, target, base, place, content, source)
    case Review(id, decision, reason, edited, reviewer, freshId) =>
      Reviewed(db, id, decision, reason, edited, reviewer, freshId)
    case Tombstone(id, reason, actor) => Deleted(db, id, reason, actor)
  }

  /** A refused call leaves the tables as they were. */
  function Step(db: Db, op: Op): Db {
    match Attempt(db, op)
    case Ok(later) => later
    case Err(_) => db
  }

  function Run(db: Db, ops: seq<Op>): Db
    decreases |ops|
  {
    if ops == [] then db else Run(Step(db, ops[0]), ops[1..])
  }

  /** Identities drawn for new memories are new. */
  predicate Fresh(db: Db, op: Op) {
    op.Review? && op.id in db.proposals && db.proposals[op.id].target.None? ==> op.freshId !in db.items
  }

  predicate FreshRun(db: Db, ops: seq<Op>)
    decreases |ops|
  {
    ops != [] ==> Fresh(db, ops[0]) && FreshRun(Step(db, ops[0]), ops[1..])
  }

  // ---- What every run keeps ----

  ghost predicate RevisionsComplete(db: Db) {
    && (forall m :: m in db.items ==> 1 <= db.items[m].current)
    && (forall r :: r in db.revisions <==> r.id in db.items && 1 <= r.revision <= db.items[r.id].current)
  }

  ghost predicate TargetedProposalsValid(db: Db) {
    forall p :: p in db.proposals && db.proposals[p].target.Some? ==>
      && db.proposals[p].target.value in db.items
      && db.proposals[p].base.Some?
      && (db.proposals[p].status == Approved ==>
            db.proposals[p].base.value < db.items[db.proposals[p].target.value].current)
  }

  ghost predicate OneApprovalPerBase(db: Db) {
    forall p, q ::
      p in db.proposals && q in db.proposals && p != q
      && db.proposals[p].status == Approved && db.proposals[q].status == Approved
      && db.proposals[p].target.Some? && db.proposals[p].target == db.proposals[q].target ==>
        db.proposals[p].base != db.proposals[q].base
  }

  ghost predicate TombstonesWritten(db: Db) {
    forall m :: m in db.items && db.items[m].status == Tombstoned ==>
      Rev(m, db.items[m].current) in db.revisions && db.revisions[Rev(m, db.items[m].current)].source.kind == TOMBSTONE
  }

  ghost predicate Inv(db: Db) {
    RevisionsComplete(db) && TargetedProposalsValid(db) && OneApprovalPerBase(db) && TombstonesWritten(db)
  }

  /** Memories keep their type and scope, revisions are never overwritten, and the current
      revision never goes back. */
  ghost predicate Preserved(db: Db, later: Db) {
    && (forall m :: m in db.items ==>
          && m in later.items && later.items[m].place == db.items[m].place
          && db.items[m].current <= later.items[m].current)
    && (forall r :: r in db.revisions ==> r in later.revisions && later.revisions[r] == db.revisions[r])
    && (forall p :: p in db.proposals ==>
          p in later.proposals && (db.proposals[p].status != Pending ==> later.proposals[p] == db.proposals[p]))
  }

  lemma ProposedKeepsInv(db: Db, op: Op, later: Db)
    requires Inv(db) && op.Propose? && Attempt(db, op) == Ok(later)
    ensures Inv(later) && Preserved(db, later)
  {
    assert later.items == db.items && later.revisions == db.revisions;
    if op.id in db.proposals {
      assert later == db;
    } else {
      var added := later.proposals[op.id];
      assert later.proposals == db.proposals[op.id := added];
      assert added.status == Pending && (added.target.Some? ==> added.base.Some? && added.target.value in db.items);
      PendingProposalKeepsInv(db, later, op.id, added);
    }
  }

  lemma PendingProposalKeepsInv(db: Db, later: Db, id: string, added: Proposal)
    requires Inv(db) && id !in db.proposals && later == db.(proposals := db.proposals[id := added])
    requires added.status == Pending && (added.target.Some? ==> added.base.Some? && added.target.value in db.items)
    ensures Inv(later) && Preserved(db, later)
  {
  }

  lemma DeletedKeepsInv(db: Db, op: Op, later: Db)
    requires Inv(db) && op.Tombstone? && Attempt(db, op) == Ok(later)
    ensures Inv(later) && Preserved(db, later)
  {
  }

  lemma RejectionKeepsInv(db: Db, later: Db, id: string, decided: Proposal)
    requires Inv(db) && id in db.proposals && db.proposals[id].status == Pending
    requires decided.status == Rejected && decided.target == db.proposals[id].target
               && decided.base == db.proposals[id].base
    requires later == db.(proposals := db.proposals[id := decided])
    ensures Inv(later) && Preserved(db, later)
  {
  }

  lemma ConfirmKeepsRevisions(db: Db, p: Proposal, m: string, content: string, proposals: map<string, Proposal>)
    requires RevisionsComplete(db) && TombstonesWritten(db)
    ensures RevisionsComplete(Confirm(db, p, m, content).(proposals := proposals))
    ensures TombstonesWritten(Confirm(db, p, m, content).(proposals := proposals))
  {
  }

  /** An approval moves the memory past the base it was checked against. */
  lemma ApprovalKeepsProposals(db: Db, later: Db, id: string, decided: Proposal, m: string)
    requires TargetedProposalsValid(db) && OneApprovalPerBase(db)
    requires id in db.proposals && db.proposals[id].status == Pending && decided.status == Approved
    requires decided.target == db.proposals[id].target && decided.base == db.proposals[id].base
    requires later.proposals == db.proposals[id := decided]
    requires forall x :: x in db.items ==> x in later.items && db.items[x].current <= later.items[x].current
    requires decided.target.Some? ==>
               && m == decided.target.value && m in db.items
               && decided.base == Some(db.items[m].current) && db.items[m].current < later.items[m].current
    ensures TargetedProposalsValid(later) && OneApprovalPerBase(later)
  {
  }

  lemma ReviewedKeepsInv(db: Db, op: Op, later: Db)
    requires Inv(db) && op.Review? && Fresh(db, op) && Attempt(db, op) == Ok(later)
    ensures Inv(later) && Preserved(db, later)
  {
    var p := db.proposals[op.id];
    var content := ApprovedContent(p, op.edited);
    var decided := Decided(p, op.decision, op.reason, content);
    if op.decision == Rejected {
      RejectionKeepsInv(db, later, op.id, decided);
    } else {
      var m := MemoryOf(p, op.freshId);
      ConfirmKeepsRevisions(db, p, m, content, later.proposals);
      ApprovalKeepsProposals(db, later, op.id, decided, m);
    }
  }

  lemma StepKeepsInv(db: Db, op: Op)
    requires Inv(db) && Fresh(db, op)
    ensures Inv(Step(db, op)) && Preserved(db, Step(db, op))
  {
    match Attempt(db, op)
    case Err(_) =>
    case Ok(later) =>
      match op
      case Propose(_, _, _, _, _, _) => ProposedKeepsInv(db, op, later);
      case Review(_, _, _, _, _, _) => ReviewedKeepsInv(db, op, later);
      case Tombstone(_, _, _) => DeletedKeepsInv(db, op, later);
  }

  lemma PreservedIsTransitive(a: Db, b: Db, c: Db)
    requires Preserved(a, b) && Preserved(b, c)
    ensures Preserved(a, c)
  {
  }

  /** Over every run each memory's revisions are exactly 1..current and immutable, and at
      most one proposal is approved against any one base revision of a memory. */
  lemma {:induction false} RunKeepsInv(db: Db, ops: seq<Op>)
    requires Inv(db) && FreshRun(db, ops)
    ensures Inv(Run(db, ops)) && Preserved(db, Run(db, ops))
    decreases |ops|
  {
    if ops != [] {
      var next := Step(db, ops[0]);
      StepKeepsInv(db, ops[0]);
      RunKeepsInv(next, ops[1..]);
      PreservedIsTransitive(db, next, Run(next, ops[1..]));
    }
  }

  // ---- What each write stores, and when it is refused ----

  /** A proposal is accepted if and only if its text is neither blank nor too long, scope and locator are not
      blank, its target is a memory of the same place that is not deleted, and its base is a revision number;
      an identity in use takes only the proposal that it has. */
  lemma ProposalSucceedsIff(db: Db, op: Op)
    requires Inv(db) && op.Propose?
    ensures Attempt(db, op).Ok? <==>
              && 1 <= |Strip(op.content)| <= 10000
              && Strip(op.place.scopeId) != "" && Strip(op.source.locator) != ""
              && if op.id in db.proposals then
                   var p := db.proposals[op.id];
                   && p.place == op.place && p.content == Strip(op.content)
                   && p.source.kind == op.source.kind && p.source.locator == op.source.locator
                 else
                   && (op.target.Some? ==>
                         && op.target.value in db.items && db.items[op.target.value].status == Confirmed
                         && db.items[op.target.value].place == op.place)
                   && (op.base.Some? ==> 1 <= op.base.value)
  {
    hide Strip;
  }

  /** A refused proposal names the first of these that it fails. */
  lemma ProposalRefusedFor(db: Db, op: Op)
    requires op.Propose? && Attempt(db, op).Err?
    ensures Attempt(db, op).error
            == if Strip(op.content) == "" then EmptyContent
               else if |Strip(op.content)| > 10000 then TooLong
               else if Strip(op.place.scopeId) == "" || Strip(op.source.locator) == "" then EmptyScopeOrLocator
               else if op.id in db.proposals then DifferentContent
               else if op.target.Some? && (op.target.value !in db.items
                                           || db.items[op.target.value].status != Confirmed) then TargetUnavailable
               else if op.target.Some? && db.items[op.target.value].place != op.place then DifferentPlace
               else ConstraintViolated
  {
    hide Strip;
  }

  /** What is stored is the stripped text, pending, against the target's current revision unless a base is given. */
  lemma ProposalStores(db: Db, op: Op, later: Db)
    requires op.Propose? && Attempt(db, op) == Ok(later)
    ensures op.id in db.proposals ==> later == db
    ensures op.id !in db.proposals ==>
              && later.items == db.items && later.revisions == db.revisions
              && later.proposals.Keys == db.proposals.Keys + {op.id}
              && (forall q :: q in db.proposals ==> later.proposals[q] == db.proposals[q])
              && var p := later.proposals[op.id];
                 && p.target == op.target && p.place == op.place && p.source == op.source
                 && p.content == Strip(op.content)
                 && p.status == Pending && p.reviewReason.None? && p.approvedContent.None?
                 && (op.base.Some? || op.target.None? ==> p.base == op.base)
                 && (op.base.None? && op.target.Some? ==> p.base == Some(db.items[op.target.value].current))
  {
    hide Strip;
  }

  /** The text of an approval: the edit if there is one that is not empty. */
  predicate IsApprovedText(p: Proposal, edited: Option<string>, content: string) {
    && (edited.Some? && edited.value != "" ==> content == Strip(edited.value))
    && (edited.None? || edited.value == "" ==> content == Strip(p.content))
  }

  lemma ApprovedTextIs(p: Proposal, edited: Option<string>)
    ensures IsApprovedText(p, edited, ApprovedContent(p, edited))
  {
    hide Strip;
  }

  /** A review is accepted if and only if the user decides a pending proposal whose text is not blank and,
      when it approves a change, the base is the memory's current revision: no key ever refuses it. */
  lemma ReviewSucceedsIff(db: Db, op: Op)
    requires Inv(db) && op.Review? && Fresh(db, op)
    ensures Attempt(db, op).Ok? <==>
              && op.reviewer == "user" && (op.decision == Approved || op.decision == Rejected)
              && op.id in db.proposals && db.proposals[op.id].status == Pending
              && !IsApprovedText(db.proposals[op.id], op.edited, "")
              && (op.decision == Approved && db.proposals[op.id].target.Some? ==>
                    db.proposals[op.id].base == Some(db.items[db.proposals[op.id].target.value].current))
  {
    hide Strip;
  }

  lemma ReviewRefusedFor(db: Db, op: Op)
    requires Inv(db) && op.Review? && Fresh(db, op) && Attempt(db, op).Err?
    ensures Attempt(db, op).error
            == if op.reviewer != "user" then NotUser
               else if op.decision == Pending then BadDecision
               else if op.id !in db.proposals then Missing
               else if db.proposals[op.id].status != Pending then AlreadyReviewed
               else if IsApprovedText(db.proposals[op.id], op.edited, "") then EmptyContent
               else StaleBase
  {
    hide Strip;
  }

  /** An approval appends a revision with the approved text and the proposal's source, confirms the memory at
      it, and records decision, reason and text; nothing else changes. */
  lemma ApprovalStores(db: Db, op: Op, later: Db)
    requires op.Review? && op.decision == Approved && Attempt(db, op) == Ok(later)
    ensures var p := db.proposals[op.id];
            var m := if p.target.Some? then p.target.value else op.freshId;
            && m in later.items && later.items.Keys == db.items.Keys + {m}
            && later.items[m].status == Confirmed
            && later.items[m].current == (if m in db.items then db.items[m].current + 1 else 1)
            && later.items[m].place == (if m in db.items then db.items[m].place else p.place)
            && (forall n :: n in db.items && n != m ==> later.items[n] == db.items[n])
            && var r := Rev(m, later.items[m].current);
               && r !in db.revisions && later.revisions.Keys == db.revisions.Keys + {r}
               && (forall x :: x in db.revisions ==> later.revisions[x] == db.revisions[x])
               && var row := later.revisions[r];
                  && row.source == p.source && row.content != "" && IsApprovedText(p, op.edited, row.content)
                  && later.proposals.Keys == db.proposals.Keys
                  && (forall q :: q in db.proposals && q != op.id ==> later.proposals[q] == db.proposals[q])
                  && later.proposals[op.id]
                     == Proposal(p.target, p.base, p.place, p.content, p.source, Approved, Some(op.reason),
                                 Some(row.content))
  {
    ApprovedTextIs(db.proposals[op.id], op.edited);
    hide Strip, ApprovedContent, IsApprovedText;
  }

  /** A rejection only records decision and reason. */
  lemma RejectionStores(db: Db, op: Op, later: Db)
    requires op.Review? && op.decision == Rejected && Attempt(db, op) == Ok(later)
    ensures later.items == db.items && later.revisions == db.revisions
    ensures var p := db.proposals[op.id];
            later.proposals == db.proposals[op.id := Proposal(p.target, p.base, p.place, p.content, p.source, Rejected,
                                                              Some(op.reason), None)]
  {
    hide Strip;
  }

  /** A deletion is accepted if and only if the user deletes a memory that is not deleted. */
  lemma DeletionSucceedsIff(db: Db, op: Op)
    requires Inv(db) && op.Tombstone?
    ensures Attempt(db, op).Ok? <==>
              op.actor == "user" && op.id in db.items && db.items[op.id].status == Confirmed
  {
  }

  lemma DeletionRefusedFor(db: Db, op: Op)
    requires Inv(db) && op.Tombstone? && Attempt(db, op).Err?
    ensures Attempt(db, op).error
            == if op.actor != "user" then NotUser else if op.id !in db.items then Missing else AlreadyDeleted
  {
  }

  /** A deletion appends a revision without the content, and the memory is deleted at it. */
  lemma DeletionStores(db: Db, op: Op, later: Db)
    requires op.Tombstone? && Attempt(db, op) == Ok(later)
    ensures var m := op.id;
            && later.proposals == db.proposals && later.items.Keys == db.items.Keys && m in db.items
            && (forall n :: n in db.items && n != m ==> later.items[n] == db.items[n])
            && later.items[m] == Item(db.items[m].place, Tombstoned, db.items[m].current + 1)
            && var r := Rev(m, db.items[m].current + 1);
               && r !in db.revisions && later.revisions.Keys == db.revisions.Keys + {r}
               && (forall x :: x in db.revisions ==> later.revisions[x] == db.revisions[x])
               && var row := later.revisions[r];
                  && row.content == "[deleted]" && row.source.kind == "tombstone" && row.source.refs == []
                  && row.source.createdBy == ByUser && "reason:" <= row.source.locator
                  && row.source.locator[7..] <= op.reason
                  && |row.source.locator| == 7 + if |op.reason| < 256 then |op.reason| else 256
  {
  }

  // ---- Where revisions come from ----

  /** An approved proposal of this place and source whose approved text this is. */
  ghost predicate ApprovedOrigin(db: Db, r: Rev, q: string)
    requires r in db.revisions && r.id in db.items
  {
    && q in db.proposals && db.proposals[q].status == Approved
    && db.proposals[q].approvedContent == Some(db.revisions[r].content)
    && db.proposals[q].source == db.revisions[r].source && db.proposals[q].place == db.items[r.id].place
    && (db.proposals[q].target.Some? ==>
          db.proposals[q].target.value == r.id && db.proposals[q].base == Some(r.revision - 1))
  }

  predicate IsDeletion(row: Revision) {
    row.content == "[deleted]" && row.source.kind == "tombstone" && row.source.createdBy == ByUser
  }

  /** Every revision is what the user approved, or the mark of a deletion. */
  ghost predicate Originated(db: Db) {
    forall r :: r in db.revisions && r.id in db.items ==>
      IsDeletion(db.revisions[r]) || exists q :: ApprovedOrigin(db, r, q)
  }

  /** What a proposal for a change asks is asked of a memory of its own place. */
  ghost predicate TargetsPlaced(db: Db) {
    forall q :: q in db.proposals && db.proposals[q].target.Some? && db.proposals[q].target.value in db.items ==>
      db.proposals[q].place == db.items[db.proposals[q].target.value].place
  }

  lemma OriginStays(db: Db, later: Db, r: Rev, q: string)
    requires Preserved(db, later) && r in db.revisions && r.id in db.items && ApprovedOrigin(db, r, q)
    ensures r in later.revisions && r.id in later.items && ApprovedOrigin(later, r, q)
  {
  }

  lemma OldRevisionsStayOriginated(db: Db, later: Db)
    requires Preserved(db, later) && Originated(db) && RevisionsComplete(db)
    ensures forall r :: r in db.revisions ==>
              && r in later.revisions && r.id in later.items
              && (IsDeletion(later.revisions[r]) || exists q :: ApprovedOrigin(later, r, q))
  {
    hide ApprovedOrigin;
    forall r | r in db.revisions
      ensures r in later.revisions && r.id in later.items
      ensures IsDeletion(later.revisions[r]) || exists q :: ApprovedOrigin(later, r, q)
    {
      if !IsDeletion(db.revisions[r]) {
        var q :| ApprovedOrigin(db, r, q);
        OriginStays(db, later, r, q);
      }
    }
  }

  lemma NewRevisionIsOriginated(db: Db, op: Op, later: Db, r: Rev)
    requires Inv(db) && TargetsPlaced(db) && Fresh(db, op) && op.Review? && op.decision == Approved
    requires Attempt(db, op) == Ok(later) && r in later.revisions && r !in db.revisions
    ensures r.id in later.items && ApprovedOrigin(later, r, op.id)
  {
    ReviewSucceedsIff(db, op);
    ApprovalStores(db, op, later);
    hide Strip, Attempt, IsApprovedText;
  }

  lemma StepKeepsOriginated(db: Db, op: Op)
    requires Inv(db) && Fresh(db, op) && Originated(db) && TargetsPlaced(db)
    ensures Originated(Step(db, op))
  {
    StepKeepsInv(db, op);
    OldRevisionsStayOriginated(db, Step(db, op));
    if Attempt(db, op).Ok? {
      var later := Step(db, op);
      if op.Tombstone? { DeletionStores(db, op, later); }
      else if op.Review? && op.decision == Rejected { RejectionStores(db, op, later); }
      else if op.Propose? { ProposalStores(db, op, later); }
      else {
        ReviewSucceedsIff(db, op);
        forall r | r in later.revisions && r !in db.revisions
          ensures r.id in later.items && ApprovedOrigin(later, r, op.id)
        {
          NewRevisionIsOriginated(db, op, later, r);
        }
      }
    }
    hide Attempt, Step, ApprovedOrigin, Inv, Strip;
  }

  lemma StepKeepsTargetsPlaced(db: Db, op: Op)
    requires Inv(db) && Fresh(db, op) && TargetsPlaced(db)
    ensures TargetsPlaced(Step(db, op))
  {
    hide Strip, IsApprovedText, OneApprovalPerBase, TombstonesWritten, Attempt;
    StepKeepsInv(db, op);
    if Attempt(db, op).Ok? {
      var later := Step(db, op);
      if op.Tombstone? { DeletionStores(db, op, later); }
      else if op.Propose? { ProposalStores(db, op, later); ProposalSucceedsIff(db, op); }
      else {
        ReviewSucceedsIff(db, op);
        if op.decision == Rejected { RejectionStores(db, op, later); } else { ApprovalStores(db, op, later); }
      }
    }
  }

  lemma NothingIsOriginated()
    ensures Originated(Db(map[], map[], map[])) && TargetsPlaced(Db(map[], map[], map[]))
  {
  }

  /** Over every run every revision holds the text and the source that the user approved for that memory,
      against the revision before it, or marks a deletion. */
  lemma {:induction false} RunKeepsOriginated(db: Db, ops: seq<Op>)
    requires Inv(db) && FreshRun(db, ops) && Originated(db) && TargetsPlaced(db)
    ensures Originated(Run(db, ops)) && TargetsPlaced(Run(db, ops))
    decreases |ops|
  {
    if ops != [] {
      hide Inv, Originated, TargetsPlaced, Step, Fresh, Preserved;
      StepKeepsInv(db, ops[0]);
      StepKeepsOriginated(db, ops[0]);
      StepKeepsTargetsPlaced(db, ops[0]);
      RunKeepsOriginated(Step(db, ops[0]), ops[1..]);
    }
  }

  // ---- Tombstones ----

  /** A pending proposal whose base is the current revision of the memory. */
  ghost predicate Reviver(db: Db, m: string, p: string)
    requires m in db.items
  {
    && p in db.proposals && db.proposals[p].status == Pending
    && db.proposals[p].target == Some(m) && db.proposals[p].base == Some(db.items[m].current)
  }

  ghost predicate DeletedForGood(db: Db, m: string) {
    forall ops :: FreshRun(db, ops) ==> m in Run(db, ops).items && Run(db, ops).items[m].status == Tombstoned
  }

  lemma StepKeepsTombstone(db: Db, op: Op, m: string)
    requires Inv(db) && Fresh(db, op) && m in db.items && db.items[m].status == Tombstoned
    requires forall p :: !Reviver(db, m, p)
    ensures var later := Step(db, op);
            && m in later.items && later.items[m] == db.items[m]
            && forall p :: !Reviver(later, m, p)
  {
    var later := Step(db, op);
    if op.Review? && op.id in db.proposals { assert !Reviver(db, m, op.id); }
    forall p | p in later.proposals
      ensures !Reviver(later, m, p)
    {
      assert !Reviver(db, m, p);
    }
  }

  lemma {:induction false} WithoutReviverStaysDeleted(db: Db, ops: seq<Op>, m: string)
    requires Inv(db) && FreshRun(db, ops) && m in db.items && db.items[m].status == Tombstoned
    requires forall p :: !Reviver(db, m, p)
    ensures m in Run(db, ops).items && Run(db, ops).items[m] == db.items[m]
    decreases |ops|
  {
    if ops != [] {
      StepKeepsInv(db, ops[0]);
      StepKeepsTombstone(db, ops[0], m);
      WithoutReviverStaysDeleted(Step(db, ops[0]), ops[1..], m);
    }
  }

  function ApproveWith(p: string): Op {
    Review(p, Approved, "", Some("x"), "user", "")
  }

  lemma ReviverRevives(db: Db, m: string, p: string)
    requires Inv(db) && m in db.items && Reviver(db, m, p)
    ensures FreshRun(db, [ApproveWith(p)])
    ensures m in Run(db, [ApproveWith(p)]).items && Run(db, [ApproveWith(p)]).items[m].status == Confirmed
  {
    var op := ApproveWith(p);
    assert Strip("x") == "x";
    assert Run(db, [op]) == Run(Step(db, op), []) == Step(db, op);
    assert FreshRun(Step(db, op), []);
  }

  /** A deleted memory can come back, and does so exactly when a proposal still pending
      names its current revision, the tombstone, as its base. */
  lemma DeletedForGoodIffNoReviver(db: Db, m: string)
    requires Inv(db) && m in db.items && db.items[m].status == Tombstoned
    ensures DeletedForGood(db, m) <==> forall p :: !Reviver(db, m, p)
  {
    if p :| Reviver(db, m, p) {
      ReviverRevives(db, m, p);
    } else {
      forall ops | FreshRun(db, ops)
        ensures m in Run(db, ops).items && Run(db, ops).items[m].status == Tombstoned
      {
        WithoutReviverStaysDeleted(db, ops, m);
      }
    }
  }

  /** A proposal that names a base ahead of the current revision. */
  predicate Ahead(db: Db, op: Op) {
    && op.Propose? && op.target.Some? && op.target.value in db.items
    && op.base.Some? && op.base.value > db.items[op.target.value].current
  }

  predicate NeverAhead(db: Db, ops: seq<Op>)
    decreases |ops|
  {
    ops != [] ==> !Ahead(db, ops[0]) && NeverAhead(Step(db, ops[0]), ops[1..])
  }

  ghost predicate BasesBehind(db: Db) {
    forall p :: p in db.proposals && db.proposals[p].status == Pending && db.proposals[p].target.Some? ==>
      var m := db.proposals[p].target.value;
      && m in db.items && db.proposals[p].base.Some?
      && db.proposals[p].base.value <= db.items[m].current
      && (db.items[m].status == Tombstoned ==> db.proposals[p].base.value < db.items[m].current)
  }

  lemma ReviewKeepsBasesBehind(db: Db, op: Op, later: Db)
    requires Inv(db) && BasesBehind(db) && op.Review? && Fresh(db, op) && Attempt(db, op) == Ok(later)
    ensures BasesBehind(later)
  {
    var p := db.proposals[op.id];
    var m := MemoryOf(p, op.freshId);
    forall q | q in later.proposals && later.proposals[q].status == Pending && later.proposals[q].target.Some?
      ensures q in db.proposals && later.proposals[q] == db.proposals[q]
    {
    }
  }

  lemma PendingProposalKeepsBasesBehind(db: Db, later: Db, id: string, added: Proposal)
    requires BasesBehind(db) && later == db.(proposals := db.proposals[id := added])
    requires added.target.Some? ==>
               && added.target.value in db.items && db.items[added.target.value].status == Confirmed
               && added.base.Some? && added.base.value <= db.items[added.target.value].current
    ensures BasesBehind(later)
  {
  }

  lemma ProposeKeepsBasesBehind(db: Db, op: Op, later: Db)
    requires BasesBehind(db) && op.Propose? && !Ahead(db, op) && Attempt(db, op) == Ok(later)
    ensures BasesBehind(later)
  {
    if op.id in db.proposals {
      assert later == db;
    } else {
      PendingProposalKeepsBasesBehind(db, later, op.id, later.proposals[op.id]);
    }
  }

  lemma StepKeepsBasesBehind(db: Db, op: Op)
    requires Inv(db) && BasesBehind(db) && Fresh(db, op) && !Ahead(db, op)
    ensures BasesBehind(Step(db, op))
  {
    match Attempt(db, op)
    case Err(_) =>
    case Ok(later) =>
      match op
      case Propose(_, _, _, _, _, _) => ProposeKeepsBasesBehind(db, op, later);
      case Review(_, _, _, _, _, _) => ReviewKeepsBasesBehind(db, op, later);
      case Tombstone(_, _, _) =>
  }

  lemma {:induction false} RunKeepsBasesBehind(db: Db, ops: seq<Op>)
    requires Inv(db) && BasesBehind(db) && FreshRun(db, ops) && NeverAhead(db, ops)
    ensures BasesBehind(Run(db, ops))
    decreases |ops|
  {
    if ops != [] {
      StepKeepsInv(db, ops[0]);
      StepKeepsBasesBehind(db, ops[0]);
      RunKeepsBasesBehind(Step(db, ops[0]), ops[1..]);
    }
  }

  lemma BehindDeletionIsFinal(db: Db, future: seq<Op>, m: string)
    requires Inv(db) && BasesBehind(db) && FreshRun(db, future)
    requires m in db.items && db.items[m].status == Tombstoned
    ensures m in Run(db, future).items && Run(db, future).items[m] == db.items[m]
  {
    assert forall p :: !Reviver(db, m, p);
    WithoutReviverStaysDeleted(db, future, m);
  }

  /** While no proposal names a base ahead of the current revision, as the default never
      does, a deleted memory is never confirmed again, whatever is called afterwards. */
  lemma DeletionIsFinal(start: Db, past: seq<Op>, future: seq<Op>, m: string)
    requires Inv(start) && BasesBehind(start) && FreshRun(start, past) && NeverAhead(start, past)
    requires m in Run(start, past).items && Run(start, past).items[m].status == Tombstoned
    requires FreshRun(Run(start, past), future)
    ensures var db := Run(start, past);
            m in Run(db, future).items && Run(db, future).items[m] == db.items[m]
  {
    RunKeepsInv(start, past);
    RunKeepsBasesBehind(start, past);
    BehindDeletionIsFinal(Run(start, past), future, m);
  }

  function OneMemory(place: Place, source: Source): Db {
    Db(map["m" := Item(place, Confirmed, 1)], map[Rev("m", 1) := Revision("x", source)], map[])
  }

  function AheadProposal(place: Place, source: Source): Proposal {
    Proposal(Some("m"), Some(2), place, "x", source, Pending, None, None)
  }

  lemma ProposingAhead(place: Place, source: Source)
    requires Strip(place.scopeId) != [] && Strip(source.locator) != []
    ensures Step(OneMemory(place, source), Propose("p", Some("m"), Some(2), place, "x", source))
              == OneMemory(place, source).(proposals := map["p" := AheadProposal(place, source)])
  {
    assert Strip("x") == "x";
  }

  lemma DeletingOnly(db: Db, place: Place)
    requires db.items == map["m" := Item(place, Confirmed, 1)] && Rev("m", 2) !in db.revisions
    ensures var later := Step(db, Tombstone("m", "r", "user"));
            && later.items == map["m" := Item(place, Tombstoned, 2)] && later.proposals == db.proposals
            && later.revisions.Keys == db.revisions.Keys + {Rev("m", 2)}
  {
  }

  lemma ApprovingAhead(db: Db, place: Place, source: Source)
    requires db.items == map["m" := Item(place, Tombstoned, 2)] && Rev("m", 3) !in db.revisions
    requires db.proposals == map["p" := AheadProposal(place, source)]
    ensures Step(db, ApproveWith("p")).items == map["m" := Item(place, Confirmed, 3)]
  {
    assert Strip("x") == "x";
  }

  /** A base one ahead of the current revision brings a deleted memory back. */
  lemma BaseAheadRevivesDeletedMemory(place: Place, source: Source)
    requires Strip(place.scopeId) != [] && Strip(source.locator) != []
    ensures var db := OneMemory(place, source);
            var ops := [Propose("p", Some("m"), Some(2), place, "x", source), Tombstone("m", "r", "user"),
                        ApproveWith("p")];
            && Inv(db) && FreshRun(db, ops)
            && Run(db, ops[..2]).items == map["m" := Item(place, Tombstoned, 2)]
            && Run(db, ops).items == map["m" := Item(place, Confirmed, 3)]
  {
    var db := OneMemory(place, source);
    assert Inv(db);
    var op1 := Propose("p", Some("m"), Some(2), place, "x", source);
    var op2, op3 := Tombstone("m", "r", "user"), ApproveWith("p");
    hide Step, Run, FreshRun, Inv, Strip;
    ProposingAhead(place, source);
    DeletingOnly(Step(db, op1), place);
    ApprovingAhead(Step(Step(db, op1), op2), place, source);
    RunThree(db, op1, op2, op3);
  }

  lemma RunThree(db: Db, op1: Op, op2: Op, op3: Op)
    ensures Run(db, [op1, op2, op3][..2]) == Step(Step(db, op1), op2)
    ensures Run(db, [op1, op2, op3]) == Step(Step(Step(db, op1), op2), op3)
    ensures Fresh(db, op1) && Fresh(Step(db, op1), op2) && Fresh(Step(Step(db, op1), op2), op3) ==>
              FreshRun(db, [op1, op2, op3])
  {
    var ops := [op1, op2, op3];
    var db1, db2 := Step(db, op1), Step(Step(db, op1), op2);
    assert ops[1..] == [op2, op3] && ops[1..][1..] == [op3] && ops[1..][1..][1..] == [];
    assert ops[..2][1..] == [op2] && ops[..2][1..][1..] == [];
    RunOne(db, ops); RunOne(db1, [op2, op3]); RunOne(db2, [op3]);
    RunOne(db, ops[..2]); RunOne(db1, [op2]);
    if Fresh(db, op1) && Fresh(db1, op2) && Fresh(db2, op3) {
      FreshOne(db2, [op3]); FreshOne(db1, [op2, op3]); FreshOne(db, ops);
    }
  }

  lemma RunOne(db: Db, ops: seq<Op>)
    requires ops != []
    ensures Run(db, ops) == Run(Step(db, ops[0]), ops[1..])
  {
  }

  lemma FreshOne(db: Db, ops: seq<Op>)
    requires ops != [] && Fresh(db, ops[0]) && (|ops| > 1 ==> FreshRun(Step(db, ops[0]), ops[1..]))
    ensures FreshRun(db, ops)
  {
  }

  // ---- What readers are told ----

  /** The status that a reader of one revision reports. */
  function ReportedStatus(r: Revision): ItemStatus {
    if r.source.kind == TOMBSTONE then Tombstoned else Confirmed
  }

  ghost predicate NoDisguise(db: Db) {
    && (forall p :: p in db.proposals ==> db.proposals[p].source.kind != TOMBSTONE)
    && (forall m :: m in db.items && db.items[m].status == Confirmed && Rev(m, db.items[m].current) in db.revisions ==>
          db.revisions[Rev(m, db.items[m].current)].source.kind != TOMBSTONE)
  }

  lemma ReviewKeepsNoDisguise(db: Db, op: Op, later: Db)
    requires Inv(db) && NoDisguise(db) && op.Review? && Attempt(db, op) == Ok(later)
    ensures NoDisguise(later)
  {
    hide Strip, TargetedProposalsValid, OneApprovalPerBase;
    assert forall p :: p in later.proposals ==>
             p in db.proposals && later.proposals[p].source == db.proposals[p].source;
  }

  lemma StepKeepsNoDisguise(db: Db, op: Op)
    requires Inv(db) && NoDisguise(db) && Fresh(db, op) && (op.Propose? ==> op.source.kind != TOMBSTONE)
    ensures NoDisguise(Step(db, op))
  {
    match Attempt(db, op)
    case Err(_) =>
    case Ok(later) => if op.Review? { ReviewKeepsNoDisguise(db, op, later); }
  }

  /** Unless some proposal calls its own source a tombstone, reading the current revision
      reports the memory's status. */
  lemma {:induction false} CurrentRevisionReportsStatus(db: Db, ops: seq<Op>, m: string)
    requires Inv(db) && NoDisguise(db) && FreshRun(db, ops)
    requires forall i :: 0 <= i < |ops| && ops[i].Propose? ==> ops[i].source.kind != TOMBSTONE
    requires m in Run(db, ops).items
    ensures var later := Run(db, ops);
            && Rev(m, later.items[m].current) in later.revisions
            && ReportedStatus(later.revisions[Rev(m, later.items[m].current)]) == later.items[m].status
    decreases |ops|
  {
    if ops != [] {
      StepKeepsInv(db, ops[0]);
      StepKeepsNoDisguise(db, ops[0]);
      CurrentRevisionReportsStatus(Step(db, ops[0]), ops[1..], m);
    }
  }

  /** What the reader of the current revision reports is the memory's status. */
  ghost predicate Honest(db: Db, m: string)
    requires m in db.items
  {
    && Rev(m, db.items[m].current) in db.revisions
    && ReportedStatus(db.revisions[Rev(m, db.items[m].current)]) == db.items[m].status
  }

  ghost predicate AllHonest(db: Db) {
    forall m :: m in db.items ==> Honest(db, m)
  }

  /** In a reachable state a memory is misreported if and only if it is confirmed and its current
      revision names a tombstone as its source. */
  lemma HonestIff(db: Db, m: string)
    requires Inv(db) && m in db.items
    ensures Rev(m, db.items[m].current) in db.revisions
    ensures Honest(db, m) <==>
              !(db.items[m].status == Confirmed && db.revisions[Rev(m, db.items[m].current)].source.kind == TOMBSTONE)
  {
  }

  /** An approval that succeeds is reported as it is if and only if the proposal does not call its
      own source a tombstone. */
  lemma ApprovalIsHonestIff(db: Db, op: Op, later: Db)
    requires op.Review? && op.decision == Approved && Attempt(db, op) == Ok(later)
    ensures var m := MemoryOf(db.proposals[op.id], op.freshId);
            m in later.items && (Honest(later, m) <==> db.proposals[op.id].source.kind != TOMBSTONE)
  {
    hide Strip;
  }

  predicate ApprovesTombstoneSource(db: Db, op: Op) {
    && op.Review? && op.decision == Approved && Attempt(db, op).Ok?
    && db.proposals[op.id].source.kind == TOMBSTONE
  }

  lemma ApprovalHonestIff(db: Db, op: Op, later: Db)
    requires AllHonest(db) && op.Review? && Attempt(db, op) == Ok(later)
    ensures AllHonest(later) <==> !ApprovesTombstoneSource(db, op)
  {
    if op.decision == Approved { ApprovalIsHonestIff(db, op, later); }
    hide Strip;
  }

  lemma StepIsHonestIff(db: Db, op: Op)
    requires AllHonest(db)
    ensures AllHonest(Step(db, op)) <==> !ApprovesTombstoneSource(db, op)
  {
    hide Strip;
    match Attempt(db, op)
    case Err(_) =>
    case Ok(later) => if op.Review? { ApprovalHonestIff(db, op, later); }
  }

  ghost predicate HonestThroughout(db: Db, ops: seq<Op>)
    decreases |ops|
  {
    AllHonest(db) && (ops != [] ==> HonestThroughout(Step(db, ops[0]), ops[1..]))
  }

  predicate NoTombstoneSourceApproved(db: Db, ops: seq<Op>)
    decreases |ops|
  {
    ops != [] ==> !ApprovesTombstoneSource(db, ops[0]) && NoTombstoneSourceApproved(Step(db, ops[0]), ops[1..])
  }

  /** Over every run: every memory is reported as it is in every state if and only if no approval
      that succeeded was of a proposal calling its source a tombstone. */
  lemma {:induction false} HonestThroughoutIff(db: Db, ops: seq<Op>)
    requires AllHonest(db)
    ensures HonestThroughout(db, ops) <==> NoTombstoneSourceApproved(db, ops)
    decreases |ops|
  {
    if ops != [] {
      hide Step, AllHonest, ApprovesTombstoneSource;
      StepIsHonestIff(db, ops[0]);
      if AllHonest(Step(db, ops[0])) { HonestThroughoutIff(Step(db, ops[0]), ops[1..]); }
    }
  }

  /** Propose a memory whose source is called a tombstone and approve it: it is confirmed, and its
      reader says it is deleted. */
  lemma ConfirmedMemoryIsReportedDeleted(place: Place, source: Source)
    requires Strip(place.scopeId) != [] && Strip(source.locator) != [] && source.kind == TOMBSTONE
    ensures var ops :=
              [Propose("p", None, None, place, "x", source), Review("p", Approved, "r", None, "user", "memory_1")];
            var db := Run(Db(map[], map[], map[]), ops);
            && "memory_1" in db.items && db.items["memory_1"].status == Confirmed
            && Rev("memory_1", 1) in db.revisions && db.items["memory_1"].current == 1
            && ReportedStatus(db.revisions[Rev("memory_1", 1)]) == Tombstoned
  {
    var start := Db(map[], map[], map[]);
    var op1, op2 := Propose("p", None, None, place, "x", source), Review("p", Approved, "r", None, "user", "memory_1");
    var proposed := start.(proposals := map["p" := Proposal(None, None, place, "x", source, Pending, None, None)]);
    assert Strip("x") == "x";
    assert Step(start, op1) == proposed;
    var last := Step(proposed, op2);
    assert last.items == map["memory_1" := Item(place, Confirmed, 1)];
    assert last.revisions == map[Rev("memory_1", 1) := Revision("x", source)];
    hide Step, Strip;
    RunOne(start, [op1, op2]);
    assert [op1, op2][1..] == [op2];
    RunOne(proposed, [op2]);
    assert [op2][1..] == [] && Run(last, []) == last;
  }

  // ---- The repository ----

  class MemoryRepository {
    var db: Db

    constructor ()
      ensures db == Db(map[], map[], map[]) && Inv(db) && BasesBehind(db) && NoDisguise(db)
    {
      db := Db(map[], map[], map[]);
    }

    method CreateProposal(id: string, target: Option<string>, base: Option<int>, place: Place, content: string,
                          source: Source) returns (r: Result<Proposal, Error>)
      requires Inv(db)
      modifies this
      ensures db == Step(old(db), Propose(id, target, base, place, content, source)) && Inv(db)
      ensures match Proposed(old(db), id, target, base, place, content, source)
              case Ok(_) => id in db.proposals && r == Ok(db.proposals[id])
              case Err(e) => r == Err(e)
    {
      StepKeepsInv(db, Propose(id, target, base, place, content, source));
      var cleaned := Strip(content);
      if cleaned == [] { return Err(EmptyContent); }
      if |cleaned| > MAX_CONTENT { return Err(TooLong); }
      if Strip(place.scopeId) == [] || Strip(source.locator) == [] { return Err(EmptyScopeOrLocator); }
      if id in db.proposals {
        if SameProposal(db.proposals[id], place, cleaned, source) { return Ok(db.proposals[id]); }
        return Err(DifferentContent);
      }
      var stored := base;
      if target.Some? {
        if target.value !in db.items || db.items[target.value].status == Tombstoned { return Err(TargetUnavailable); }
        if db.items[target.value].place != place { return Err(DifferentPlace); }
        if stored.None? { stored := Some(db.items[target.value].current); }
      }
      if stored.Some? && stored.value < 1 { return Err(ConstraintViolated); }
      db := db.(proposals := db.proposals[id := Proposal(target, stored, place, cleaned, source, Pending, None, None)]);
      r := Ok(db.proposals[id]);
    }

    method ReviewProposal(id: string, decision: ProposalStatus, reason: string, edited: Option<string>,
                          reviewer: string, freshId: string) returns (r: Result<Proposal, Error>)
      requires Inv(db) && Fresh(db, Review(id, decision, reason, edited, reviewer, freshId))
      modifies this
      ensures db == Step(old(db), Review(id, decision, reason, edited, reviewer, freshId)) && Inv(db)
      ensures match Reviewed(old(db), id, decision, reason, edited, reviewer, freshId)
              case Ok(_) => id in db.proposals && r == Ok(db.proposals[id])
              case Err(e) => r == Err(e)
    {
      StepKeepsInv(db, Review(id, decision, reason, edited, reviewer, freshId));
      if reviewer != "user" { return Err(NotUser); }
      if decision == Pending { return Err(BadDecision); }
      if id !in db.proposals { return Err(Missing); }
      var p := db.proposals[id];
      if p.status != Pending { return Err(AlreadyReviewed); }
      var content := ApprovedContent(p, edited);
      if content == [] { return Err(EmptyContent); }
      var after := db;
      if decision == Approved {
        var memoryId, revision, place := MemoryOf(p, freshId), 1, p.place;
        if memoryId in db.items {
          var target := db.items[memoryId];
          if p.base.GetOr(0) != target.current { return Err(StaleBase); }
          revision, place := target.current + 1, target.place;
        }
        if Rev(memoryId, revision) in db.revisions { return Err(ConstraintViolated); }
        after := after.(revisions := after.revisions[Rev(memoryId, revision) := Revision(content, p.source)]);
        after := after.(items := after.items[memoryId := Item(place, Confirmed, revision)]);
      }
      db := after.(proposals := after.proposals[id := Decided(p, decision, reason, content)]);
      r := Ok(db.proposals[id]);
    }

    method Delete(memoryId: string, reason: string, actor: string) returns (r: Result<Revision, Error>)
      requires Inv(db)
      modifies this
      ensures db == Step(old(db), Tombstone(memoryId, reason, actor)) && Inv(db)
      ensures match Deleted(old(db), memoryId, reason, actor)
              case Ok(_) => && memoryId in db.items && Rev(memoryId, db.items[memoryId].current) in db.revisions
                            && r == Ok(db.revisions[Rev(memoryId, db.items[memoryId].current)])
                            && ReportedStatus(r.value) == Tombstoned
              case Err(e) => r == Err(e)
    {
      StepKeepsInv(db, Tombstone(memoryId, reason, actor));
      if actor != "user" { return Err(NotUser); }
      if memoryId !in db.items { return Err(Missing); }
      var item := db.items[memoryId];
      if item.status == Tombstoned { return Err(AlreadyDeleted); }
      var revision := item.current + 1;
      var row := Revision(DELETED, Source(TOMBSTONE, ReasonLocator(reason), [], ByUser));
      db := db.(revisions := db.revisions[Rev(memoryId, revision) := row],
                items := db.items[memoryId := item.(status := Tombstoned, current := revision)]);
      r := Ok(row);
    }
  }
}
