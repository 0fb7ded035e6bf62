/** Extracted claims and facts: their tables with keys, checks and triggers, and the readers
    that check each aggregate again. */
module FactTables {
  import opened Identifiers
  import opened NamedChildren
  import opened Revisions
  import opened SealedRows
  import opened SqlChecks
  import opened Wrappers

  datatype ClaimStatus = Proposed | Accepted | Rejected | Superseded

  datatype Authority = UserAsserted | DocumentSupported | RuleVerified

  /** The entity that a claim or fact is about; no check limits its kind. */
  datatype Subject = Subject(entityId: string, kind: string)

  /** What is claimed, and by whom. */
  datatype Statement = Statement(schemaVersion: int, claimType: string, subject: Subject, value: string,
                                 extractor: string, extractorVersion: string, confidence: real,
                                 proposedBy: string, proposedByKind: ActorKind, proposedAt: int)

  datatype ClaimRow = ClaimRow(statement: Statement, status: ClaimStatus, review: ReviewColumns, evidenceCount: int)

  datatype FactRow = FactRow(subject: Subject, factType: string, value: string, authority: Authority,
                             verifiedBy: string, source: Rev, evidenceCount: int, verifiedAt: int)

  datatype Db = Db(
    evidenceRefs: set<string>,
    claims: set<string>,
    claimRevisions: map<Rev, ClaimRow>,
    claimEvidence: Children<Rev, string>,
    facts: map<string, Option<string>>,
    factRevisions: map<Rev, FactRow>,
    factEvidence: Children<Rev, string>)

  function Empty(evidenceRefs: set<string>): Db {
    Db(evidenceRefs, {}, map[], map[], map[], map[], map[])
  }

  const MAX_VALUE := 65536

  // ---- Single inserts, as the keys, checks and triggers accept them ----

  datatype Insert =
    | InsertClaim(claimId: string)
    | InsertClaimEvidence(owner: Rev, ordinal: int, evidenceRef: string)
    | InsertClaimRevision(owner: Rev, claim: ClaimRow)
    | InsertFact(factId: string, candidateId: Option<string>)
    | InsertFactEvidence(owner: Rev, ordinal: int, evidenceRef: string)
    | InsertFactRevision(owner: Rev, fact: FactRow)

  predicate StatementChecks(s: Statement) {
    && 1 <= s.schemaVersion && NonBlank(s.claimType) && Length(s.value) <= MAX_VALUE
    && NonBlank(s.extractor) && NonBlank(s.extractorVersion) && 0.0 <= s.confidence <= 1.0
    && NonBlank(s.proposedBy)
  }

  predicate ClaimRowChecks(owner: Rev, row: ClaimRow) {
    && 1 <= owner.revision && 1 <= row.evidenceCount && StatementChecks(row.statement)
    && Passes(ReviewCheck(row.status == Proposed, row.review))
  }

  predicate FactRowChecks(owner: Rev, row: FactRow) {
    && 1 <= owner.revision && 1 <= row.source.revision && 0 <= row.evidenceCount
    && NonBlank(row.verifiedBy) && NonBlank(row.factType) && Length(row.value) <= MAX_VALUE
  }

  predicate AcceptsClaimRevision(db: Db, owner: Rev, row: ClaimRow) {
    && owner !in db.claimRevisions && owner.id in db.claims && ClaimRowChecks(owner, row)
    && SealHolds(db.claimEvidence, owner, row.evidenceCount)
  }

  /** A fact may have no evidence at all. */
  predicate AcceptsFactRevision(db: Db, owner: Rev, row: FactRow) {
    && owner !in db.factRevisions && owner.id in db.facts && row.source in db.claimRevisions
    && FactRowChecks(owner, row)
    && SealHoldsOrEmpty(db.factEvidence, owner, row.evidenceCount)
  }

  predicate Accepts(db: Db, insert: Insert) {
    match insert
    case InsertClaim(claimId) => claimId !in db.claims
    case InsertClaimEvidence(owner, ordinal, ref) =>
      && AcceptsChild(db.claimEvidence, db.claimRevisions.Keys, owner, ordinal, ref)
      && 1 <= owner.revision && ref in db.evidenceRefs
    case InsertClaimRevision(owner, row) => AcceptsClaimRevision(db, owner, row)
    case InsertFact(factId, _) => factId !in db.facts
    case InsertFactEvidence(owner, ordinal, ref) =>
      && AcceptsChild(db.factEvidence, db.factRevisions.Keys, owner, ordinal, ref)
      && 1 <= owner.revision && ref in db.evidenceRefs
    case InsertFactRevision(owner, row) => AcceptsFactRevision(db, owner, row)
  }

  function Inserted(db: Db, insert: Insert): Db {
    match insert
    case InsertClaim(claimId) => db.(claims := db.claims + {claimId})
    case InsertClaimEvidence(owner, ordinal, ref) =>
      db.(claimEvidence := db.claimEvidence[ChildKey(owner, ordinal) := ref])
    case InsertClaimRevision(owner, row) => db.(claimRevisions := db.claimRevisions[owner := row])
    case InsertFact(factId, candidateId) => db.(facts := db.facts[factId := candidateId])
    case InsertFactEvidence(owner, ordinal, ref) =>
      db.(factEvidence := db.factEvidence[ChildKey(owner, ordinal) := ref])
    case InsertFactRevision(owner, row) => db.(factRevisions := db.factRevisions[owner := row])
  }

  /** Updates and deletes abort on every table, so a transaction is a list of inserts. */
  function Statements(db: Db, inserts: seq<Insert>): Option<Db>
    decreases |inserts|
  {
    if inserts == [] then Some(db)
    else if Accepts(db, inserts[0]) then Statements(Inserted(db, inserts[0]), inserts[1..])
    else None
  }

  /** The deferred foreign keys, checked at commit: every child has its parent. */
  ghost predicate NoOrphans(db: Db) {
    && (forall k :: k in db.claimEvidence ==> k.owner in db.claimRevisions)
    && (forall k :: k in db.factEvidence ==> k.owner in db.factRevisions)
  }

  ghost function Transaction(db: Db, inserts: seq<Insert>): Db {
    match Statements(db, inserts)
    case Some(after) => if NoOrphans(after) then after else db
    case None => db
  }

  ghost function RowHistory(db: Db, transactions: seq<seq<Insert>>): Db
    decreases |transactions|
  {
    if transactions == [] then db else RowHistory(Transaction(db, transactions[0]), transactions[1..])
  }

  // ---- Sealed aggregates are contiguous and stay as they are ----

  ghost predicate ClaimsSealed(claims: set<string>, rows: map<Rev, ClaimRow>, evidence: Children<Rev, string>) {
    && NonNegative(evidence) && NoRepeats(evidence)
    && (forall r :: r in rows ==>
          r.id in claims && ClaimRowChecks(r, rows[r]) && Contiguous(evidence, r, rows[r].evidenceCount))
  }

  ghost predicate FactsSealed(facts: set<string>, rows: map<Rev, FactRow>, evidence: Children<Rev, string>) {
    && NonNegative(evidence) && NoRepeats(evidence)
    && (forall r :: r in rows ==>
          r.id in facts && FactRowChecks(r, rows[r]) && Contiguous(evidence, r, rows[r].evidenceCount))
  }

  ghost predicate Sealed(db: Db) {
    && ClaimsSealed(db.claims, db.claimRevisions, db.claimEvidence)
    && FactsSealed(db.facts.Keys, db.factRevisions, db.factEvidence)
    && (forall r :: r in db.factRevisions ==> db.factRevisions[r].source in db.claimRevisions)
  }

  /** Nothing written is ever changed. */
  ghost predicate Preserved(db: Db, later: Db) {
    && db.claims <= later.claims
    && (forall r :: r in db.claimRevisions ==>
          && r in later.claimRevisions && later.claimRevisions[r] == db.claimRevisions[r]
          && SameChildren(db.claimEvidence, later.claimEvidence, r))
    && (forall id :: id in db.facts ==> id in later.facts && later.facts[id] == db.facts[id])
    && (forall r :: r in db.factRevisions ==>
          && r in later.factRevisions && later.factRevisions[r] == db.factRevisions[r]
          && SameChildren(db.factEvidence, later.factEvidence, r))
  }

  lemma PreservedIsTransitive(a: Db, b: Db, c: Db)
    requires Preserved(a, b) && Preserved(b, c)
    ensures Preserved(a, c)
  {
  }

  lemma InsertPreserves(db: Db, insert: Insert)
    requires Accepts(db, insert)
    ensures Preserved(db, Inserted(db, insert))
  {
    hide ClaimRowChecks, FactRowChecks, SealHolds, SealHoldsOrEmpty;
  }

  lemma AcceptedClaimIsContiguous(db: Db, owner: Rev, row: ClaimRow)
    requires NonNegative(db.claimEvidence) && AcceptsClaimRevision(db, owner, row)
    ensures Contiguous(db.claimEvidence, owner, row.evidenceCount)
  {
    SealMeansContiguous(db.claimEvidence, owner, row.evidenceCount);
  }

  lemma AcceptedFactIsContiguous(db: Db, owner: Rev, row: FactRow)
    requires NonNegative(db.factEvidence) && AcceptsFactRevision(db, owner, row)
    ensures Contiguous(db.factEvidence, owner, row.evidenceCount)
  {
    SealOrEmptyMeansContiguous(db.factEvidence, owner, row.evidenceCount);
  }

  lemma InsertKeepsClaimsSealed(db: Db, insert: Insert, later: Db)
    requires ClaimsSealed(db.claims, db.claimRevisions, db.claimEvidence)
    requires Accepts(db, insert) && later == Inserted(db, insert)
    ensures ClaimsSealed(later.claims, later.claimRevisions, later.claimEvidence)
  {
    hide ClaimRowChecks, FactRowChecks, SealHolds, SealHoldsOrEmpty;
    match insert {
      case InsertClaimEvidence(owner, ordinal, ref) =>
        InsertKeepsNoRepeats(db.claimEvidence, db.claimRevisions.Keys, owner, ordinal, ref);
      case InsertClaimRevision(owner, row) => AcceptedClaimIsContiguous(db, owner, row);
      case _ =>
    }
  }

  lemma InsertKeepsFactsSealed(db: Db, insert: Insert, later: Db)
    requires FactsSealed(db.facts.Keys, db.factRevisions, db.factEvidence)
    requires Accepts(db, insert) && later == Inserted(db, insert)
    ensures FactsSealed(later.facts.Keys, later.factRevisions, later.factEvidence)
  {
    hide ClaimRowChecks, FactRowChecks, SealHolds, SealHoldsOrEmpty;
    match insert {
      case InsertFactEvidence(owner, ordinal, ref) =>
        InsertKeepsNoRepeats(db.factEvidence, db.factRevisions.Keys, owner, ordinal, ref);
      case InsertFactRevision(owner, row) => AcceptedFactIsContiguous(db, owner, row);
      case _ =>
    }
  }

  lemma InsertKeepsSealed(db: Db, insert: Insert)
    requires Sealed(db) && Accepts(db, insert)
    ensures Sealed(Inserted(db, insert))
  {
    hide ClaimRowChecks, FactRowChecks, SealHolds, SealHoldsOrEmpty, ClaimsSealed, FactsSealed;
    InsertKeepsClaimsSealed(db, insert, Inserted(db, insert));
    InsertKeepsFactsSealed(db, insert, Inserted(db, insert));
  }

  lemma {:induction false} StatementsKeepSealed(db: Db, inserts: seq<Insert>)
    requires Sealed(db) && Statements(db, inserts).Some?
    ensures Sealed(Statements(db, inserts).value) && Preserved(db, Statements(db, inserts).value)
    decreases |inserts|
  {
    if inserts != [] {
      hide Sealed, Preserved;
      var next := Inserted(db, inserts[0]);
      InsertKeepsSealed(db, inserts[0]);
      InsertPreserves(db, inserts[0]);
      StatementsKeepSealed(next, inserts[1..]);
      PreservedIsTransitive(db, next, Statements(next, inserts[1..]).value);
    }
  }

  lemma TransactionKeepsSealed(db: Db, inserts: seq<Insert>)
    requires Sealed(db) && NoOrphans(db)
    ensures Sealed(Transaction(db, inserts)) && NoOrphans(Transaction(db, inserts))
    ensures Preserved(db, Transaction(db, inserts))
  {
    if Statements(db, inserts).Some? { StatementsKeepSealed(db, inserts); }
  }

  /** Every reachable database keeps its sealed aggregates contiguous, complete and unchanged. */
  lemma {:induction false} RowHistoryKeepsSealed(db: Db, transactions: seq<seq<Insert>>)
    requires Sealed(db) && NoOrphans(db)
    ensures Sealed(RowHistory(db, transactions)) && NoOrphans(RowHistory(db, transactions))
    ensures Preserved(db, RowHistory(db, transactions))
    decreases |transactions|
  {
    if transactions != [] {
      var next := Transaction(db, transactions[0]);
      TransactionKeepsSealed(db, transactions[0]);
      RowHistoryKeepsSealed(next, transactions[1..]);
      PreservedIsTransitive(db, next, RowHistory(next, transactions[1..]));
    }
  }

  // ---- What the keys promise of every reachable database ----

  ghost predicate KeysHold(db: Db) {
    && (forall k :: k in db.claimEvidence ==> db.claimEvidence[k] in db.evidenceRefs && 0 <= k.ordinal)
    && (forall k :: k in db.factEvidence ==> db.factEvidence[k] in db.evidenceRefs && 0 <= k.ordinal)
    && (forall r :: r in db.claimRevisions ==> r.id in db.claims)
    && (forall r :: r in db.factRevisions ==>
          r.id in db.facts && db.factRevisions[r].source in db.claimRevisions)
  }

  lemma InsertKeepsKeys(db: Db, insert: Insert)
    requires KeysHold(db) && Accepts(db, insert)
    ensures KeysHold(Inserted(db, insert)) && Inserted(db, insert).evidenceRefs == db.evidenceRefs
  {
    hide ClaimRowChecks, FactRowChecks, SealHolds, SealHoldsOrEmpty;
  }

  lemma {:induction false} StatementsKeepKeys(db: Db, inserts: seq<Insert>)
    requires KeysHold(db) && Statements(db, inserts).Some?
    ensures KeysHold(Statements(db, inserts).value)
    decreases |inserts|
  {
    if inserts != [] {
      hide KeysHold, Accepts, Inserted;
      InsertKeepsKeys(db, inserts[0]);
      StatementsKeepKeys(Inserted(db, inserts[0]), inserts[1..]);
    }
  }

  /** Over every history every child has its owner and a known reference, every revision its identity, and
      every fact the claim revision it comes from. */
  lemma {:induction false} HistoryKeepsKeys(db: Db, transactions: seq<seq<Insert>>)
    requires KeysHold(db) && NoOrphans(db)
    ensures KeysHold(RowHistory(db, transactions)) && NoOrphans(RowHistory(db, transactions))
    decreases |transactions|
  {
    if transactions != [] {
      if Statements(db, transactions[0]).Some? { StatementsKeepKeys(db, transactions[0]); }
      hide KeysHold, Statements, NoOrphans;
      HistoryKeepsKeys(Transaction(db, transactions[0]), transactions[1..]);
    }
  }

  // ---- Readers ----

  datatype Claim = Claim(claimId: string, revision: int, statement: Statement, evidenceRefs: seq<string>,
                         status: ClaimStatus, review: ReviewColumns)

  datatype Fact = Fact(factId: string, revision: int, subject: Subject, factType: string, value: string,
                       authority: Authority, evidenceRefs: seq<string>, verifiedBy: string, source: Rev,
                       candidateId: Option<string>)

  /** What the readers raise: for a lost identity, for children that are not 0..count-1, and for
      columns that the record's own validators refuse. */
  datatype ReadError = MissingIdentity | IncompleteAggregate | InvalidRecord

  const MAX_TYPE := 128
  const MAX_ACTOR := 255
  const MAX_REASON := 2048

  predicate Fits(column: Option<string>, limit: nat) {
    column.Some? ==> |column.value| <= limit
  }

  const ENTITY_KINDS: set<string> :=
    {"evidence", "extracted_claim", "fact", "candidate", "capability_candidate", "market", "project",
     "project_evidence", "project_source_manifest", "job", "job_requirement", "match_assessment", "opportunity",
     "project_enhancement_task", "resume", "resume_patch", "resume_revision", "application", "interview", "prep",
     "outcome", "approval", "run", "snapshot", "context_manifest"}

  /** What the record asks and the tables do not check: the subject's kind and the lengths. */
  predicate ReadableClaim(s: Statement, review: ReviewColumns) {
    && s.subject.kind in ENTITY_KINDS && |s.claimType| <= MAX_TYPE
    && |s.extractor| <= MAX_ACTOR && |s.extractorVersion| <= MAX_TYPE
    && |s.proposedBy| <= MAX_ACTOR && Fits(review.reviewer, MAX_ACTOR) && Fits(review.reason, MAX_REASON)
  }

  predicate ReadableFact(row: FactRow) {
    row.subject.kind in ENTITY_KINDS && |row.factType| <= MAX_TYPE && |row.verifiedBy| <= MAX_ACTOR
  }

  predicate ValidClaim(c: Claim) {
    && OpaqueId(c.claimId) && OpaqueId(c.statement.subject.entityId) && AllOpaque(c.evidenceRefs)
    && 1 <= c.revision && 1 <= c.statement.schemaVersion && c.statement.claimType != ""
    && c.statement.extractor != "" && c.statement.extractorVersion != "" && 0.0 <= c.statement.confidence <= 1.0
    && c.statement.proposedBy != "" && c.review.reviewer != Some("") && c.evidenceRefs != []
    && ReadableClaim(c.statement, c.review)
  }

  predicate ValidFact(f: Fact) {
    && 1 <= f.revision && 1 <= |f.factType| <= MAX_TYPE && 1 <= |f.verifiedBy| <= MAX_ACTOR
    && 1 <= f.source.revision && f.subject.kind in ENTITY_KINDS && OpaqueId(f.factId) && OpaqueId(f.source.id)
    && OpaqueId(f.subject.entityId) && AllOpaque(f.evidenceRefs)
    && (f.candidateId.Some? ==> OpaqueId(f.candidateId.value))
  }

  /** The identifiers of a record have their form. */
  ghost predicate ClaimNamed(db: Db, r: Rev)
    requires r in db.claimRevisions
  {
    OpaqueId(r.id) && OpaqueId(db.claimRevisions[r].statement.subject.entityId) && Named(db.claimEvidence, r)
  }

  ghost predicate FactNamed(db: Db, r: Rev)
    requires r in db.factRevisions && r.id in db.facts
  {
    var row := db.factRevisions[r];
    && OpaqueId(r.id) && OpaqueId(row.source.id) && OpaqueId(row.subject.entityId) && Named(db.factEvidence, r)
    && (db.facts[r.id].Some? ==> OpaqueId(db.facts[r.id].value))
  }

  ghost predicate ClaimIsReadable(db: Db, r: Rev)
    requires r in db.claimRevisions
  {
    ClaimNamed(db, r) && ReadableClaim(db.claimRevisions[r].statement, db.claimRevisions[r].review)
  }

  ghost predicate FactIsReadable(db: Db, r: Rev)
    requires r in db.factRevisions
  {
    r.id in db.facts && FactNamed(db, r) && ReadableFact(db.factRevisions[r])
  }

  function ClaimOf(r: Rev, row: ClaimRow, refs: seq<string>): Claim {
    Claim(r.id, r.revision, row.statement, refs, row.status, row.review)
  }

  function ToClaim(db: Db, r: Rev): Result<Claim, ReadError>
    requires r in db.claimRevisions
  {
    var row := db.claimRevisions[r];
    if r.id !in db.claims then Err(MissingIdentity)
    else match Read(db.claimEvidence, r, row.evidenceCount)
      case Err(_) => Err(IncompleteAggregate)
      case Ok(refs) => if ValidClaim(ClaimOf(r, row, refs)) then Ok(ClaimOf(r, row, refs)) else Err(InvalidRecord)
  }

  function FactOf(r: Rev, row: FactRow, candidateId: Option<string>, refs: seq<string>): Fact {
    Fact(r.id, r.revision, row.subject, row.factType, row.value, row.authority, refs, row.verifiedBy,
         row.source, candidateId)
  }

  function ToFact(db: Db, r: Rev): Result<Fact, ReadError>
    requires r in db.factRevisions
  {
    var row := db.factRevisions[r];
    if r.id !in db.facts then Err(MissingIdentity)
    else match Read(db.factEvidence, r, row.evidenceCount)
      case Err(_) => Err(IncompleteAggregate)
      case Ok(refs) =>
        var f := FactOf(r, row, db.facts[r.id], refs);
        if ValidFact(f) then Ok(f) else Err(InvalidRecord)
  }

  lemma ClaimIsReadIffReadable(db: Db, r: Rev)
    requires Sealed(db) && r in db.claimRevisions
    ensures Read(db.claimEvidence, r, db.claimRevisions[r].evidenceCount).Ok?
    ensures var row := db.claimRevisions[r];
            ToClaim(db, r) == if ClaimIsReadable(db, r)
                              then Ok(ClaimOf(r, row, Read(db.claimEvidence, r, row.evidenceCount).value))
                              else Err(InvalidRecord)
  {
    var row := db.claimRevisions[r];
    ReadsIffContiguous(db.claimEvidence, r, row.evidenceCount);
    ReadIsNamedIff(db.claimEvidence, r, row.evidenceCount);
    CheckedReviewHasReviewer(row);
    hide OpaqueId, Named, Read, ENTITY_KINDS;
  }

  lemma CheckedReviewHasReviewer(row: ClaimRow)
    requires Passes(ReviewCheck(row.status == Proposed, row.review))
    ensures row.review.reviewer != Some("")
  {
    if row.status == Proposed { ReviewCheckOfProposed(row.review); } else { ReviewCheckOfDecided(row.review); }
  }

  lemma FactIsReadIffReadable(db: Db, r: Rev)
    requires Sealed(db) && r in db.factRevisions
    ensures Read(db.factEvidence, r, db.factRevisions[r].evidenceCount).Ok?
    ensures var row := db.factRevisions[r];
            ToFact(db, r) == if FactIsReadable(db, r)
                             then Ok(FactOf(r, row, db.facts[r.id], Read(db.factEvidence, r, row.evidenceCount).value))
                             else Err(InvalidRecord)
  {
    ReadsIffContiguous(db.factEvidence, r, db.factRevisions[r].evidenceCount);
    ReadIsNamedIff(db.factEvidence, r, db.factRevisions[r].evidenceCount);
    hide OpaqueId, Named, Read, ENTITY_KINDS;
  }

  lemma SameClaimIsRead(db: Db, later: Db, r: Rev)
    requires r in db.claimRevisions && r in later.claimRevisions && r.id in db.claims && r.id in later.claims
    requires later.claimRevisions[r] == db.claimRevisions[r] && SameChildren(db.claimEvidence, later.claimEvidence, r)
    ensures ToClaim(later, r) == ToClaim(db, r)
  {
    SameChildrenReadTheSame(db.claimEvidence, later.claimEvidence, r, db.claimRevisions[r].evidenceCount);
  }

  lemma SameFactIsRead(db: Db, later: Db, r: Rev)
    requires r in db.factRevisions && r in later.factRevisions && r.id in db.facts && r.id in later.facts
    requires later.facts[r.id] == db.facts[r.id] && later.factRevisions[r] == db.factRevisions[r]
    requires SameChildren(db.factEvidence, later.factEvidence, r)
    ensures ToFact(later, r) == ToFact(db, r)
  {
    SameChildrenReadTheSame(db.factEvidence, later.factEvidence, r, db.factRevisions[r].evidenceCount);
  }

  lemma PreservedReadsTheSame(db: Db, later: Db)
    requires Preserved(db, later) && Sealed(db)
    ensures forall r :: r in db.claimRevisions ==> r in later.claimRevisions && ToClaim(later, r) == ToClaim(db, r)
    ensures forall r :: r in db.factRevisions ==> r in later.factRevisions && ToFact(later, r) == ToFact(db, r)
  {
    hide ToClaim, ToFact, SameChildren, ClaimRowChecks, FactRowChecks, Contiguous, NoRepeats;
    forall r | r in db.claimRevisions ensures ToClaim(later, r) == ToClaim(db, r) { SameClaimIsRead(db, later, r); }
    forall r | r in db.factRevisions ensures ToFact(later, r) == ToFact(db, r) { SameFactIsRead(db, later, r); }
  }

  /** In every database that inserts can reach neither reader misses a child or an identity; a
      record is read if and only if its identifiers have their form, its subject's kind is known and
      its texts fit, and what is answered is answered for ever. */
  lemma ReaderRaisesIff(evidenceRefs: set<string>, past: seq<seq<Insert>>, future: seq<seq<Insert>>)
    ensures var db := RowHistory(Empty(evidenceRefs), past);
            var later := RowHistory(db, future);
            && (forall r :: r in db.claimRevisions ==>
                  && r in later.claimRevisions && ToClaim(later, r) == ToClaim(db, r)
                  && (ToClaim(db, r).Ok? <==> ClaimIsReadable(db, r))
                  && (ToClaim(db, r).Err? ==> ToClaim(db, r) == Err(InvalidRecord)))
            && (forall r :: r in db.factRevisions ==>
                  && r in later.factRevisions && ToFact(later, r) == ToFact(db, r)
                  && (ToFact(db, r).Ok? <==> FactIsReadable(db, r))
                  && (ToFact(db, r).Err? ==> ToFact(db, r) == Err(InvalidRecord)))
  {
    var start := Empty(evidenceRefs);
    var db := RowHistory(start, past);
    RowHistoryKeepsSealed(start, past);
    RowHistoryKeepsSealed(db, future);
    hide Sealed, ToClaim, ToFact, ClaimIsReadable, FactIsReadable, RowHistory, Preserved;
    PreservedReadsTheSame(db, RowHistory(db, future));
    forall r | r in db.claimRevisions
      ensures ToClaim(db, r).Ok? <==> ClaimIsReadable(db, r)
      ensures ToClaim(db, r).Err? ==> ToClaim(db, r) == Err(InvalidRecord)
    {
      ClaimIsReadIffReadable(db, r);
    }
    forall r | r in db.factRevisions
      ensures ToFact(db, r).Ok? <==> FactIsReadable(db, r)
      ensures ToFact(db, r).Err? ==> ToFact(db, r) == Err(InvalidRecord)
    {
      FactIsReadIffReadable(db, r);
    }
  }

  // ---- Claims that the tables take and the reader refuses ----

  function ProposedRow(claimType: string, kind: string): ClaimRow {
    ClaimRow(Statement(1, claimType, Subject("job_1", kind), "v", "x", "1", 1.0, "p", User, 0), Proposed,
             ReviewColumns(None, None, None, None), 1)
  }

  function InsertsOf(row: ClaimRow): seq<Insert> {
    [InsertClaim("claim_1"),
     InsertClaimEvidence(Rev("claim_1", 1), 0, "evidence_1"),
     InsertClaimRevision(Rev("claim_1", 1), row)]
  }

  lemma AcceptedStatement(db: Db, inserts: seq<Insert>)
    requires inserts != [] && Accepts(db, inserts[0])
    ensures Statements(db, inserts) == Statements(Inserted(db, inserts[0]), inserts[1..])
  {
  }

  lemma ProposedRowPasses(claimType: string, kind: string)
    requires NonBlank(claimType)
    ensures ClaimRowChecks(Rev("claim_1", 1), ProposedRow(claimType, kind))
  {
    var s := ProposedRow(claimType, kind).statement;
    ReviewCheckOfProposed(ProposedRow(claimType, kind).review);
  }

  lemma SingleChildSeals(owner: Rev, ref: string)
    ensures SealHolds(map[ChildKey(owner, 0) := ref], owner, 1)
  {
    var t := map[ChildKey(owner, 0) := ref];
    assert forall i :: ChildKey(owner, i) in t <==> i == 0;
    SealMeansContiguous(t, owner, 1);
  }

  function TablesWith(row: ClaimRow): Db {
    Db({"evidence_1"}, {"claim_1"}, map[Rev("claim_1", 1) := row],
       map[ChildKey(Rev("claim_1", 1), 0) := "evidence_1"], map[], map[], map[])
  }

  lemma StatementsOf(row: ClaimRow)
    requires ClaimRowChecks(Rev("claim_1", 1), row) && row.evidenceCount == 1
    ensures Statements(Empty({"evidence_1"}), InsertsOf(row)) == Some(TablesWith(row))
  {
    var db0, owner, all := Empty({"evidence_1"}), Rev("claim_1", 1), InsertsOf(row);
    var db2 := TablesWith(row).(claimRevisions := map[]);
    SingleChildSeals(owner, "evidence_1");
    hide ClaimRowChecks, SealHolds;
    assert Inserted(Inserted(db0, all[0]), all[1]) == db2 && Inserted(db2, all[2]) == TablesWith(row);
    AcceptedStatement(db0, all);
    AcceptedStatement(Inserted(db0, all[0]), all[1..]);
    AcceptedStatement(db2, all[2..]);
    assert all[2..][1..] == [];
  }

  /** Three inserts that keys, checks and triggers accept, after which the reader raises. */
  lemma UnreadableClaimIsTaken(row: ClaimRow)
    requires ClaimRowChecks(Rev("claim_1", 1), row) && row.evidenceCount == 1
    requires !ReadableClaim(row.statement, row.review)
    ensures var db := RowHistory(Empty({"evidence_1"}), [InsertsOf(row)]);
            Rev("claim_1", 1) in db.claimRevisions && ToClaim(db, Rev("claim_1", 1)) == Err(InvalidRecord)
  {
    var db0, all := Empty({"evidence_1"}), InsertsOf(row);
    StatementsOf(row);
    assert Sealed(db0);
    assert NoOrphans(TablesWith(row));
    hide ReadableClaim, ToClaim, Sealed, NoOrphans, Statements, ClaimRowChecks, InsertsOf;
    assert [all][1..] == [];
    assert RowHistory(Transaction(db0, all), []) == Transaction(db0, all);
    RowHistoryKeepsSealed(db0, [all]);
    ClaimIsReadIffReadable(TablesWith(row), Rev("claim_1", 1));
  }

  /** A type one character longer than the record allows: the declared column length is not enforced. */
  function LongType(): string {
    seq(MAX_TYPE + 1, i => 'a')
  }

  lemma LongTypedClaimIsTakenButNotRead()
    ensures var db := RowHistory(Empty({"evidence_1"}), [InsertsOf(ProposedRow(LongType(), "job"))]);
            Rev("claim_1", 1) in db.claimRevisions && ToClaim(db, Rev("claim_1", 1)) == Err(InvalidRecord)
  {
    assert LongType()[0] in LongType();
    ProposedRowPasses(LongType(), "job");
    hide RowHistory, ToClaim, ClaimRowChecks;
    UnreadableClaimIsTaken(ProposedRow(LongType(), "job"));
  }

  /** A kind that no entity has: no check names the kinds. */
  lemma UnknownKindIsTakenButNotRead()
    ensures var db := RowHistory(Empty({"evidence_1"}), [InsertsOf(ProposedRow("skill", "x"))]);
            Rev("claim_1", 1) in db.claimRevisions && ToClaim(db, Rev("claim_1", 1)) == Err(InvalidRecord)
  {
    assert "skill"[0] in "skill";
    ProposedRowPasses("skill", "x");
    hide RowHistory, ToClaim, ClaimRowChecks;
    UnreadableClaimIsTaken(ProposedRow("skill", "x"));
  }
}
