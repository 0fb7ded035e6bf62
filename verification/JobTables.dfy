/** Job and job requirement revisions: their tables with keys, checks and triggers, and the
    readers that check each aggregate again. */
module JobTables {
  import opened Identifiers
  import opened NamedChildren
  import opened Revisions
  import opened SealedRows
  import opened Sequences
  import opened SqlChecks
  import opened Text
  import opened TextOrder
  import opened Wrappers

  datatype Scope = Understand | Explain | Apply | Evidence | InterviewReady

  datatype RequirementStatus = Proposed | Accepted | Rejected | Superseded

  datatype Mapping = Mapping(capabilityId: string, graphVersionId: string)

  datatype Importance = Required | Preferred

  /** The columns that only checks look at. */
  datatype Columns = Columns(requirement: string, importance: Importance, proposedBy: string, proposedByKind: ActorKind,
                             reviewedBy: Option<string>, reviewedByKind: Option<ActorKind>,
                             reviewReason: Option<string>)

  const MAX_REQUIREMENT := 4096

  datatype JobRow = JobRow(schemaVersion: int, contentSha256: string, observedAt: int, evidenceCount: int)

  datatype RequirementRow = RequirementRow(schemaVersion: int, job: Rev, mapping: Option<Mapping>,
                                           status: RequirementStatus,
                                           text: Columns, proposedAt: int, reviewedAt: Option<int>,
                                           scopeCount: int, evidenceCount: int)

  datatype Db = Db(
    evidenceRefs: set<string>,
    capabilityNodes: set<Mapping>,
    jobs: set<string>,
    jobRevisions: map<Rev, JobRow>,
    jobEvidence: Children<Rev, string>,
    requirements: map<string, string>,
    requirementRevisions: map<Rev, RequirementRow>,
    scopes: Children<Rev, Scope>,
    requirementEvidence: Children<Rev, string>)

  // ---- Single inserts, as the keys, checks and triggers accept them ----

  datatype Insert =
    | InsertJob(jobId: string)
    | InsertJobEvidence(owner: Rev, ordinal: int, evidenceRef: string)
    | InsertJobRevision(owner: Rev, job: JobRow)
    | InsertRequirement(requirementId: string, jobId: string)
    | InsertScope(owner: Rev, ordinal: int, scope: Scope)
    | InsertRequirementEvidence(owner: Rev, ordinal: int, evidenceRef: string)
    | InsertRequirementRevision(owner: Rev, requirement: RequirementRow)

  predicate JobRowChecks(owner: Rev, row: JobRow) {
    1 <= owner.revision && 1 <= row.schemaVersion && IsSha256(UpToNul(row.contentSha256)) && 1 <= row.evidenceCount
  }

  predicate AcceptsJobRevision(db: Db, owner: Rev, row: JobRow) {
    && owner !in db.jobRevisions && owner.id in db.jobs && JobRowChecks(owner, row)
    && SealHolds(db.jobEvidence, owner, row.evidenceCount)
  }

  function ReviewOf(row: RequirementRow): ReviewColumns {
    ReviewColumns(row.text.reviewedBy, row.text.reviewedByKind, row.text.reviewReason, row.reviewedAt)
  }

  predicate RequirementRowChecks(owner: Rev, row: RequirementRow) {
    && 1 <= owner.revision && 1 <= row.schemaVersion && 1 <= row.job.revision
    && 1 <= row.scopeCount && 1 <= row.evidenceCount
    && NonBlank(row.text.requirement) && Length(row.text.requirement) <= MAX_REQUIREMENT
    && NonBlank(row.text.proposedBy) && Passes(ReviewCheck(row.status == Proposed, ReviewOf(row)))
    && (row.status == Accepted ==> row.mapping.Some?)
  }

  predicate AcceptsRequirementRevision(db: Db, owner: Rev, row: RequirementRow) {
    && owner !in db.requirementRevisions
    && owner.id in db.requirements && db.requirements[owner.id] == row.job.id
    && row.job in db.jobRevisions
    && (row.mapping.Some? ==> row.mapping.value in db.capabilityNodes)
    && RequirementRowChecks(owner, row)
    && SealHolds(db.scopes, owner, row.scopeCount)
    && SealHolds(db.requirementEvidence, owner, row.evidenceCount)
  }

  predicate Accepts(db: Db, insert: Insert) {
    match insert
    case InsertJob(jobId) => jobId !in db.jobs
    case InsertJobEvidence(owner, ordinal, ref) =>
      && AcceptsChild(db.jobEvidence, db.jobRevisions.Keys, owner, ordinal, ref)
      && 1 <= owner.revision && ref in db.evidenceRefs
    case InsertJobRevision(owner, row) =>
      AcceptsJobRevision(db, owner, row)
    case InsertRequirement(requirementId, jobId) => requirementId !in db.requirements && jobId in db.jobs
    case InsertScope(owner, ordinal, scope) =>
      AcceptsChild(db.scopes, db.requirementRevisions.Keys, owner, ordinal, scope) && 1 <= owner.revision
    case InsertRequirementEvidence(owner, ordinal, ref) =>
      && AcceptsChild(db.requirementEvidence, db.requirementRevisions.Keys, owner, ordinal, ref)
      && 1 <= owner.revision && ref in db.evidenceRefs
    case InsertRequirementRevision(owner, row) =>
      AcceptsRequirementRevision(db, owner, row)
  }

  function Inserted(db: Db, insert: Insert): Db {
    match insert
    case InsertJob(jobId) => db.(jobs := db.jobs + {jobId})
    case InsertJobEvidence(owner, ordinal, ref) => db.(jobEvidence := db.jobEvidence[ChildKey(owner, ordinal) := ref])
    case InsertJobRevision(owner, row) => db.(jobRevisions := db.jobRevisions[owner := row])
    case InsertRequirement(requirementId, jobId) => db.(requirements := db.requirements[requirementId := jobId])
    case InsertScope(owner, ordinal, scope) => db.(scopes := db.scopes[ChildKey(owner, ordinal) := scope])
    case InsertRequirementEvidence(owner, ordinal, ref) =>
      db.(requirementEvidence := db.requirementEvidence[ChildKey(owner, ordinal) := ref])
    case InsertRequirementRevision(owner, row) => db.(requirementRevisions := db.requirementRevisions[owner := row])
  }

  /** Updates and deletes abort on every table, so a transaction is a list of inserts. */
  function Statements(db: Db, inserts: seq<Insert>): Option<Db>
    decreases |inserts|
  {
    if inserts == [] then Some(db)
    else if Accepts(db, inserts[0]) then Statements(Inserted(db, inserts[0]), inserts[1..])
    else None
  }

  /** The deferred foreign keys, checked at commit: every child has its parent. */
  ghost predicate NoOrphans(db: Db) {
    && (forall k :: k in db.jobEvidence ==> k.owner in db.jobRevisions)
    && (forall k :: k in db.scopes ==> k.owner in db.requirementRevisions)
    && (forall k :: k in db.requirementEvidence ==> k.owner in db.requirementRevisions)
  }

  ghost function Transaction(db: Db, inserts: seq<Insert>): Db {
    match Statements(db, inserts)
    case Some(after) => if NoOrphans(after) then after else db
    case None => db
  }

  ghost function History(db: Db, transactions: seq<seq<Insert>>): Db
    decreases |transactions|
  {
    if transactions == [] then db else History(Transaction(db, transactions[0]), transactions[1..])
  }

  function Empty(evidenceRefs: set<string>, capabilityNodes: set<Mapping>): Db {
    Db(evidenceRefs, capabilityNodes, {}, map[], map[], map[], map[], map[], map[])
  }

  // ---- Sealed aggregates are contiguous and stay as they are ----

  ghost predicate Sealed(db: Db) {
    && NonNegative(db.jobEvidence) && NonNegative(db.scopes) && NonNegative(db.requirementEvidence)
    && NoRepeats(db.jobEvidence) && NoRepeats(db.scopes) && NoRepeats(db.requirementEvidence)
    && (forall r :: r in db.jobRevisions ==>
          && JobRowChecks(r, db.jobRevisions[r])
          && Contiguous(db.jobEvidence, r, db.jobRevisions[r].evidenceCount))
    && (forall r :: r in db.requirementRevisions ==>
          && RequirementRowChecks(r, db.requirementRevisions[r])
          && Contiguous(db.scopes, r, db.requirementRevisions[r].scopeCount)
          && Contiguous(db.requirementEvidence, r, db.requirementRevisions[r].evidenceCount))
  }

  /** Every sealed aggregate of the first database is in the second, row for row. */
  ghost predicate Preserved(db: Db, later: Db) {
    && (forall r :: r in db.jobRevisions ==>
          && r in later.jobRevisions && later.jobRevisions[r] == db.jobRevisions[r]
          && SameChildren(db.jobEvidence, later.jobEvidence, r))
    && (forall r :: r in db.requirementRevisions ==>
          && r in later.requirementRevisions && later.requirementRevisions[r] == db.requirementRevisions[r]
          && SameChildren(db.scopes, later.scopes, r)
          && SameChildren(db.requirementEvidence, later.requirementEvidence, r))
  }

  lemma InsertPreserves(db: Db, insert: Insert)
    requires Accepts(db, insert)
    ensures Preserved(db, Inserted(db, insert))
  {
  }

  lemma InsertKeepsSealed(db: Db, insert: Insert)
    requires Sealed(db) && Accepts(db, insert)
    ensures Sealed(Inserted(db, insert))
  {
    hide NonBlank, ReviewCheck, IsSha256;
    var later := Inserted(db, insert);
    InsertPreserves(db, insert);
    match insert {
      case InsertJobEvidence(owner, ordinal, ref) =>
        InsertKeepsNoRepeats(db.jobEvidence, db.jobRevisions.Keys, owner, ordinal, ref);
      case InsertScope(owner, ordinal, scope) =>
        InsertKeepsNoRepeats(db.scopes, db.requirementRevisions.Keys, owner, ordinal, scope);
      case InsertRequirementEvidence(owner, ordinal, ref) =>
        InsertKeepsNoRepeats(db.requirementEvidence, db.requirementRevisions.Keys, owner, ordinal, ref);
      case InsertJobRevision(owner, row) => SealMeansContiguous(db.jobEvidence, owner, row.evidenceCount);
      case InsertRequirementRevision(owner, row) =>
        SealMeansContiguous(db.scopes, owner, row.scopeCount);
        SealMeansContiguous(db.requirementEvidence, owner, row.evidenceCount);
      case _ =>
    }
  }

  lemma {:induction false} StatementsKeepSealed(db: Db, inserts: seq<Insert>)
    requires Sealed(db) && Statements(db, inserts).Some?
    ensures Sealed(Statements(db, inserts).value) && Preserved(db, Statements(db, inserts).value)
    decreases |inserts|
  {
    if inserts != [] {
      var next := Inserted(db, inserts[0]);
      InsertKeepsSealed(db, inserts[0]);
      InsertPreserves(db, inserts[0]);
      StatementsKeepSealed(next, inserts[1..]);
      PreservedIsTransitive(db, next, Statements(next, inserts[1..]).value);
    }
  }

  lemma PreservedIsTransitive(a: Db, b: Db, c: Db)
    requires Preserved(a, b) && Preserved(b, c)
    ensures Preserved(a, c)
  {
  }

  lemma TransactionKeepsSealed(db: Db, inserts: seq<Insert>)
    requires Sealed(db) && NoOrphans(db)
    ensures Sealed(Transaction(db, inserts)) && NoOrphans(Transaction(db, inserts))
    ensures Preserved(db, Transaction(db, inserts))
  {
    if Statements(db, inserts).Some? { StatementsKeepSealed(db, inserts); }
  }

  /** Every reachable database keeps its sealed aggregates contiguous, complete and unchanged. */
  lemma {:induction false} HistoryKeepsSealed(db: Db, transactions: seq<seq<Insert>>)
    requires Sealed(db) && NoOrphans(db)
    ensures Sealed(History(db, transactions)) && NoOrphans(History(db, transactions))
    ensures Preserved(db, History(db, transactions))
    decreases |transactions|
  {
    if transactions != [] {
      var next := Transaction(db, transactions[0]);
      TransactionKeepsSealed(db, transactions[0]);
      HistoryKeepsSealed(next, transactions[1..]);
      PreservedIsTransitive(db, next, History(next, transactions[1..]));
    }
  }

  // ---- What the keys promise of every reachable database ----

  ghost predicate ChildrenHold(db: Db) {
    && (forall k :: k in db.jobEvidence ==> db.jobEvidence[k] in db.evidenceRefs && 0 <= k.ordinal)
    && (forall k :: k in db.requirementEvidence ==> db.requirementEvidence[k] in db.evidenceRefs && 0 <= k.ordinal)
    && (forall k :: k in db.scopes ==> 0 <= k.ordinal)
  }

  ghost predicate IdentitiesHold(db: Db) {
    && (forall r :: r in db.jobRevisions ==> r.id in db.jobs)
    && (forall q :: q in db.requirements ==> db.requirements[q] in db.jobs)
  }

  ghost predicate RequirementHolds(db: Db, r: Rev)
    requires r in db.requirementRevisions
  {
    var row := db.requirementRevisions[r];
    && r.id in db.requirements && db.requirements[r.id] == row.job.id && row.job in db.jobRevisions
    && (row.mapping.Some? ==> row.mapping.value in db.capabilityNodes)
  }

  ghost predicate KeysHold(db: Db) {
    ChildrenHold(db) && IdentitiesHold(db) && forall r :: r in db.requirementRevisions ==> RequirementHolds(db, r)
  }

  lemma InsertKeepsChildren(db: Db, insert: Insert)
    requires ChildrenHold(db) && Accepts(db, insert)
    ensures ChildrenHold(Inserted(db, insert)) && Inserted(db, insert).evidenceRefs == db.evidenceRefs
  {
    hide AcceptsJobRevision, AcceptsRequirementRevision;
  }

  lemma InsertKeepsIdentities(db: Db, insert: Insert)
    requires IdentitiesHold(db) && Accepts(db, insert)
    ensures IdentitiesHold(Inserted(db, insert))
  {
    hide JobRowChecks, AcceptsRequirementRevision, SealHolds;
  }

  lemma InsertKeepsRequirement(db: Db, insert: Insert, r: Rev)
    requires r in db.requirementRevisions ==> RequirementHolds(db, r)
    requires Accepts(db, insert) && r in Inserted(db, insert).requirementRevisions
    ensures RequirementHolds(Inserted(db, insert), r)
  {
    hide JobRowChecks, RequirementRowChecks, SealHolds;
  }

  lemma InsertKeepsKeys(db: Db, insert: Insert)
    requires KeysHold(db) && Accepts(db, insert)
    ensures KeysHold(Inserted(db, insert))
  {
    hide ChildrenHold, IdentitiesHold, RequirementHolds, Accepts;
    InsertKeepsChildren(db, insert);
    InsertKeepsIdentities(db, insert);
    forall r | r in Inserted(db, insert).requirementRevisions
      ensures RequirementHolds(Inserted(db, insert), r)
    {
      InsertKeepsRequirement(db, insert, r);
    }
  }

  lemma {:induction false} StatementsKeepKeys(db: Db, inserts: seq<Insert>)
    requires KeysHold(db) && Statements(db, inserts).Some?
    ensures KeysHold(Statements(db, inserts).value)
    decreases |inserts|
  {
    if inserts != [] {
      hide KeysHold, Accepts, Inserted;
      InsertKeepsKeys(db, inserts[0]);
      StatementsKeepKeys(Inserted(db, inserts[0]), inserts[1..]);
    }
  }

  /** Over every history every child has its owner and a known reference, every revision its identity, and
      every requirement the revision of its own job and an existing capability. */
  lemma {:induction false} HistoryKeepsKeys(db: Db, transactions: seq<seq<Insert>>)
    requires KeysHold(db) && NoOrphans(db)
    ensures KeysHold(History(db, transactions)) && NoOrphans(History(db, transactions))
    decreases |transactions|
  {
    if transactions != [] {
      if Statements(db, transactions[0]).Some? { StatementsKeepKeys(db, transactions[0]); }
      hide KeysHold, Statements, NoOrphans;
      HistoryKeepsKeys(Transaction(db, transactions[0]), transactions[1..]);
    }
  }

  // ---- Readers ----

  datatype JobRevision = JobRevision(jobId: string, revision: int, schemaVersion: int, contentSha256: string,
                                     evidenceRefs: seq<string>, observedAt: int)

  datatype JobRequirement = JobRequirement(requirementId: string, revision: int, schemaVersion: int, job: Rev,
                                           mapping: Option<Mapping>, scopes: seq<Scope>, evidenceRefs: seq<string>,
                                           status: RequirementStatus, text: Columns, proposedAt: int,
                                           reviewedAt: Option<int>)

  /** What the readers raise: for children that are not 0..count-1, and for columns that the
      record's own validators refuse. */
  datatype ReadError = IncompleteAggregate | InvalidRecord

  predicate ValidJob(job: JobRevision) {
    && OpaqueId(job.jobId) && 1 <= job.revision && 1 <= job.schemaVersion && IsSha256(job.contentSha256)
    && job.evidenceRefs != [] && Distinct(job.evidenceRefs) && AllOpaque(job.evidenceRefs)
  }

  const MAX_ACTOR := 255
  const MAX_REASON := 2048

  /** The lengths that the record allows. The tables check only the requirement's, up to its first NUL. */
  predicate TextsFit(text: Columns) {
    && |text.requirement| <= MAX_REQUIREMENT && |text.proposedBy| <= MAX_ACTOR
    && (text.reviewedBy.Some? ==> |text.reviewedBy.value| <= MAX_ACTOR)
    && (text.reviewReason.Some? ==> |text.reviewReason.value| <= MAX_REASON)
  }

  predicate NonEmpty(column: Option<string>) {
    column.Some? ==> column.value != ""
  }

  /** A proposed requirement carries no review; a decided one carries all of it, by no agent. */
  predicate ReviewIsExplicit(status: RequirementStatus, r: ReviewColumns) {
    if status == Proposed then r == ReviewColumns(None, None, None, None)
    else r.reviewer.Some? && r.kind.Some? && r.reason.Some? && r.at.Some? && r.kind != Some(Agent)
  }

  predicate MappingNamed(mapping: Option<Mapping>) {
    mapping.Some? ==> OpaqueId(mapping.value.capabilityId) && OpaqueId(mapping.value.graphVersionId)
  }

  predicate ValidRequirement(q: JobRequirement) {
    && OpaqueId(q.requirementId) && OpaqueId(q.job.id) && MappingNamed(q.mapping) && AllOpaque(q.evidenceRefs)
    && 1 <= q.revision && 1 <= q.schemaVersion && 1 <= q.job.revision
    && q.text.requirement != "" && q.text.proposedBy != ""
    && NonEmpty(q.text.reviewedBy) && NonEmpty(q.text.reviewReason) && TextsFit(q.text)
    && q.scopes != [] && Distinct(q.scopes) && q.evidenceRefs != [] && Distinct(q.evidenceRefs)
    && ReviewIsExplicit(q.status,
                        ReviewColumns(q.text.reviewedBy, q.text.reviewedByKind, q.text.reviewReason, q.reviewedAt))
    && (q.status == Accepted ==> q.mapping.Some?)
  }

  function ToJobRevision(db: Db, r: Rev): Result<JobRevision, ReadError>
    requires r in db.jobRevisions
  {
    var row := db.jobRevisions[r];
    match Read(db.jobEvidence, r, row.evidenceCount)
    case Err(_) => Err(IncompleteAggregate)
    case Ok(refs) =>
      var job := JobRevision(r.id, r.revision, row.schemaVersion, row.contentSha256, refs, row.observedAt);
      if ValidJob(job) then Ok(job) else Err(InvalidRecord)
  }

  function RequirementOf(r: Rev, row: RequirementRow, scopes: seq<Scope>, refs: seq<string>): JobRequirement {
    JobRequirement(r.id, r.revision, row.schemaVersion, row.job, row.mapping, scopes, refs,
                   row.status, row.text, row.proposedAt, row.reviewedAt)
  }

  function ToRequirement(db: Db, r: Rev): Result<JobRequirement, ReadError>
    requires r in db.requirementRevisions
  {
    var row := db.requirementRevisions[r];
    match Read(db.scopes, r, row.scopeCount)
    case Err(_) => Err(IncompleteAggregate)
    case Ok(scopes) =>
      match Read(db.requirementEvidence, r, row.evidenceCount)
      case Err(_) => Err(IncompleteAggregate)
      case Ok(refs) =>
        var q := RequirementOf(r, row, scopes, refs);
        if ValidRequirement(q) then Ok(q) else Err(InvalidRecord)
  }

  /** The decision of a row names its reviewer, the reviewer's kind and the reason. */
  predicate DecisionNamed(row: RequirementRow) {
    row.status != Proposed ==> row.text.reviewedBy.Some? && row.text.reviewedByKind.Some? && row.text.reviewReason.Some?
  }

  /** A digest is checked up to its first NUL. */
  predicate ReadableJob(row: JobRow) {
    '\0' !in row.contentSha256
  }

  /** No check bounds who proposed or reviewed it or the reason, or what a requirement hides behind a NUL. */
  predicate Readable(row: RequirementRow) {
    && DecisionNamed(row) && |row.text.requirement| <= 4096 && |row.text.proposedBy| <= 255
    && (row.text.reviewedBy.Some? ==> |row.text.reviewedBy.value| <= 255)
    && (row.text.reviewReason.Some? ==> |row.text.reviewReason.value| <= 2048)
  }

  /** Its columns are what the record asks beyond the checks, and its identifiers have their form. */
  ghost predicate JobIsReadable(db: Db, r: Rev)
    requires r in db.jobRevisions
  {
    ReadableJob(db.jobRevisions[r]) && OpaqueId(r.id) && Named(db.jobEvidence, r)
  }

  ghost predicate RequirementIsReadable(db: Db, r: Rev)
    requires r in db.requirementRevisions
  {
    var row := db.requirementRevisions[r];
    && Readable(row) && OpaqueId(r.id) && OpaqueId(row.job.id) && MappingNamed(row.mapping)
    && Named(db.requirementEvidence, r)
  }

  lemma NonBlankIsNotEmpty(s: string)
    ensures NonBlank(s) ==> s != ""
  {
  }

  /** Of all that the validators ask, the tables leave open the form of identifiers, the decision's
      names and the lengths. */
  lemma CheckedRowIsValidIffReadable(r: Rev, row: RequirementRow, scopes: seq<Scope>, refs: seq<string>)
    requires RequirementRowChecks(r, row)
    requires scopes != [] && Distinct(scopes) && refs != [] && Distinct(refs)
    ensures ValidRequirement(RequirementOf(r, row, scopes, refs)) <==>
              Readable(row) && OpaqueId(r.id) && OpaqueId(row.job.id) && MappingNamed(row.mapping) && AllOpaque(refs)
  {
    if row.status == Proposed { ReviewCheckOfProposed(ReviewOf(row)); } else { ReviewCheckOfDecided(ReviewOf(row)); }
    hide NonBlank, ReviewCheck, OpaqueId, AllOpaque, MappingNamed;
    NonBlankIsNotEmpty(row.text.requirement);
    NonBlankIsNotEmpty(row.text.proposedBy);
    if row.text.reviewedBy.Some? { NonBlankIsNotEmpty(row.text.reviewedBy.value); }
    if row.text.reviewReason.Some? { NonBlankIsNotEmpty(row.text.reviewReason.value); }
  }

  lemma DigestIsWholeIff(digest: string)
    requires IsSha256(UpToNul(digest))
    ensures IsSha256(digest) <==> '\0' !in digest
  {
    UpToNulIsWhole(digest);
  }

  lemma JobIsReadIffReadable(db: Db, r: Rev)
    requires Sealed(db) && r in db.jobRevisions
    ensures ToJobRevision(db, r).Ok? <==> JobIsReadable(db, r)
    ensures ToJobRevision(db, r).Err? ==> ToJobRevision(db, r) == Err(InvalidRecord)
  {
    var count := db.jobRevisions[r].evidenceCount;
    DigestIsWholeIff(db.jobRevisions[r].contentSha256);
    ReadsIffContiguous(db.jobEvidence, r, count);
    ReadIsDistinct(db.jobEvidence, r, count);
    ReadIsNamedIff(db.jobEvidence, r, count);
    hide IsSha256, UpToNul, Read, Named, OpaqueId;
  }

  lemma RequirementIsReadIffReadable(db: Db, r: Rev)
    requires Sealed(db) && r in db.requirementRevisions
    ensures ToRequirement(db, r).Ok? <==> RequirementIsReadable(db, r)
    ensures ToRequirement(db, r).Err? ==> ToRequirement(db, r) == Err(InvalidRecord)
  {
    var row := db.requirementRevisions[r];
    ReadsIffContiguous(db.scopes, r, row.scopeCount);
    ReadsIffContiguous(db.requirementEvidence, r, row.evidenceCount);
    ReadIsDistinct(db.scopes, r, row.scopeCount);
    ReadIsDistinct(db.requirementEvidence, r, row.evidenceCount);
    CheckedRowIsValidIffReadable(r, row, Read(db.scopes, r, row.scopeCount).value,
                                 Read(db.requirementEvidence, r, row.evidenceCount).value);
    ReadIsNamedIff(db.requirementEvidence, r, row.evidenceCount);
    hide Read, Named, OpaqueId, Readable, ValidRequirement, RequirementRowChecks;
  }

  lemma PreservedReadsTheSame(db: Db, later: Db)
    requires Preserved(db, later)
    ensures forall r :: r in db.jobRevisions ==>
              r in later.jobRevisions && ToJobRevision(later, r) == ToJobRevision(db, r)
    ensures forall r :: r in db.requirementRevisions ==>
              r in later.requirementRevisions && ToRequirement(later, r) == ToRequirement(db, r)
  {
    forall r | r in db.jobRevisions
      ensures ToJobRevision(later, r) == ToJobRevision(db, r)
    {
      SameChildrenReadTheSame(db.jobEvidence, later.jobEvidence, r, db.jobRevisions[r].evidenceCount);
    }
    forall r | r in db.requirementRevisions
      ensures ToRequirement(later, r) == ToRequirement(db, r)
    {
      var row := db.requirementRevisions[r];
      SameChildrenReadTheSame(db.scopes, later.scopes, r, row.scopeCount);
      SameChildrenReadTheSame(db.requirementEvidence, later.requirementEvidence, r, row.evidenceCount);
    }
  }

  /** In every database that inserts can reach: a job revision is read if and only if its identifiers
      have their form and its digest holds no NUL; a requirement if and only if they do, its decision, if
      there is one, is named, and its texts fit; and what a reader answers it answers for ever. */
  lemma ReaderRaisesIff(evidenceRefs: set<string>, nodes: set<Mapping>,
                        past: seq<seq<Insert>>, future: seq<seq<Insert>>)
    ensures var db := History(Empty(evidenceRefs, nodes), past);
            var later := History(db, future);
            && (forall r :: r in db.jobRevisions ==>
                  && r in later.jobRevisions
                  && (ToJobRevision(db, r).Ok? <==> JobIsReadable(db, r))
                  && ToJobRevision(later, r) == ToJobRevision(db, r))
            && (forall r :: r in db.requirementRevisions ==>
                  && r in later.requirementRevisions
                  && (ToRequirement(db, r).Ok? <==> RequirementIsReadable(db, r))
                  && ToRequirement(later, r) == ToRequirement(db, r))
  {
    var start := Empty(evidenceRefs, nodes);
    var db := History(start, past);
    HistoryKeepsSealed(start, past);
    HistoryKeepsSealed(db, future);
    PreservedReadsTheSame(db, History(db, future));
    forall r | r in db.jobRevisions ensures ToJobRevision(db, r).Ok? <==> JobIsReadable(db, r) {
      JobIsReadIffReadable(db, r);
    }
    forall r | r in db.requirementRevisions
      ensures ToRequirement(db, r).Ok? <==> RequirementIsReadable(db, r)
    {
      RequirementIsReadIffReadable(db, r);
    }
  }

  // ---- A requirement that the tables take and the reader refuses ----

  function SomeDigest(): string {
    seq(64, i => 'a')
  }

  lemma SomeDigestIsWhole()
    ensures IsSha256(UpToNul(SomeDigest())) && IsSha256(SomeDigest())
  {
    UpToNulIsWhole(SomeDigest());
  }

  /** A requirement rejected by nobody, for no reason. */
  function RejectedByNobody(): RequirementRow {
    RequirementRow(1, Rev("job_1", 1), None, Rejected,
                   Columns("Writes tests", Required, "importer", Rule, None, None, None), 0, Some(0), 1, 1)
  }

  function InsertsRejectedByNobody(): seq<Insert> {
    [InsertJob("job_1"),
     InsertJobEvidence(Rev("job_1", 1), 0, "evidence_1"),
     InsertJobRevision(Rev("job_1", 1), JobRow(1, SomeDigest(), 0, 1)),
     InsertRequirement("requirement_1", "job_1"),
     InsertScope(Rev("requirement_1", 1), 0, Understand),
     InsertRequirementEvidence(Rev("requirement_1", 1), 0, "evidence_1"),
     InsertRequirementRevision(Rev("requirement_1", 1), RejectedByNobody())]
  }

  lemma AcceptedStatement(db: Db, inserts: seq<Insert>)
    requires inserts != [] && Accepts(db, inserts[0])
    ensures Statements(db, inserts) == Statements(Inserted(db, inserts[0]), inserts[1..])
  {
  }

  /** The children of the witness, and the rows that own them. */
  function ChildrenOfWitness(): Db {
    Db({"evidence_1"}, {}, {"job_1"},
       map[Rev("job_1", 1) := JobRow(1, SomeDigest(), 0, 1)],
       map[ChildKey(Rev("job_1", 1), 0) := "evidence_1"],
       map["requirement_1" := "job_1"],
       map[],
       map[ChildKey(Rev("requirement_1", 1), 0) := Understand],
       map[ChildKey(Rev("requirement_1", 1), 0) := "evidence_1"])
  }

  lemma SingleChildSeals<V>(owner: Rev, value: V)
    ensures SealHolds(map[ChildKey(owner, 0) := value], owner, 1)
  {
    var t := map[ChildKey(owner, 0) := value];
    assert forall i :: ChildKey(owner, i) in t <==> i == 0;
    SealMeansContiguous(t, owner, 1);
  }

  /** The job of the witness alone. */
  function JobOfWitness(): Db {
    Db({"evidence_1"}, {}, {"job_1"},
       map[Rev("job_1", 1) := JobRow(1, SomeDigest(), 0, 1)],
       map[ChildKey(Rev("job_1", 1), 0) := "evidence_1"],
       map[], map[], map[], map[])
  }

  lemma JobInsertsOfWitness()
    ensures Statements(Empty({"evidence_1"}, {}), InsertsRejectedByNobody())
              == Statements(JobOfWitness(), InsertsRejectedByNobody()[3..])
  {
    var all := InsertsRejectedByNobody();
    var db0 := Empty({"evidence_1"}, {});
    var db1 := Inserted(db0, all[0]);
    var db2 := Inserted(db1, all[1]);
    assert db2.jobEvidence == map[ChildKey(Rev("job_1", 1), 0) := "evidence_1"];
    SingleChildSeals(Rev("job_1", 1), "evidence_1");
    SomeDigestIsWhole();
    hide UpToNul, IsSha256, SomeDigest, AcceptsRequirementRevision, RejectedByNobody;
    assert Inserted(db2, all[2]) == JobOfWitness();
    hide Statements, SealHolds;
    AcceptedStatement(db0, all);
    AcceptedStatement(db1, all[1..]);
    AcceptedStatement(db2, all[2..]);
  }

  lemma FirstInsertsOfWitness()
    ensures Statements(Empty({"evidence_1"}, {}), InsertsRejectedByNobody())
              == Statements(ChildrenOfWitness(), InsertsRejectedByNobody()[6..])
  {
    JobInsertsOfWitness();
    hide UpToNul, IsSha256, SomeDigest, AcceptsRequirementRevision, AcceptsJobRevision, RejectedByNobody;
    var all := InsertsRejectedByNobody();
    var db3 := JobOfWitness();
    var db4 := Inserted(db3, all[3]);
    var db5 := Inserted(db4, all[4]);
    assert Inserted(db5, all[5]) == ChildrenOfWitness();
    hide Statements, SealHolds;
    AcceptedStatement(db3, all[3..]);
    AcceptedStatement(db4, all[4..]);
    AcceptedStatement(db5, all[5..]);
  }

  lemma WitnessTextsPass()
    ensures Length("Writes tests") <= MAX_REQUIREMENT && NonBlank("Writes tests") && NonBlank("importer")
  {
    UpToNulIsWhole("Writes tests");
  }

  lemma WitnessRowIsAccepted()
    ensures AcceptsRequirementRevision(ChildrenOfWitness(), Rev("requirement_1", 1), RejectedByNobody())
    ensures !Readable(RejectedByNobody())
  {
    SingleChildSeals(Rev("requirement_1", 1), Understand);
    SingleChildSeals(Rev("requirement_1", 1), "evidence_1");
    WitnessTextsPass();
    hide SealHolds, Length, NonBlank;
    ReviewCheckOfDecided(ReviewOf(RejectedByNobody()));
  }

  lemma SingleTransaction(db: Db, inserts: seq<Insert>)
    ensures History(db, [inserts]) == Transaction(db, inserts)
  {
    assert [inserts][1..] == [];
    assert History(Transaction(db, inserts), []) == Transaction(db, inserts);
  }

  /** Seven inserts that keys, checks and triggers accept, after which the reader raises. */
  lemma RejectedByNobodyIsTakenButNotRead()
    ensures var db := History(Empty({"evidence_1"}, {}), [InsertsRejectedByNobody()]);
            && Rev("requirement_1", 1) in db.requirementRevisions
            && ToRequirement(db, Rev("requirement_1", 1)) == Err(InvalidRecord)
  {
    var db0 := Empty({"evidence_1"}, {});
    var all := InsertsRejectedByNobody();
    var last := ChildrenOfWitness().(requirementRevisions := map[Rev("requirement_1", 1) := RejectedByNobody()]);
    assert Inserted(ChildrenOfWitness(), all[6]) == last;
    assert NoOrphans(last) && Sealed(db0);
    FirstInsertsOfWitness();
    WitnessRowIsAccepted();
    hide Sealed, Readable, AcceptsRequirementRevision, Inserted, ToRequirement, NoOrphans, ChildrenOfWitness;
    AcceptedStatement(ChildrenOfWitness(), all[6..]);
    assert all[6..][1..] == [];
    assert Transaction(db0, all) == last;
    SingleTransaction(db0, all);
    HistoryKeepsSealed(db0, [all]);
    RequirementIsReadIffReadable(last, Rev("requirement_1", 1));
  }

  // ---- Listing a job's requirements ----

  predicate Precedes(a: Rev, b: Rev) {
    Before(a.id, b.id) || (a.id == b.id && a.revision > b.revision)
  }

  predicate InListOrder(rows: seq<Rev>) {
    forall i, j :: 0 <= i < j < |rows| ==> Precedes(rows[i], rows[j])
  }

  lemma PrecedesIsStrict(a: Rev, b: Rev)
    requires Precedes(a, b)
    ensures a != b && (a.id == b.id ==> a.revision > b.revision)
  {
    BeforeIsStrict(a.id);
  }

  lemma InListOrderIsDistinct(rows: seq<Rev>)
    requires InListOrder(rows)
    ensures Distinct(rows)
  {
    forall i, j | 0 <= i < j < |rows| ensures rows[i] != rows[j] { PrecedesIsStrict(rows[i], rows[j]); }
  }

  /** A part of ordered rows stays in order when the next row joins it. */
  lemma NextInOrder(rows: seq<Rev>, i: nat, part: seq<Rev>)
    requires InListOrder(rows) && i < |rows| && InListOrder(part) && forall r :: r in part ==> r in rows[..i]
    ensures InListOrder(part + [rows[i]]) && rows[i] !in part
  {
    hide Precedes;
    forall r | r in part ensures Precedes(r, rows[i]) {
      var k :| 0 <= k < i && rows[..i][k] == r;
      assert rows[k] == r;
    }
    if rows[i] in part { PrecedesIsStrict(rows[i], rows[i]); }
  }

  /** SELECT … WHERE job_id = … ORDER BY requirement_id, revision DESC. */
  ghost predicate SelectedRows(db: Db, jobId: string, rows: seq<Rev>) {
    && (forall r :: r in rows <==> r in db.requirementRevisions && db.requirementRevisions[r].job.id == jobId)
    && InListOrder(rows)
  }

  ghost predicate IsLatest(db: Db, jobId: string, r: Rev) {
    forall r' :: r' in db.requirementRevisions && db.requirementRevisions[r'].job.id == jobId && r'.id == r.id ==>
      r'.revision <= r.revision
  }

  ghost predicate Wanted(db: Db, job: Rev, latestOnly: bool, status: Option<RequirementStatus>, r: Rev) {
    && r in db.requirementRevisions && db.requirementRevisions[r].job == job
    && (latestOnly ==> IsLatest(db, job.id, r))
    && (status.Some? ==> db.requirementRevisions[r].status == status.value)
  }

  ghost predicate IsLatestRow(db: Db, jobId: string, rows: seq<Rev>, upTo: nat, r: Rev)
    requires upTo <= |rows|
  {
    r in rows[..upTo] && IsLatest(db, jobId, r)
  }

  /** In list order a row is its requirement's latest exactly when it comes first. */
  lemma FirstRowIsLatest(db: Db, jobId: string, rows: seq<Rev>, i: nat)
    requires SelectedRows(db, jobId, rows) && i < |rows|
    ensures IsLatest(db, jobId, rows[i]) <==> forall j :: 0 <= j < i ==> rows[j].id != rows[i].id
  {
    hide Precedes;
    if j :| 0 <= j < i && rows[j].id == rows[i].id {
      assert rows[j] in rows;
      PrecedesIsStrict(rows[j], rows[i]);
    } else {
      forall r' | r' in rows && r'.id == rows[i].id
        ensures r'.revision <= rows[i].revision
      {
        var j :| 0 <= j < |rows| && rows[j] == r';
        if i < j { PrecedesIsStrict(rows[i], rows[j]); }
      }
    }
  }

  /** setdefault over rows in list order keeps the latest row of each requirement, in that order. */
  method LatestRows(db: Db, jobId: string, rows: seq<Rev>) returns (latest: seq<Rev>)
    requires SelectedRows(db, jobId, rows)
    ensures InListOrder(latest)
    ensures forall r :: r in latest <==> r in rows && IsLatest(db, jobId, r)
  {
    hide Precedes;
    latest := [];
    var seen: set<string> := {};
    for i := 0 to |rows|
      invariant forall id :: id in seen <==> exists j :: 0 <= j < i && rows[j].id == id
      invariant forall r :: r in latest <==> IsLatestRow(db, jobId, rows, i, r)
      invariant InListOrder(latest)
    {
      hide InListOrder;
      FirstRowIsLatest(db, jobId, rows, i);
      NextInOrder(rows, i, latest);
      FrontOrLast(rows[..i + 1]);
      assert rows[..i + 1][..i] == rows[..i];
      if rows[i].id !in seen {
        latest := latest + [rows[i]];
        seen := seen + {rows[i].id};
      }
    }
    assert rows[..|rows|] == rows;
  }

  /** The latest revision is chosen before the job revision and status are looked at, so
      a requirement whose latest revision moved on is not listed at all. */
  method WantedRows(db: Db, job: Rev, latestOnly: bool, status: Option<RequirementStatus>, rows: seq<Rev>)
      returns (listed: seq<Rev>)
    requires SelectedRows(db, job.id, rows)
    ensures InListOrder(listed) && Distinct(listed)
    ensures forall r :: r in listed <==> Wanted(db, job, latestOnly, status, r)
  {
    hide Precedes;
    var candidates := rows;
    if latestOnly { candidates := LatestRows(db, job.id, rows); }
    listed := [];
    for i := 0 to |candidates|
      invariant forall r :: r in listed <==> r in candidates[..i] && Wanted(db, job, latestOnly, status, r)
      invariant InListOrder(listed)
    {
      hide InListOrder;
      NextInOrder(candidates, i, listed);
      FrontOrLast(candidates[..i + 1]);
      assert candidates[..i + 1][..i] == candidates[..i];
      var row := db.requirementRevisions[candidates[i]];
      if row.job.revision == job.revision && (status.None? || row.status == status.value) {
        listed := listed + [candidates[i]];
      }
    }
    assert candidates[..|candidates|] == candidates;
    InListOrderIsDistinct(listed);
  }

  function KeyOf(q: JobRequirement): Rev {
    Rev(q.requirementId, q.revision)
  }

  function KeysOf(requirements: seq<JobRequirement>): (keys: seq<Rev>)
    ensures |keys| == |requirements|
    ensures forall i :: 0 <= i < |keys| ==> keys[i] == KeyOf(requirements[i])
  {
    seq(|requirements|, i requires 0 <= i < |requirements| => KeyOf(requirements[i]))
  }

  lemma KeysAppend(requirements: seq<JobRequirement>, q: JobRequirement)
    ensures KeysOf(requirements + [q]) == KeysOf(requirements) + [KeyOf(q)]
  {
  }

  predicate IsRead(db: Db, q: JobRequirement) {
    KeyOf(q) in db.requirementRevisions && ToRequirement(db, KeyOf(q)) == Ok(q)
  }

  lemma ReadRecord(db: Db, r: Rev)
    requires r in db.requirementRevisions && ToRequirement(db, r).Ok?
    ensures KeyOf(ToRequirement(db, r).value) == r && IsRead(db, ToRequirement(db, r).value)
  {
  }

  ghost predicate AllRead(db: Db, rows: seq<Rev>) {
    forall r :: r in rows ==> r in db.requirementRevisions && ToRequirement(db, r).Ok?
  }

  lemma AllReadAppend(db: Db, rows: seq<Rev>, i: nat)
    requires i < |rows| && rows[i] in db.requirementRevisions
    requires ToRequirement(db, rows[i]).Ok? && AllRead(db, rows[..i])
    ensures AllRead(db, rows[..i + 1])
  {
    hide ToRequirement;
    FrontOrLast(rows[..i + 1]);
    assert rows[..i + 1][..i] == rows[..i];
  }

  ghost predicate AllFrom(db: Db, requirements: seq<JobRequirement>) {
    forall q :: q in requirements ==> IsRead(db, q)
  }

  method ReadRecords(db: Db, rows: seq<Rev>) returns (r: Result<seq<JobRequirement>, ReadError>)
    requires forall k :: k in rows ==> k in db.requirementRevisions
    ensures r.Ok? <==> AllRead(db, rows)
    ensures r.Ok? ==> KeysOf(r.value) == rows && AllFrom(db, r.value)
  {
    hide ToRequirement, KeysOf, KeyOf, IsRead;
    var records: seq<JobRequirement> := [];
    for i := 0 to |rows|
      invariant KeysOf(records) == rows[..i] && AllFrom(db, records) && AllRead(db, rows[..i])
    {
      assert rows[i] in rows;
      var record := ToRequirement(db, rows[i]);
      if record.Err? { return Err(record.error); }
      ReadRecord(db, rows[i]);
      AllReadAppend(db, rows, i);
      KeysAppend(records, record.value);
      records := records + [record.value];
    }
    assert rows[..|rows|] == rows;
    r := Ok(records);
  }

  /** One record for each wanted revision, in list order; a single one that its record refuses
      makes the whole list fail. */
  method ListRequirements(db: Db, job: Rev, latestOnly: bool, status: Option<RequirementStatus>, rows: seq<Rev>)
      returns (r: Result<seq<JobRequirement>, ReadError>)
    requires SelectedRows(db, job.id, rows)
    ensures r.Ok? <==> forall k :: Wanted(db, job, latestOnly, status, k) ==> ToRequirement(db, k).Ok?
    ensures r.Ok? ==> InListOrder(KeysOf(r.value)) && Distinct(KeysOf(r.value))
    ensures r.Ok? ==> forall k :: k in KeysOf(r.value) <==>
                        && k in db.requirementRevisions && db.requirementRevisions[k].job == job
                        && (status.Some? ==> db.requirementRevisions[k].status == status.value)
                        && (latestOnly ==>
                              forall other :: && other in db.requirementRevisions && other.id == k.id
                                              && db.requirementRevisions[other].job.id == job.id ==>
                                other.revision <= k.revision)
    ensures r.Ok? ==> AllFrom(db, r.value)
  {
    hide ToRequirement, InListOrder, SelectedRows, Distinct, KeysOf, KeyOf, IsRead;
    var wanted := WantedRows(db, job, latestOnly, status, rows);
    r := ReadRecords(db, wanted);
  }

  /** In list order requirements ascend, the revisions of each descend, and any two rows are ordered. */
  lemma ListOrderMeans(rows: seq<Rev>)
    ensures InListOrder(rows) <==>
              && (forall i, j :: 0 <= i < j < |rows| && rows[i].id != rows[j].id ==> Before(rows[i].id, rows[j].id))
              && (forall i, j :: 0 <= i < j < |rows| && rows[i].id == rows[j].id ==>
                    rows[i].revision > rows[j].revision)
    ensures forall a, b :: a in rows && b in rows && a != b ==> Precedes(a, b) || Precedes(b, a)
  {
    forall i | 0 <= i < |rows| ensures !Before(rows[i].id, rows[i].id) { BeforeIsStrict(rows[i].id); }
    forall a, b | a in rows && b in rows && a != b ensures Precedes(a, b) || Precedes(b, a) {
      BeforeIsTotal(a.id, b.id);
    }
    hide Before;
    if InListOrder(rows) {
      forall i, j | 0 <= i < j < |rows|
        ensures rows[i].id != rows[j].id ==> Before(rows[i].id, rows[j].id)
        ensures rows[i].id == rows[j].id ==> rows[i].revision > rows[j].revision
      {
        assert Precedes(rows[i], rows[j]);
      }
    }
  }
}
