/** The writes that stage a whole job or job requirement aggregate. */
module JobWrites {
  import opened Identifiers
  import opened JobTables
  import opened NamedChildren
  import opened Revisions
  import opened SealedRows
  import opened SqlChecks
  import opened Text
  import opened Wrappers

  datatype StageError =
    | RevisionMismatch | MissingJob | MissingEvidence | MissingCapability
    | FirstRevisionNotOne | MovedToAnotherJob | ConstraintViolated

  function JobKey(job: JobRevision): Rev {
    Rev(job.jobId, job.revision)
  }

  function JobRowOf(job: JobRevision, at: int): JobRow {
    JobRow(job.schemaVersion, job.contentSha256, at, |job.evidenceRefs|)
  }

  /** What the tables accept of a job revision, over a database with no open aggregate. */
  predicate JobRowsAccepted(db: Db, job: JobRevision, at: int) {
    && JobKey(job) !in db.jobRevisions && JobRowChecks(JobKey(job), JobRowOf(job, at))
    && Distinct(job.evidenceRefs)
  }

  function StagedJob(db: Db, job: JobRevision, entityRevision: int, at: int): Result<Db, StageError> {
    if job.revision != entityRevision then Err(RevisionMismatch)
    else if exists ref :: ref in job.evidenceRefs && ref !in db.evidenceRefs then Err(MissingEvidence)
    else if job.jobId !in db.jobs && job.revision != 1 then Err(FirstRevisionNotOne)
    else if !JobRowsAccepted(db, job, at) then Err(ConstraintViolated)
    else Ok(WithJob(db, job, at))
  }

  function WithJob(db: Db, job: JobRevision, at: int): Db {
    db.(jobs := db.jobs + {job.jobId},
        jobEvidence := Staged(db.jobEvidence, JobKey(job), job.evidenceRefs),
        jobRevisions := db.jobRevisions[JobKey(job) := JobRowOf(job, at)])
  }

  function RequirementKey(q: JobRequirement): Rev {
    Rev(q.requirementId, q.revision)
  }

  function RequirementRowOf(q: JobRequirement, at: int): RequirementRow {
    RequirementRow(q.schemaVersion, q.job, q.mapping, q.status, q.text,
                   if q.status == Proposed then at else q.proposedAt,
                   if q.status == Proposed then None else Some(at),
                   |q.scopes|, |q.evidenceRefs|)
  }

  predicate RequirementRowsAccepted(db: Db, q: JobRequirement, at: int) {
    && RequirementKey(q) !in db.requirementRevisions
    && (q.mapping.Some? ==> q.mapping.value in db.capabilityNodes)
    && Distinct(q.scopes) && Distinct(q.evidenceRefs)
    && RequirementRowChecks(RequirementKey(q), RequirementRowOf(q, at))
  }

  function StagedRequirement(db: Db, q: JobRequirement, entityRevision: int, at: int): Result<Db, StageError> {
    if q.revision != entityRevision then Err(RevisionMismatch)
    else if q.job !in db.jobRevisions then Err(MissingJob)
    else if exists ref :: ref in q.evidenceRefs && ref !in db.evidenceRefs then Err(MissingEvidence)
    else if q.status == Accepted && (q.mapping.None? || q.mapping.value !in db.capabilityNodes) then
      Err(MissingCapability)
    else if q.requirementId !in db.requirements && q.revision != 1 then Err(FirstRevisionNotOne)
    else if q.requirementId in db.requirements && db.requirements[q.requirementId] != q.job.id then
      Err(MovedToAnotherJob)
    else if !RequirementRowsAccepted(db, q, at) then Err(ConstraintViolated)
    else Ok(WithRequirement(db, q, at))
  }

  function WithRequirement(db: Db, q: JobRequirement, at: int): Db {
    WithRequirementRows(db.(requirements := db.requirements[q.requirementId := q.job.id]), q, at)
  }

  function WithRequirementRows(db: Db, q: JobRequirement, at: int): Db {
    db.(scopes := Staged(db.scopes, RequirementKey(q), q.scopes),
        requirementEvidence := Staged(db.requirementEvidence, RequirementKey(q), q.evidenceRefs),
        requirementRevisions := db.requirementRevisions[RequirementKey(q) := RequirementRowOf(q, at)])
  }

  /** The requirement as the command's clock stamps it. */
  function Stamped(q: JobRequirement, at: int): JobRequirement {
    q.(proposedAt := if q.status == Proposed then at else q.proposedAt,
       reviewedAt := if q.status == Proposed then None else Some(at))
  }

  /** What holds of every database between two staged aggregates. */
  ghost predicate Consistent(db: Db) {
    && Sealed(db) && NoOrphans(db)
    && (forall r :: r in db.jobRevisions ==> r.id in db.jobs)
  }

  lemma AddingAJobKeepsConsistent(db: Db, later: Db, owner: Rev, row: JobRow)
    requires Consistent(db) && owner !in db.jobRevisions && JobRowChecks(owner, row)
    requires NoRepeats(later.jobEvidence)
    requires Adds(db.jobEvidence, later.jobEvidence, owner, row.evidenceCount)
    requires later == db.(jobs := db.jobs + {owner.id}, jobEvidence := later.jobEvidence,
                          jobRevisions := db.jobRevisions[owner := row])
    ensures Consistent(later) && Preserved(db, later)
  {
    hide RequirementRowChecks, JobRowChecks, NoRepeats;
    forall r | r in later.jobRevisions
      ensures Contiguous(later.jobEvidence, r, later.jobRevisions[r].evidenceCount)
    {
      if r != owner {
        SameChildrenStayContiguous(db.jobEvidence, later.jobEvidence, r, db.jobRevisions[r].evidenceCount);
      }
    }
    forall k | k in later.jobEvidence
      ensures k.owner in later.jobRevisions
    {
      if k.owner != owner {
        assert SameChildren(db.jobEvidence, later.jobEvidence, k.owner);
        assert ChildKey(k.owner, k.ordinal) == k;
      }
    }
  }

  /** A job revision is read back as it was given, with the time of the command, or refused for its
      digest or an identifier. */
  function JobReadBack(job: JobRevision, at: int): Result<JobRevision, ReadError> {
    if ReadableJob(JobRowOf(job, at)) && OpaqueId(job.jobId) && AllOpaque(job.evidenceRefs)
    then Ok(job.(observedAt := at)) else Err(InvalidRecord)
  }

  lemma WithJobReadsBack(db: Db, job: JobRevision, at: int)
    requires NoOrphans(db) && JobRowsAccepted(db, job, at)
    ensures ToJobRevision(WithJob(db, job, at), JobKey(job)) == JobReadBack(job, at)
  {
    hide Staged, IsSha256, UpToNul, OpaqueId;
    DigestIsWholeIff(job.contentSha256);
    StagedReadsBack(db.jobEvidence, JobKey(job), job.evidenceRefs);
  }

  /** A staged job revision is read back, and nothing sealed before changes. */
  lemma StagedJobReadsBack(db: Db, job: JobRevision, entityRevision: int, at: int)
    requires Consistent(db) && StagedJob(db, job, entityRevision, at).Ok?
    ensures var later := StagedJob(db, job, entityRevision, at).value;
            && Consistent(later) && Preserved(db, later)
            && JobKey(job) in later.jobRevisions
            && ToJobRevision(later, JobKey(job)) == JobReadBack(job, at)
  {
    hide JobRowChecks, JobReadBack, Staged;
    var later := StagedJob(db, job, entityRevision, at).value;
    StagedAdds(db.jobEvidence, JobKey(job), job.evidenceRefs);
    StagedKeepsNoRepeats(db.jobEvidence, JobKey(job), job.evidenceRefs);
    WithJobReadsBack(db, job, at);
    AddingAJobKeepsConsistent(db, later, JobKey(job), JobRowOf(job, at));
  }

  lemma AddingARequirementKeepsConsistent(db: Db, later: Db, owner: Rev, row: RequirementRow)
    requires Consistent(db) && owner !in db.requirementRevisions && RequirementRowChecks(owner, row)
    requires NoRepeats(later.scopes) && NoRepeats(later.requirementEvidence)
    requires Adds(db.scopes, later.scopes, owner, row.scopeCount)
    requires Adds(db.requirementEvidence, later.requirementEvidence, owner, row.evidenceCount)
    requires later == db.(requirements := later.requirements, scopes := later.scopes,
                          requirementEvidence := later.requirementEvidence,
                          requirementRevisions := db.requirementRevisions[owner := row])
    ensures Consistent(later) && Preserved(db, later)
  {
    hide RequirementRowChecks, JobRowChecks, NoRepeats;
    forall r | r in later.requirementRevisions
      ensures Contiguous(later.scopes, r, later.requirementRevisions[r].scopeCount)
      ensures Contiguous(later.requirementEvidence, r, later.requirementRevisions[r].evidenceCount)
    {
      if r != owner {
        SameChildrenStayContiguous(db.scopes, later.scopes, r, db.requirementRevisions[r].scopeCount);
        SameChildrenStayContiguous(db.requirementEvidence, later.requirementEvidence, r,
                                   db.requirementRevisions[r].evidenceCount);
      }
    }
    forall k | k in later.scopes
      ensures k.owner in later.requirementRevisions
    {
      if k.owner != owner {
        assert SameChildren(db.scopes, later.scopes, k.owner);
        assert ChildKey(k.owner, k.ordinal) == k;
      }
    }
    forall k | k in later.requirementEvidence
      ensures k.owner in later.requirementRevisions
    {
      if k.owner != owner {
        assert SameChildren(db.requirementEvidence, later.requirementEvidence, k.owner);
        assert ChildKey(k.owner, k.ordinal) == k;
      }
    }
  }

  lemma WithRequirementKeepsConsistent(db: Db, q: JobRequirement, at: int)
    requires Consistent(db) && RequirementRowsAccepted(db, q, at)
    ensures Consistent(WithRequirement(db, q, at)) && Preserved(db, WithRequirement(db, q, at))
  {
    hide RequirementRowChecks;
    StagedAdds(db.scopes, RequirementKey(q), q.scopes);
    StagedAdds(db.requirementEvidence, RequirementKey(q), q.evidenceRefs);
    StagedKeepsNoRepeats(db.scopes, RequirementKey(q), q.scopes);
    StagedKeepsNoRepeats(db.requirementEvidence, RequirementKey(q), q.evidenceRefs);
    AddingARequirementKeepsConsistent(db, WithRequirement(db, q, at), RequirementKey(q), RequirementRowOf(q, at));
  }

  /** A requirement is read back as it was given, with the times the command sets, or refused by
      the record's validators when the tables took what they do not. */
  function ReadBack(q: JobRequirement, at: int): Result<JobRequirement, ReadError> {
    if && Readable(RequirementRowOf(q, at)) && OpaqueId(q.requirementId) && OpaqueId(q.job.id)
       && MappingNamed(q.mapping) && AllOpaque(q.evidenceRefs)
    then Ok(Stamped(q, at)) else Err(InvalidRecord)
  }

  lemma WithRequirementReadsBack(db: Db, q: JobRequirement, at: int)
    requires NoOrphans(db) && RequirementRowsAccepted(db, q, at)
    ensures ToRequirement(WithRequirement(db, q, at), RequirementKey(q)) == ReadBack(q, at)
  {
    assert q.scopes != [] && q.evidenceRefs != [];
    hide RequirementRowChecks, Readable, ValidRequirement, Staged;
    StagedReadsBack(db.scopes, RequirementKey(q), q.scopes);
    StagedReadsBack(db.requirementEvidence, RequirementKey(q), q.evidenceRefs);
    CheckedRowIsValidIffReadable(RequirementKey(q), RequirementRowOf(q, at), q.scopes, q.evidenceRefs);
    assert RequirementOf(RequirementKey(q), RequirementRowOf(q, at), q.scopes, q.evidenceRefs) == Stamped(q, at);
  }

  lemma StagedRequirementReadsBack(db: Db, q: JobRequirement, entityRevision: int, at: int)
    requires Consistent(db)
    ensures match StagedRequirement(db, q, entityRevision, at)
            case Ok(later) =>
              && Consistent(later) && Preserved(db, later)
              && RequirementKey(q) in later.requirementRevisions
              && ToRequirement(later, RequirementKey(q)) == ReadBack(q, at)
            case Err(_) => true
  {
    hide RequirementRowsAccepted, ReadBack;
    if StagedRequirement(db, q, entityRevision, at).Ok? {
      WithRequirementKeepsConsistent(db, q, at);
      WithRequirementReadsBack(db, q, at);
    }
  }

  lemma ValidJobIsReadable(job: JobRevision, at: int)
    requires ValidJob(job)
    ensures JobReadBack(job, at) == Ok(job.(observedAt := at))
  {
  }

  /** What is staged from a valid record is read back. */
  lemma ValidRecordIsReadable(q: JobRequirement, at: int)
    requires ValidRequirement(q)
    ensures ReadBack(q, at) == Ok(Stamped(q, at))
  {
  }

  /** With its children staged, a row is accepted exactly when the tables accept the aggregate. */
  lemma JobRowAcceptance(db: Db, staged: Db, job: JobRevision, at: int)
    requires Consistent(db) && Distinct(job.evidenceRefs)
    requires job.evidenceRefs == [] || JobKey(job) !in db.jobRevisions
    requires staged.jobEvidence == Staged(db.jobEvidence, JobKey(job), job.evidenceRefs)
    requires staged.jobRevisions == db.jobRevisions && job.jobId in staged.jobs
    ensures AcceptsJobRevision(staged, JobKey(job), JobRowOf(job, at)) <==> JobRowsAccepted(db, job, at)
  {
    SealAfterStaging(db.jobEvidence, db.jobRevisions.Keys, JobKey(job), job.evidenceRefs);
  }

  lemma RequirementRowAcceptance(db: Db, staged: Db, q: JobRequirement, at: int)
    requires Consistent(db) && Distinct(q.scopes) && Distinct(q.evidenceRefs)
    requires (q.scopes == [] && q.evidenceRefs == []) || RequirementKey(q) !in db.requirementRevisions
    requires staged.scopes == Staged(db.scopes, RequirementKey(q), q.scopes)
    requires staged.requirementEvidence == Staged(db.requirementEvidence, RequirementKey(q), q.evidenceRefs)
    requires staged.requirementRevisions == db.requirementRevisions && staged.jobRevisions == db.jobRevisions
    requires staged.capabilityNodes == db.capabilityNodes && q.job in db.jobRevisions
    requires q.requirementId in staged.requirements && staged.requirements[q.requirementId] == q.job.id
    requires q.status == Accepted ==> q.mapping.Some?
    ensures AcceptsRequirementRevision(staged, RequirementKey(q), RequirementRowOf(q, at)) <==>
              RequirementRowsAccepted(db, q, at)
  {
    SealAfterStaging(db.scopes, db.requirementRevisions.Keys, RequirementKey(q), q.scopes);
    SealAfterStaging(db.requirementEvidence, db.requirementRevisions.Keys, RequirementKey(q), q.evidenceRefs);
  }

  // ---- What each write stores, and when it is refused ----

  predicate KnownEvidence(db: Db, refs: seq<string>) {
    forall ref :: ref in refs ==> ref in db.evidenceRefs
  }

  /** A job revision is staged if and only if it is the revision commanded, new, the first of a new job, and
      has a digest and known evidence without repetition. */
  lemma StagedJobSucceedsIff(db: Db, job: JobRevision, entityRevision: int, at: int)
    ensures StagedJob(db, job, entityRevision, at).Ok? <==>
              && job.revision == entityRevision && 1 <= job.revision && 1 <= job.schemaVersion
              && (job.jobId !in db.jobs ==> job.revision == 1)
              && Rev(job.jobId, job.revision) !in db.jobRevisions && IsSha256(UpToNul(job.contentSha256))
              && job.evidenceRefs != [] && Distinct(job.evidenceRefs) && KnownEvidence(db, job.evidenceRefs)
  {
    hide IsSha256, UpToNul, Distinct;
  }

  lemma StagedJobRefusedFor(db: Db, job: JobRevision, entityRevision: int, at: int)
    requires StagedJob(db, job, entityRevision, at).Err?
    ensures StagedJob(db, job, entityRevision, at).error
            == if job.revision != entityRevision then RevisionMismatch
               else if !KnownEvidence(db, job.evidenceRefs) then MissingEvidence
               else if job.jobId !in db.jobs && job.revision != 1 then FirstRevisionNotOne
               else ConstraintViolated
  {
    hide JobRowsAccepted, WithJob;
  }

  lemma StagedJobIs(db: Db, job: JobRevision, entityRevision: int, at: int)
    requires StagedJob(db, job, entityRevision, at).Ok?
    ensures JobKey(job) !in db.jobRevisions && StagedJob(db, job, entityRevision, at).value == WithJob(db, job, at)
  {
    hide JobRowChecks, Distinct, WithJob;
  }

  lemma StagedJobStores(db: Db, job: JobRevision, entityRevision: int, at: int)
    requires Consistent(db) && StagedJob(db, job, entityRevision, at).Ok?
    ensures var later, key := StagedJob(db, job, entityRevision, at).value, Rev(job.jobId, job.revision);
            && later == db.(jobs := db.jobs + {job.jobId}, jobEvidence := later.jobEvidence,
                            jobRevisions := db.jobRevisions[key := JobRow(job.schemaVersion, job.contentSha256, at,
                                                                          |job.evidenceRefs|)])
            && Read(later.jobEvidence, key, |job.evidenceRefs|) == Ok(job.evidenceRefs)
            && forall r :: r != key ==> SameChildren(db.jobEvidence, later.jobEvidence, r)
  {
    StagedJobIs(db, job, entityRevision, at);
    hide StagedJob, Sealed, Staged, Read, Contiguous;
    StagedAdds(db.jobEvidence, JobKey(job), job.evidenceRefs);
    StagedReadsBack(db.jobEvidence, JobKey(job), job.evidenceRefs);
  }

  /** What the tables ask of a requirement's columns. */
  predicate RequirementPasses(q: JobRequirement) {
    && 1 <= q.revision && 1 <= q.schemaVersion && 1 <= q.job.revision
    && q.scopes != [] && Distinct(q.scopes) && q.evidenceRefs != [] && Distinct(q.evidenceRefs)
    && NonBlank(q.text.requirement) && Length(q.text.requirement) <= 4096 && NonBlank(q.text.proposedBy)
    && if q.status == Proposed then
         q.text.reviewedBy.None? && q.text.reviewedByKind.None? && q.text.reviewReason.None?
       else
         && (q.text.reviewedBy.Some? ==> NonBlank(q.text.reviewedBy.value)) && q.text.reviewedByKind != Some(Agent)
         && (q.text.reviewReason.Some? ==> NonBlank(q.text.reviewReason.value))
  }

  lemma RequirementChecksIff(q: JobRequirement, at: int)
    requires q.status == Accepted ==> q.mapping.Some?
    ensures RequirementPasses(q) <==>
              && Distinct(q.scopes) && Distinct(q.evidenceRefs)
              && RequirementRowChecks(RequirementKey(q), RequirementRowOf(q, at))
  {
    ReviewCheckOfProposed(ReviewOf(RequirementRowOf(q, at)));
    ReviewCheckOfDecided(ReviewOf(RequirementRowOf(q, at)));
    hide NonBlank, UpToNul, ReviewCheck, Distinct;
  }

  /** A requirement is staged if and only if it is the revision commanded, new, the first of a new requirement,
      of the job it always was of, with known evidence, and an existing mapping, which an accepted one has. */
  lemma StagedRequirementSucceedsIff(db: Db, q: JobRequirement, entityRevision: int, at: int)
    ensures StagedRequirement(db, q, entityRevision, at).Ok? <==>
              && q.revision == entityRevision && q.job in db.jobRevisions && KnownEvidence(db, q.evidenceRefs)
              && (q.status == Accepted ==> q.mapping.Some?)
              && (q.mapping.Some? ==> q.mapping.value in db.capabilityNodes)
              && (q.requirementId !in db.requirements ==> q.revision == 1)
              && (q.requirementId in db.requirements ==> db.requirements[q.requirementId] == q.job.id)
              && Rev(q.requirementId, q.revision) !in db.requirementRevisions && RequirementPasses(q)
  {
    if q.status == Accepted ==> q.mapping.Some? { RequirementChecksIff(q, at); }
    hide RequirementRowChecks, RequirementPasses, Distinct, Staged;
  }

  lemma StagedRequirementRefusedFor(db: Db, q: JobRequirement, entityRevision: int, at: int)
    requires StagedRequirement(db, q, entityRevision, at).Err?
    ensures StagedRequirement(db, q, entityRevision, at).error
            == if q.revision != entityRevision then RevisionMismatch
               else if q.job !in db.jobRevisions then MissingJob
               else if !KnownEvidence(db, q.evidenceRefs) then MissingEvidence
               else if q.status == Accepted && (q.mapping.None? || q.mapping.value !in db.capabilityNodes) then
                 MissingCapability
               else if q.requirementId !in db.requirements && q.revision != 1 then FirstRevisionNotOne
               else if q.requirementId in db.requirements && db.requirements[q.requirementId] != q.job.id then
                 MovedToAnotherJob
               else ConstraintViolated
  {
    hide RequirementRowsAccepted, WithRequirement;
  }

  lemma StagedRequirementIs(db: Db, q: JobRequirement, entityRevision: int, at: int)
    requires StagedRequirement(db, q, entityRevision, at).Ok?
    ensures RequirementKey(q) !in db.requirementRevisions
    ensures StagedRequirement(db, q, entityRevision, at).value == WithRequirement(db, q, at)
  {
    hide RequirementRowChecks, Distinct, WithRequirement;
  }

  lemma StagedRequirementStores(db: Db, q: JobRequirement, entityRevision: int, at: int)
    requires Consistent(db) && StagedRequirement(db, q, entityRevision, at).Ok?
    ensures var later, key := StagedRequirement(db, q, entityRevision, at).value, Rev(q.requirementId, q.revision);
            && key in later.requirementRevisions
            && later == db.(requirements := db.requirements[q.requirementId := q.job.id], scopes := later.scopes,
                            requirementEvidence := later.requirementEvidence,
                            requirementRevisions := db.requirementRevisions[key := later.requirementRevisions[key]])
            && later.requirementRevisions[key]
               == RequirementRow(q.schemaVersion, q.job, q.mapping, q.status, q.text,
                                 if q.status == Proposed then at else q.proposedAt,
                                 if q.status == Proposed then None else Some(at), |q.scopes|, |q.evidenceRefs|)
            && Read(later.scopes, key, |q.scopes|) == Ok(q.scopes)
            && Read(later.requirementEvidence, key, |q.evidenceRefs|) == Ok(q.evidenceRefs)
            && forall r :: r != key ==> && SameChildren(db.scopes, later.scopes, r)
                                        && SameChildren(db.requirementEvidence, later.requirementEvidence, r)
  {
    StagedRequirementIs(db, q, entityRevision, at);
    hide StagedRequirement, Sealed, Staged, Read, Contiguous;
    StagedAdds(db.scopes, RequirementKey(q), q.scopes);
    StagedReadsBack(db.scopes, RequirementKey(q), q.scopes);
    StagedAdds(db.requirementEvidence, RequirementKey(q), q.evidenceRefs);
    StagedReadsBack(db.requirementEvidence, RequirementKey(q), q.evidenceRefs);
  }

  // ---- Databases that only these writes fill ----

  datatype Write =
    | WriteJob(job: JobRevision, entityRevision: int, at: int)
    | WriteRequirement(requirement: JobRequirement, entityRevision: int, at: int)

  /** The records are validated before they are staged. */
  predicate ValidInput(w: Write) {
    match w
    case WriteJob(job, _, _) => ValidJob(job)
    case WriteRequirement(q, _, _) => ValidRequirement(q)
  }

  function Attempt(db: Db, w: Write): Result<Db, StageError> {
    match w
    case WriteJob(job, r, at) => StagedJob(db, job, r, at)
    case WriteRequirement(q, r, at) => StagedRequirement(db, q, r, at)
  }

  function Committed(db: Db, w: Write): Db {
    match Attempt(db, w)
    case Ok(later) => later
    case Err(_) => db
  }

  function Filled(db: Db, writes: seq<Write>): Db
    decreases |writes|
  {
    if writes == [] then db else Filled(Committed(db, writes[0]), writes[1..])
  }

  ghost predicate AllRead(db: Db) {
    && (forall r :: r in db.jobRevisions ==> ToJobRevision(db, r).Ok?)
    && (forall r :: r in db.requirementRevisions ==> ToRequirement(db, r).Ok?)
  }

  /** A later database reads the old rows as they were read, so only the new ones matter. */
  lemma ReadStays(db: Db, later: Db, jobs: set<Rev>, requirements: set<Rev>)
    requires Preserved(db, later) && AllRead(db)
    requires later.jobRevisions.Keys == db.jobRevisions.Keys + jobs
    requires later.requirementRevisions.Keys == db.requirementRevisions.Keys + requirements
    requires forall r :: r in jobs ==> ToJobRevision(later, r).Ok?
    requires forall r :: r in requirements ==> ToRequirement(later, r).Ok?
    ensures AllRead(later)
  {
    hide Preserved, ToJobRevision, ToRequirement;
    PreservedReadsTheSame(db, later);
  }

  lemma StagedJobKeys(db: Db, job: JobRevision, entityRevision: int, at: int)
    requires StagedJob(db, job, entityRevision, at).Ok?
    ensures var later := StagedJob(db, job, entityRevision, at).value;
            && later.jobRevisions.Keys == db.jobRevisions.Keys + {JobKey(job)}
            && later.requirementRevisions == db.requirementRevisions
  {
    hide JobRowsAccepted, Staged;
  }

  lemma StagedRequirementKeys(db: Db, q: JobRequirement, entityRevision: int, at: int)
    requires StagedRequirement(db, q, entityRevision, at).Ok?
    ensures var later := StagedRequirement(db, q, entityRevision, at).value;
            && later.requirementRevisions.Keys == db.requirementRevisions.Keys + {RequirementKey(q)}
            && later.jobRevisions == db.jobRevisions
  {
    hide RequirementRowsAccepted, Staged;
  }

  lemma StagedJobKeepsRead(db: Db, job: JobRevision, entityRevision: int, at: int)
    requires Consistent(db) && StagedJob(db, job, entityRevision, at).Ok? && AllRead(db) && ValidJob(job)
    ensures AllRead(StagedJob(db, job, entityRevision, at).value)
  {
    hide Consistent, Preserved, ValidJob, JobReadBack, ToJobRevision, ToRequirement, StagedJob, AllRead;
    StagedJobReadsBack(db, job, entityRevision, at);
    ValidJobIsReadable(job, at);
    StagedJobKeys(db, job, entityRevision, at);
    ReadStays(db, StagedJob(db, job, entityRevision, at).value, {JobKey(job)}, {});
  }

  lemma StagedRequirementKeepsRead(db: Db, q: JobRequirement, entityRevision: int, at: int)
    requires Consistent(db) && StagedRequirement(db, q, entityRevision, at).Ok? && AllRead(db) && ValidRequirement(q)
    ensures AllRead(StagedRequirement(db, q, entityRevision, at).value)
  {
    hide Consistent, Preserved, ValidRequirement, ReadBack, ToJobRevision, ToRequirement, StagedRequirement, AllRead;
    hide Stamped;
    StagedRequirementReadsBack(db, q, entityRevision, at);
    ValidRecordIsReadable(q, at);
    StagedRequirementKeys(db, q, entityRevision, at);
    ReadStays(db, StagedRequirement(db, q, entityRevision, at).value, {}, {RequirementKey(q)});
  }

  lemma CommittedKeepsRead(db: Db, w: Write)
    requires Consistent(db) && ValidInput(w)
    ensures Consistent(Committed(db, w)) && Preserved(db, Committed(db, w))
    ensures AllRead(db) ==> AllRead(Committed(db, w))
  {
    hide Consistent, Preserved, AllRead, StagedJob, StagedRequirement;
    NothingIsPreserved(db);
    if Attempt(db, w).Ok? {
      match w
      case WriteJob(job, r, at) =>
        StagedJobReadsBack(db, job, r, at);
        if AllRead(db) { StagedJobKeepsRead(db, job, r, at); }
      case WriteRequirement(q, r, at) =>
        StagedRequirementReadsBack(db, q, r, at);
        if AllRead(db) { StagedRequirementKeepsRead(db, q, r, at); }
    }
  }

  lemma NothingIsPreserved(db: Db)
    ensures Preserved(db, db)
  {
  }

  lemma {:induction false} FilledKeepsRead(db: Db, writes: seq<Write>)
    requires Consistent(db) && AllRead(db) && forall w :: w in writes ==> ValidInput(w)
    ensures Consistent(Filled(db, writes)) && AllRead(Filled(db, writes))
    decreases |writes|
  {
    if writes != [] {
      hide Consistent, AllRead, ValidInput;
      CommittedKeepsRead(db, writes[0]);
      FilledKeepsRead(Committed(db, writes[0]), writes[1..]);
    }
  }

  /** Where valid records are all that is staged, no reader ever raises. */
  lemma StagedRecordsAreAlwaysRead(evidenceRefs: set<string>, nodes: set<Mapping>, writes: seq<Write>)
    requires forall w :: w in writes ==> ValidInput(w)
    ensures var db := Filled(Empty(evidenceRefs, nodes), writes);
            && (forall r :: r in db.jobRevisions ==> ToJobRevision(db, r).Ok?)
            && (forall r :: r in db.requirementRevisions ==> ToRequirement(db, r).Ok?)
  {
    FilledKeepsRead(Empty(evidenceRefs, nodes), writes);
  }

  // ---- The writes as they run in a session ----

  /** A session inside a transaction; whoever opened the transaction rolls a failure back. */
  class Session {
    var db: Db

    constructor (db: Db)
      ensures this.db == db
    {
      this.db := db;
    }

    method StageJob(job: JobRevision, entityRevision: int, at: int) returns (r: Result<(), StageError>)
      requires Consistent(db)
      modifies this
      ensures match StagedJob(old(db), job, entityRevision, at)
              case Ok(staged) => r == Ok(()) && db == staged
              case Err(e) => r == Err(e)
    {
      if job.revision != entityRevision { return Err(RevisionMismatch); }
      if exists ref :: ref in job.evidenceRefs && ref !in db.evidenceRefs { return Err(MissingEvidence); }
      if job.jobId !in db.jobs {
        if job.revision != 1 { return Err(FirstRevisionNotOne); }
        db := db.(jobs := db.jobs + {job.jobId});
      }
      assert db.jobs == old(db.jobs) + {job.jobId};
      var owner := JobKey(job);
      var ok, rows := StageChildren(db.jobEvidence, db.jobRevisions.Keys, owner, job.evidenceRefs);
      if !ok { return Err(ConstraintViolated); }
      db := db.(jobEvidence := rows);
      JobRowAcceptance(old(db), db, job, at);
      if !AcceptsJobRevision(db, owner, JobRowOf(job, at)) { return Err(ConstraintViolated); }
      db := db.(jobRevisions := db.jobRevisions[owner := JobRowOf(job, at)]);
      assert db == WithJob(old(db), job, at);
      r := Ok(());
    }

    method StageRequirement(q: JobRequirement, entityRevision: int, at: int) returns (r: Result<(), StageError>)
      requires Consistent(db)
      modifies this
      ensures match StagedRequirement(old(db), q, entityRevision, at)
              case Ok(staged) => r == Ok(()) && db == staged
              case Err(e) => r == Err(e)
    {
      if q.revision != entityRevision { return Err(RevisionMismatch); }
      if q.job !in db.jobRevisions { return Err(MissingJob); }
      if exists ref :: ref in q.evidenceRefs && ref !in db.evidenceRefs { return Err(MissingEvidence); }
      if q.status == Accepted && (q.mapping.None? || q.mapping.value !in db.capabilityNodes) {
        return Err(MissingCapability);
      }
      if q.requirementId !in db.requirements {
        if q.revision != 1 { return Err(FirstRevisionNotOne); }
        db := db.(requirements := db.requirements[q.requirementId := q.job.id]);
      } else if db.requirements[q.requirementId] != q.job.id {
        return Err(MovedToAnotherJob);
      }
      assert db.requirements == old(db).requirements[q.requirementId := q.job.id];
      r := StageRequirementRows(q, at);
    }

    /** Children first, then the row that counts them. */
    method StageRequirementRows(q: JobRequirement, at: int) returns (r: Result<(), StageError>)
      requires Consistent(db) && q.job in db.jobRevisions
      requires q.requirementId in db.requirements && db.requirements[q.requirementId] == q.job.id
      requires q.status == Accepted ==> q.mapping.Some?
      modifies this
      ensures r == if RequirementRowsAccepted(old(db), q, at) then Ok(()) else Err(ConstraintViolated)
      ensures r.Ok? ==> db == WithRequirementRows(old(db), q, at)
    {
      var owner := RequirementKey(q);
      var ok, scopeRows := StageChildren(db.scopes, db.requirementRevisions.Keys, owner, q.scopes);
      if !ok { return Err(ConstraintViolated); }
      var evidenceRows;
      ok, evidenceRows := StageChildren(db.requirementEvidence, db.requirementRevisions.Keys, owner, q.evidenceRefs);
      if !ok { return Err(ConstraintViolated); }
      db := db.(scopes := scopeRows, requirementEvidence := evidenceRows);
      RequirementRowAcceptance(old(db), db, q, at);
      if !AcceptsRequirementRevision(db, owner, RequirementRowOf(q, at)) { return Err(ConstraintViolated); }
      db := db.(requirementRevisions := db.requirementRevisions[owner := RequirementRowOf(q, at)]);
      r := Ok(());
    }
  }
}
