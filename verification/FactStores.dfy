/** What the writes of claims and facts store, and when they are refused. */
module FactStores {
  import opened FactTables
  import opened FactWrites
  import opened Revisions
  import opened SealedRows
  import opened SqlChecks
  import opened Wrappers

  /** What the tables ask of a claim's columns. */
  predicate ClaimPasses(c: Claim) {
    && 1 <= c.revision && c.evidenceRefs != [] && Distinct(c.evidenceRefs)
    && 1 <= c.statement.schemaVersion && NonBlank(c.statement.claimType) && Length(c.statement.value) <= 65536
    && NonBlank(c.statement.extractor) && NonBlank(c.statement.extractorVersion) && NonBlank(c.statement.proposedBy)
    && 0.0 <= c.statement.confidence <= 1.0
    && if c.status == Proposed then c.review.reviewer.None? && c.review.kind.None? && c.review.reason.None?
       else
         && (c.review.reviewer.Some? ==> NonBlank(c.review.reviewer.value)) && c.review.kind != Some(Agent)
         && (c.review.reason.Some? ==> NonBlank(c.review.reason.value))
  }

  lemma ClaimRowsAcceptedIff(db: Db, c: Claim, at: int)
    ensures ClaimRowsAccepted(db, c, at) <==> Rev(c.claimId, c.revision) !in db.claimRevisions && ClaimPasses(c)
  {
    ReviewCheckOfProposed(ClaimRowOf(c, at).review);
    ReviewCheckOfDecided(ClaimRowOf(c, at).review);
    hide NonBlank, Length, Distinct, ReviewCheck;
  }

  /** A proposal is accepted if and only if it is the first revision of a new claim, proposed, with known
      evidence, and the tables take its columns. */
  lemma ProposalSucceedsIff(db: Db, c: Claim, entityRevision: int, at: int)
    requires Inv(db)
    ensures Proposal(db, c, entityRevision, at).Ok? <==>
              && c.revision == 1 && entityRevision == 1 && c.status == Proposed && c.claimId !in db.claims
              && (forall ref :: ref in c.evidenceRefs ==> ref in db.evidenceRefs) && ClaimPasses(c)
  {
    ClaimRowsAcceptedIff(db, c, at);
    assert Rev(c.claimId, c.revision) in db.claimRevisions ==> c.claimId in db.claims;
    hide ClaimRowsAccepted, ClaimPasses, Inv, WithClaimRows;
  }

  lemma ProposalRefusedFor(db: Db, c: Claim, entityRevision: int, at: int)
    requires Proposal(db, c, entityRevision, at).Err?
    ensures Proposal(db, c, entityRevision, at).error
            == if c.revision != entityRevision then RevisionMismatch
               else if c.status != Proposed then NotProposed
               else if exists ref :: ref in c.evidenceRefs && ref !in db.evidenceRefs then MissingEvidence
               else if c.claimId in db.claims then IdentityExists
               else if c.revision != 1 then FirstRevisionNotOne
               else ConstraintViolated
  {
    hide ClaimRowsAccepted, WithClaimRows;
  }

  /** A review is accepted if and only if it is the second revision of a claim that nobody has decided, by a user
      or a rule, not under the proposer's name, with known evidence, and the tables take its columns. */
  lemma ReviewSucceedsIff(db: Db, c: Claim, entityRevision: int, at: int)
    requires Inv(db)
    ensures Review(db, c, entityRevision, at).Ok? <==>
              && c.revision == 2 && entityRevision == 2 && c.status != Proposed
              && (c.review.kind == Some(User) || c.review.kind == Some(Rule))
              && (forall ref :: ref in c.evidenceRefs ==> ref in db.evidenceRefs)
              && c.claimId in db.claims && Rev(c.claimId, 2) !in db.claimRevisions
              && c.review.reviewer != Some(db.claimRevisions[Rev(c.claimId, 1)].statement.proposedBy)
              && ClaimPasses(c)
  {
    ClaimRowsAcceptedIff(db, c, at);
    if c.claimId in db.claims { assert ReviewedOnce(db, Rev(c.claimId, 1)); }
    if ProposalKey(c) in db.claimRevisions { assert ReviewedOnce(db, ProposalKey(c)); }
    hide ClaimRowsAccepted, ClaimPasses, WithClaimRows, Sealed, NoOrphans, PromotedFromAccepted;
  }

  lemma ReviewRefusedFor(db: Db, c: Claim, entityRevision: int, at: int)
    requires Inv(db) && Review(db, c, entityRevision, at).Err?
    ensures var proposal := Rev(c.claimId, c.revision - 1);
            Review(db, c, entityRevision, at).error
            == if c.revision != entityRevision then RevisionMismatch
               else if c.status == Proposed then NotReviewed
               else if c.review.kind != Some(User) && c.review.kind != Some(Rule) then ReviewerKind
               else if exists ref :: ref in c.evidenceRefs && ref !in db.evidenceRefs then MissingEvidence
               else if c.claimId !in db.claims then NoIdentity
               else if proposal !in db.claimRevisions || db.claimRevisions[proposal].status != Proposed then
                 MissingProposal
               else if c.review.reviewer == Some(db.claimRevisions[proposal].statement.proposedBy) then OwnProposal
               else ConstraintViolated
  {
    hide ClaimRowsAccepted, WithClaimRows, Inv;
  }

  /** The claim's row: its statement and review, with the command's time for the proposal or the decision. */
  predicate IsClaimRow(row: ClaimRow, c: Claim, at: int) {
    && row.status == c.status && row.evidenceCount == |c.evidenceRefs|
    && row.review.reviewer == c.review.reviewer && row.review.kind == c.review.kind
    && row.review.reason == c.review.reason
    && row.review.at == (if c.status == Proposed then None else Some(at))
    && row.statement
       == Statement(c.statement.schemaVersion, c.statement.claimType, c.statement.subject, c.statement.value,
                    c.statement.extractor, c.statement.extractorVersion, c.statement.confidence, c.statement.proposedBy,
                    c.statement.proposedByKind, if c.status == Proposed then at else c.statement.proposedAt)
  }

  /** One row for the claim, its references in their order, and nothing else but the identity. */
  ghost predicate StoresClaim(db: Db, later: Db, c: Claim, at: int, claims: set<string>) {
    var key := Rev(c.claimId, c.revision);
    && key !in db.claimRevisions && key in later.claimRevisions && IsClaimRow(later.claimRevisions[key], c, at)
    && later == db.(claims := claims, claimEvidence := later.claimEvidence,
                    claimRevisions := db.claimRevisions[key := later.claimRevisions[key]])
    && Read(later.claimEvidence, key, |c.evidenceRefs|) == Ok(c.evidenceRefs)
    && forall r :: r != key ==> SameChildren(db.claimEvidence, later.claimEvidence, r)
  }

  lemma ClaimRowsStore(db: Db, c: Claim, at: int, claims: set<string>)
    requires NoOrphans(db) && Rev(c.claimId, c.revision) !in db.claimRevisions
    ensures StoresClaim(db, WithClaimRows(db.(claims := claims), c, at), c, at, claims)
  {
    hide Staged, Read, Contiguous;
    StagedAdds(db.claimEvidence, ClaimKey(c), c.evidenceRefs);
    StagedReadsBack(db.claimEvidence, ClaimKey(c), c.evidenceRefs);
  }

  lemma ProposalStores(db: Db, c: Claim, entityRevision: int, at: int)
    requires Inv(db) && Proposal(db, c, entityRevision, at).Ok?
    ensures StoresClaim(db, Proposal(db, c, entityRevision, at).value, c, at, db.claims + {c.claimId})
  {
    hide StoresClaim, Sealed, NoOrphans, Proposal, WithClaimRows, ClaimRowsAccepted;
    InvMeans(db);
    ProposalMeans(db, c, entityRevision, at);
    AcceptedKeyIsNew(db, c, at);
    ClaimRowsStore(db, c, at, db.claims + {c.claimId});
  }

  lemma ReviewStores(db: Db, c: Claim, entityRevision: int, at: int)
    requires Inv(db) && Review(db, c, entityRevision, at).Ok?
    ensures StoresClaim(db, Review(db, c, entityRevision, at).value, c, at, db.claims)
  {
    hide StoresClaim, Sealed, NoOrphans, Review, WithClaimRows, ClaimRowsAccepted;
    InvMeans(db);
    ReviewMeans(db, c, entityRevision, at);
    AcceptedKeyIsNew(db, c, at);
    ClaimRowsStore(db, c, at, db.claims);
  }

  /** What the tables ask of a fact's columns. */
  predicate FactPasses(f: Fact) {
    && 1 <= f.revision && 1 <= f.source.revision && Distinct(f.evidenceRefs)
    && NonBlank(f.verifiedBy) && NonBlank(f.factType) && Length(f.value) <= 65536
  }

  /** A promotion is accepted if and only if it comes from an accepted revision, which the first revision of a fact
      repeats in type, value and evidence, is the next of its own candidate's, new, with known evidence, and the
      tables take its columns. */
  lemma PromotionSucceedsIff(db: Db, f: Fact, entityRevision: int, at: int)
    ensures Promotion(db, f, entityRevision, at).Ok? <==>
              && f.revision == entityRevision && f.source in db.claimRevisions
              && db.claimRevisions[f.source].status == Accepted
              && (f.revision == 1 ==>
                    && db.claimRevisions[f.source].statement.claimType == f.factType
                    && db.claimRevisions[f.source].statement.value == f.value
                    && InOrdinalOrder(db.claimEvidence, f.source) == f.evidenceRefs)
              && (forall ref :: ref in f.evidenceRefs ==> ref in db.evidenceRefs)
              && (f.factId !in db.facts ==> f.revision == 1)
              && (f.factId in db.facts ==> db.facts[f.factId] == f.candidateId)
              && Rev(f.factId, f.revision) !in db.factRevisions && FactPasses(f)
  {
    hide NonBlank, Length, Distinct, InOrdinalOrder, WithFactRows;
  }

  lemma PromotionRefusedFor(db: Db, f: Fact, entityRevision: int, at: int)
    requires Promotion(db, f, entityRevision, at).Err?
    ensures Promotion(db, f, entityRevision, at).error
            == if f.revision != entityRevision then RevisionMismatch
               else if f.source !in db.claimRevisions || db.claimRevisions[f.source].status != Accepted then
                 NotAcceptedClaim
               else if && f.revision == 1
                       && (|| db.claimRevisions[f.source].statement.claimType != f.factType
                           || db.claimRevisions[f.source].statement.value != f.value
                           || InOrdinalOrder(db.claimEvidence, f.source) != f.evidenceRefs)
               then DifferentFromClaim
               else if exists ref :: ref in f.evidenceRefs && ref !in db.evidenceRefs then MissingEvidence
               else if f.factId !in db.facts && f.revision != 1 then FirstRevisionNotOne
               else if f.factId in db.facts && db.facts[f.factId] != f.candidateId then DifferentCandidate
               else ConstraintViolated
  {
    hide FactRowsAccepted, WithFactRows, InOrdinalOrder;
  }

  /** One row for the fact, its references in their order, and nothing else but the identity. */
  ghost predicate StoresFact(db: Db, later: Db, f: Fact, at: int) {
    var key := Rev(f.factId, f.revision);
    && key !in db.factRevisions
    && later == db.(facts := db.facts[f.factId := f.candidateId], factEvidence := later.factEvidence,
                    factRevisions := db.factRevisions[key := FactRow(f.subject, f.factType, f.value, f.authority,
                                                                     f.verifiedBy, f.source, |f.evidenceRefs|, at)])
    && Read(later.factEvidence, key, |f.evidenceRefs|) == Ok(f.evidenceRefs)
    && forall r :: r != key ==> SameChildren(db.factEvidence, later.factEvidence, r)
  }

  lemma FactRowsStore(db: Db, f: Fact, at: int)
    requires NoOrphans(db) && Rev(f.factId, f.revision) !in db.factRevisions
    ensures StoresFact(db, WithFactRows(db.(facts := db.facts[f.factId := f.candidateId]), f, at), f, at)
  {
    hide Staged, Read, Contiguous;
    StagedAdds(db.factEvidence, FactKey(f), f.evidenceRefs);
    StagedReadsBack(db.factEvidence, FactKey(f), f.evidenceRefs);
  }

  lemma PromotionStores(db: Db, f: Fact, entityRevision: int, at: int)
    requires Inv(db) && Promotion(db, f, entityRevision, at).Ok?
    ensures StoresFact(db, Promotion(db, f, entityRevision, at).value, f, at)
  {
    hide StoresFact, Sealed, NoOrphans, Promotion, WithFactRows, FactRowsAccepted, CarriesClaim;
    InvMeans(db);
    PromotionMeans(db, f, entityRevision, at);
    AcceptedFactKeyIsNew(db, f, at);
    FactRowsStore(db, f, at);
  }
}
