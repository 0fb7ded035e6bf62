/** The writes that stage a claim, its review, and the promotion of an accepted claim to a fact. */
module FactWrites {
  import opened FactTables
  import opened Identifiers
  import opened NamedChildren
  import opened Revisions
  import opened SealedRows
  import opened SqlChecks
  import opened Wrappers

  datatype StageError =
    | RevisionMismatch | NotProposed | NotReviewed | ReviewerKind | MissingEvidence | IdentityExists
    | FirstRevisionNotOne | NoIdentity | MissingProposal | OwnProposal | NotAcceptedClaim | DifferentFromClaim
    | DifferentCandidate | ConstraintViolated

  function ClaimKey(c: Claim): Rev {
    Rev(c.claimId, c.revision)
  }

  function FactKey(f: Fact): Rev {
    Rev(f.factId, f.revision)
  }

  /** The revision that a review decides on. */
  function ProposalKey(c: Claim): Rev {
    Rev(c.claimId, c.revision - 1)
  }

  predicate EvidenceKnown(db: Db, refs: seq<string>) {
    forall ref :: ref in refs ==> ref in db.evidenceRefs
  }

  function ClaimRowOf(c: Claim, at: int): ClaimRow {
    ClaimRow(if c.status == Proposed then c.statement.(proposedAt := at) else c.statement, c.status,
             c.review.(at := if c.status == Proposed then None else Some(at)), |c.evidenceRefs|)
  }

  predicate ClaimRowsAccepted(db: Db, c: Claim, at: int) {
    && ClaimKey(c) !in db.claimRevisions
    && Distinct(c.evidenceRefs) && ClaimRowChecks(ClaimKey(c), ClaimRowOf(c, at))
  }

  function WithClaimRows(db: Db, c: Claim, at: int): Db {
    db.(claimEvidence := Staged(db.claimEvidence, ClaimKey(c), c.evidenceRefs),
        claimRevisions := db.claimRevisions[ClaimKey(c) := ClaimRowOf(c, at)])
  }

  function Proposal(db: Db, c: Claim, entityRevision: int, at: int): Result<Db, StageError> {
    if c.revision != entityRevision then Err(RevisionMismatch)
    else if c.status != Proposed then Err(NotProposed)
    else if !EvidenceKnown(db, c.evidenceRefs) then Err(MissingEvidence)
    else if c.claimId in db.claims then Err(IdentityExists)
    else if c.revision != 1 then Err(FirstRevisionNotOne)
    else if !ClaimRowsAccepted(db, c, at) then Err(ConstraintViolated)
    else Ok(WithClaimRows(db.(claims := db.claims + {c.claimId}), c, at))
  }

  function Review(db: Db, c: Claim, entityRevision: int, at: int): Result<Db, StageError> {
    var proposal := ProposalKey(c);
    if c.revision != entityRevision then Err(RevisionMismatch)
    else if c.status == Proposed then Err(NotReviewed)
    else if c.review.kind != Some(User) && c.review.kind != Some(Rule) then Err(ReviewerKind)
    else if !EvidenceKnown(db, c.evidenceRefs) then Err(MissingEvidence)
    else if c.claimId !in db.claims then Err(NoIdentity)
    else if proposal !in db.claimRevisions || db.claimRevisions[proposal].status != Proposed then Err(MissingProposal)
    else if c.review.reviewer == Some(db.claimRevisions[proposal].statement.proposedBy) then Err(OwnProposal)
    else if !ClaimRowsAccepted(db, c, at) then Err(ConstraintViolated)
    else Ok(WithClaimRows(db, c, at))
  }

  function FactRowOf(f: Fact, at: int): FactRow {
    FactRow(f.subject, f.factType, f.value, f.authority, f.verifiedBy, f.source, |f.evidenceRefs|, at)
  }

  predicate CarriesClaim(db: Db, f: Fact)
    requires f.source in db.claimRevisions
  {
    var claim := db.claimRevisions[f.source].statement;
    && claim.claimType == f.factType && claim.value == f.value
    && InOrdinalOrder(db.claimEvidence, f.source) == f.evidenceRefs
  }

  predicate FactRowsAccepted(db: Db, f: Fact, at: int) {
    FactKey(f) !in db.factRevisions && FactRowChecks(FactKey(f), FactRowOf(f, at)) && Distinct(f.evidenceRefs)
  }

  function WithFactRows(db: Db, f: Fact, at: int): Db {
    db.(factEvidence := Staged(db.factEvidence, FactKey(f), f.evidenceRefs),
        factRevisions := db.factRevisions[FactKey(f) := FactRowOf(f, at)])
  }

  function Promotion(db: Db, f: Fact, entityRevision: int, at: int): Result<Db, StageError> {
    if f.revision != entityRevision then Err(RevisionMismatch)
    else if f.source !in db.claimRevisions || db.claimRevisions[f.source].status != Accepted then Err(NotAcceptedClaim)
    else if f.revision == 1 && !CarriesClaim(db, f) then Err(DifferentFromClaim)
    else if !EvidenceKnown(db, f.evidenceRefs) then Err(MissingEvidence)
    else if f.factId !in db.facts && f.revision != 1 then Err(FirstRevisionNotOne)
    else if f.factId in db.facts && db.facts[f.factId] != f.candidateId then Err(DifferentCandidate)
    else if !FactRowsAccepted(db, f, at) then Err(ConstraintViolated)
    else Ok(WithFactRows(db.(facts := db.facts[f.factId := f.candidateId]), f, at))
  }

  datatype Write =
    | WriteProposal(claim: Claim, entityRevision: int, at: int)
    | WriteReview(claim: Claim, entityRevision: int, at: int)
    | WritePromotion(fact: Fact, entityRevision: int, at: int)

  function Attempt(db: Db, w: Write): Result<Db, StageError> {
    match w
    case WriteProposal(c, r, at) => Proposal(db, c, r, at)
    case WriteReview(c, r, at) => Review(db, c, r, at)
    case WritePromotion(f, r, at) => Promotion(db, f, r, at)
  }

  /** A refused write is rolled back by the command that opened the transaction. */
  function Committed(db: Db, w: Write): Db {
    match Attempt(db, w)
    case Ok(later) => later
    case Err(_) => db
  }

  function History(db: Db, writes: seq<Write>): Db
    decreases |writes|
  {
    if writes == [] then db else History(Committed(db, writes[0]), writes[1..])
  }

  // ---- What every history keeps ----

  /** A claim is proposed once, as revision one, and decided at most once, as revision two, by a
      user or a rule; the proposer, when named there, is not the reviewer. */
  ghost predicate ReviewedOnce(db: Db, r: Rev)
    requires r in db.claimRevisions
  {
    var row, first := db.claimRevisions[r], Rev(r.id, 1);
    && first in db.claimRevisions
    && (r.revision == 1 <==> row.status == Proposed)
    && (r.revision != 1 ==>
          && r.revision == 2
          && (row.review.kind == Some(User) || row.review.kind == Some(Rule))
          && row.review.reviewer != Some(db.claimRevisions[first].statement.proposedBy))
  }

  /** A fact revision comes from an accepted claim, and a first one carries that claim. */
  ghost predicate PromotedFromAccepted(db: Db, r: Rev)
    requires r in db.factRevisions
  {
    var row := db.factRevisions[r];
    && row.source in db.claimRevisions
    && db.claimRevisions[row.source].status == Accepted
    && (r.revision == 1 ==>
          && row.factType == db.claimRevisions[row.source].statement.claimType
          && row.value == db.claimRevisions[row.source].statement.value
          && row.evidenceCount == db.claimRevisions[row.source].evidenceCount
          && SameValues(db.factEvidence, r, db.claimEvidence, row.source, row.evidenceCount))
  }

  ghost predicate SameValues(t: Children<Rev, string>, r: Rev, t': Children<Rev, string>, r': Rev, count: int) {
    forall i :: 0 <= i < count ==>
      ChildKey(r, i) in t && ChildKey(r', i) in t' && t[ChildKey(r, i)] == t'[ChildKey(r', i)]
  }

  ghost predicate Inv(db: Db) {
    && Sealed(db) && NoOrphans(db)
    && (forall id :: id in db.claims ==> Rev(id, 1) in db.claimRevisions)
    && (forall r {:trigger ReviewedOnce(db, r)} :: r in db.claimRevisions ==> ReviewedOnce(db, r))
    && (forall r {:trigger PromotedFromAccepted(db, r)} :: r in db.factRevisions ==> PromotedFromAccepted(db, r))
  }

  lemma ClaimRowsPreserve(db: Db, c: Claim, at: int, identity: set<string>)
    requires NoOrphans(db) && ClaimKey(c) !in db.claimRevisions && db.claims <= identity
    ensures var later := WithClaimRows(db.(claims := identity), c, at);
            Preserved(db, later) && NoOrphans(later)
  {
    StagedAdds(db.claimEvidence, ClaimKey(c), c.evidenceRefs);
  }

  lemma ClaimRowsStaySealed(db: Db, c: Claim, at: int, identity: set<string>, later: Db)
    requires ClaimsSealed(db.claims, db.claimRevisions, db.claimEvidence) && NoOrphans(db)
    requires ClaimRowsAccepted(db, c, at) && db.claims <= identity && c.claimId in identity
    requires later == WithClaimRows(db.(claims := identity), c, at)
    ensures ClaimsSealed(later.claims, later.claimRevisions, later.claimEvidence)
  {
    hide ClaimRowChecks;
    StagedAdds(db.claimEvidence, ClaimKey(c), c.evidenceRefs);
    StagedKeepsNoRepeats(db.claimEvidence, ClaimKey(c), c.evidenceRefs);
    hide NoOrphans, Staged, NoRepeats;
    forall r | r in db.claimRevisions
      ensures Contiguous(later.claimEvidence, r, db.claimRevisions[r].evidenceCount)
    {
      SameChildrenStayContiguous(db.claimEvidence, later.claimEvidence, r, db.claimRevisions[r].evidenceCount);
    }
  }

  lemma ClaimRowsKeep(db: Db, c: Claim, at: int, identity: set<string>)
    requires Sealed(db) && NoOrphans(db) && ClaimRowsAccepted(db, c, at)
    requires db.claims <= identity && c.claimId in identity
    ensures var later := WithClaimRows(db.(claims := identity), c, at);
            Sealed(later) && NoOrphans(later) && Preserved(db, later)
  {
    var later := WithClaimRows(db.(claims := identity), c, at);
    AcceptedKeyIsNew(db, c, at);
    hide ClaimRowsAccepted, ClaimsSealed, FactsSealed, Preserved, NoOrphans, Staged;
    ClaimRowsPreserve(db, c, at, identity);
    ClaimRowsStaySealed(db, c, at, identity, later);
  }

  lemma FactRowsPreserve(db: Db, f: Fact, at: int, identities: map<string, Option<string>>)
    requires NoOrphans(db) && FactKey(f) !in db.factRevisions
    requires forall id :: id in db.facts ==> id in identities && identities[id] == db.facts[id]
    ensures var later := WithFactRows(db.(facts := identities), f, at);
            Preserved(db, later) && NoOrphans(later)
  {
    StagedAdds(db.factEvidence, FactKey(f), f.evidenceRefs);
  }

  lemma FactRowsStaySealed(db: Db, f: Fact, at: int, identities: map<string, Option<string>>, later: Db)
    requires FactsSealed(db.facts.Keys, db.factRevisions, db.factEvidence) && NoOrphans(db)
    requires FactRowsAccepted(db, f, at) && db.facts.Keys <= identities.Keys && f.factId in identities
    requires later == WithFactRows(db.(facts := identities), f, at)
    ensures FactsSealed(later.facts.Keys, later.factRevisions, later.factEvidence)
  {
    hide FactRowChecks;
    StagedAdds(db.factEvidence, FactKey(f), f.evidenceRefs);
    StagedKeepsNoRepeats(db.factEvidence, FactKey(f), f.evidenceRefs);
    hide NoOrphans, Staged, NoRepeats;
    forall r | r in db.factRevisions
      ensures Contiguous(later.factEvidence, r, db.factRevisions[r].evidenceCount)
    {
      SameChildrenStayContiguous(db.factEvidence, later.factEvidence, r, db.factRevisions[r].evidenceCount);
    }
  }

  lemma FactRowsKeep(db: Db, f: Fact, at: int, identities: map<string, Option<string>>)
    requires Sealed(db) && NoOrphans(db) && FactRowsAccepted(db, f, at)
    requires f.factId in identities && f.source in db.claimRevisions
    requires forall id :: id in db.facts ==> id in identities && identities[id] == db.facts[id]
    ensures var later := WithFactRows(db.(facts := identities), f, at);
            Sealed(later) && NoOrphans(later) && Preserved(db, later)
  {
    var later := WithFactRows(db.(facts := identities), f, at);
    AcceptedFactKeyIsNew(db, f, at);
    hide FactRowsAccepted, ClaimsSealed, FactsSealed, Preserved, NoOrphans, Staged;
    FactRowsPreserve(db, f, at, identities);
    FactRowsStaySealed(db, f, at, identities, later);
  }

  lemma AcceptedFactKeyIsNew(db: Db, f: Fact, at: int)
    requires FactRowsAccepted(db, f, at)
    ensures FactKey(f) !in db.factRevisions
  {
  }

  /** Old facts keep their place in any database that preserves them. */
  lemma PreservedKeepsFacts(db: Db, later: Db, r: Rev)
    requires Inv(db) && Preserved(db, later) && r in db.factRevisions
    ensures PromotedFromAccepted(later, r)
  {
    hide NoOrphans, ReviewedOnce, ClaimRowChecks, FactRowChecks, NoRepeats;
    assert PromotedFromAccepted(db, r);
    assert SameChildren(db.factEvidence, later.factEvidence, r);
    assert SameChildren(db.claimEvidence, later.claimEvidence, db.factRevisions[r].source);
  }

  lemma ProposalMeans(db: Db, c: Claim, entityRevision: int, at: int)
    requires Proposal(db, c, entityRevision, at).Ok?
    ensures Proposal(db, c, entityRevision, at).value == WithClaimRows(db.(claims := db.claims + {c.claimId}), c, at)
    ensures c.status == Proposed && c.revision == 1 && c.claimId !in db.claims && ClaimRowsAccepted(db, c, at)
  {
  }

  lemma ReviewMeans(db: Db, c: Claim, entityRevision: int, at: int)
    requires Review(db, c, entityRevision, at).Ok?
    ensures Review(db, c, entityRevision, at).value == WithClaimRows(db.(claims := db.claims), c, at)
    ensures c.status != Proposed && (c.review.kind == Some(User) || c.review.kind == Some(Rule))
    ensures c.claimId in db.claims && ProposalKey(c) in db.claimRevisions
    ensures db.claimRevisions[ProposalKey(c)].status == Proposed
    ensures c.review.reviewer != Some(db.claimRevisions[ProposalKey(c)].statement.proposedBy)
    ensures ClaimRowsAccepted(db, c, at)
  {
    assert db.(claims := db.claims) == db;
  }

  lemma AddedClaimStaysReviewed(db: Db, later: Db, key: Rev, row: ClaimRow)
    requires forall r {:trigger ReviewedOnce(db, r)} :: r in db.claimRevisions ==> ReviewedOnce(db, r)
    requires key !in db.claimRevisions && later.claimRevisions == db.claimRevisions[key := row]
    requires ReviewedOnce(later, key)
    ensures forall r :: r in later.claimRevisions ==> ReviewedOnce(later, r)
  {
    forall r | r in later.claimRevisions
      ensures ReviewedOnce(later, r)
    {
      if r != key { assert ReviewedOnce(db, r); }
    }
  }

  lemma PreservedKeepsAllFacts(db: Db, later: Db)
    requires Inv(db) && Preserved(db, later) && later.factRevisions == db.factRevisions
    ensures forall r :: r in later.factRevisions ==> PromotedFromAccepted(later, r)
  {
    hide Inv, Preserved;
    forall r | r in later.factRevisions ensures PromotedFromAccepted(later, r) { PreservedKeepsFacts(db, later, r); }
  }

  /** A claim revision whose row is reviewed at most once keeps the invariant. */
  lemma ClaimRowsKeepInv(db: Db, c: Claim, at: int, identity: set<string>, later: Db)
    requires Inv(db) && ClaimRowsAccepted(db, c, at) && db.claims <= identity && c.claimId in identity
    requires later == WithClaimRows(db.(claims := identity), c, at) && ReviewedOnce(later, ClaimKey(c))
    requires forall id :: id in identity ==> Rev(id, 1) in later.claimRevisions
    ensures Inv(later) && Preserved(db, later)
  {
    hide Sealed, NoOrphans, Preserved, ClaimRowsAccepted, PromotedFromAccepted, ReviewedOnce, Staged;
    assert ClaimKey(c) !in db.claimRevisions by { AcceptedKeyIsNew(db, c, at); }
    ClaimRowsKeep(db, c, at, identity);
    PreservedKeepsAllFacts(db, later);
    AddedClaimStaysReviewed(db, later, ClaimKey(c), ClaimRowOf(c, at));
  }

  lemma AcceptedKeyIsNew(db: Db, c: Claim, at: int)
    requires ClaimRowsAccepted(db, c, at)
    ensures ClaimKey(c) !in db.claimRevisions
  {
  }

  lemma ProposalKeepsInv(db: Db, c: Claim, entityRevision: int, at: int)
    requires Inv(db) && Proposal(db, c, entityRevision, at).Ok?
    ensures Inv(Proposal(db, c, entityRevision, at).value)
    ensures Preserved(db, Proposal(db, c, entityRevision, at).value)
  {
    ProposalMeans(db, c, entityRevision, at);
    var later := Proposal(db, c, entityRevision, at).value;
    hide Proposal, Sealed, NoOrphans, Preserved, ClaimRowsAccepted, PromotedFromAccepted, Staged;
    ClaimRowsKeepInv(db, c, at, db.claims + {c.claimId}, later);
  }

  lemma ReviewIsTheSecondRevision(db: Db, c: Claim, at: int)
    requires ProposalKey(c) in db.claimRevisions && ReviewedOnce(db, ProposalKey(c))
    requires c.status != Proposed && (c.review.kind == Some(User) || c.review.kind == Some(Rule))
    requires db.claimRevisions[ProposalKey(c)].status == Proposed
    requires c.review.reviewer != Some(db.claimRevisions[ProposalKey(c)].statement.proposedBy)
    ensures c.revision == 2 && ReviewedOnce(WithClaimRows(db, c, at), ClaimKey(c))
  {
    hide Staged;
  }

  lemma ReviewKeepsInv(db: Db, c: Claim, entityRevision: int, at: int)
    requires Inv(db) && Review(db, c, entityRevision, at).Ok?
    ensures Inv(Review(db, c, entityRevision, at).value) && Preserved(db, Review(db, c, entityRevision, at).value)
    ensures c.revision == 2
  {
    ReviewMeans(db, c, entityRevision, at);
    var later := Review(db, c, entityRevision, at).value;
    hide Review, Sealed, NoOrphans, Preserved, ClaimRowsAccepted, PromotedFromAccepted, Staged, ReviewedOnce;
    assert ReviewedOnce(db, ProposalKey(c));
    assert db.(claims := db.claims) == db;
    ReviewIsTheSecondRevision(db, c, at);
    ClaimRowsKeepInv(db, c, at, db.claims, later);
  }

  lemma ClaimEvidenceIsContiguous(db: Db, claim: Rev)
    requires Sealed(db) && claim in db.claimRevisions
    ensures var refs, count := InOrdinalOrder(db.claimEvidence, claim), db.claimRevisions[claim].evidenceCount;
            && |refs| == count
            && forall i :: 0 <= i < count ==>
                 ChildKey(claim, i) in db.claimEvidence && refs[i] == db.claimEvidence[ChildKey(claim, i)]
  {
    ReadsIffContiguous(db.claimEvidence, claim, db.claimRevisions[claim].evidenceCount);
  }

  lemma NewFactIsPromoted(db: Db, f: Fact, at: int, later: Db)
    requires Inv(db) && FactKey(f) !in db.factRevisions
    requires f.source in db.claimRevisions && db.claimRevisions[f.source].status == Accepted
    requires f.revision == 1 ==> CarriesClaim(db, f)
    requires later == WithFactRows(db.(facts := db.facts[f.factId := f.candidateId]), f, at)
    ensures PromotedFromAccepted(later, FactKey(f))
  {
    if f.revision == 1 {
      ClaimEvidenceIsContiguous(db, f.source);
      forall i | 0 <= i < |f.evidenceRefs|
        ensures ChildKey(FactKey(f), i) in later.factEvidence
        ensures later.factEvidence[ChildKey(FactKey(f), i)] == f.evidenceRefs[i]
      {
        assert InList(ChildKey(FactKey(f), i), FactKey(f), f.evidenceRefs);
      }
    }
  }

  lemma SameClaimsStayReviewed(db: Db, later: Db)
    requires later.claimRevisions == db.claimRevisions
    requires forall r {:trigger ReviewedOnce(db, r)} :: r in db.claimRevisions ==> ReviewedOnce(db, r)
    ensures forall r :: r in later.claimRevisions ==> ReviewedOnce(later, r)
  {
    forall r | r in later.claimRevisions ensures ReviewedOnce(later, r) { assert ReviewedOnce(db, r); }
  }

  lemma PromotionMeans(db: Db, f: Fact, entityRevision: int, at: int)
    requires Promotion(db, f, entityRevision, at).Ok?
    ensures Promotion(db, f, entityRevision, at).value
              == WithFactRows(db.(facts := db.facts[f.factId := f.candidateId]), f, at)
    ensures FactRowsAccepted(db, f, at) && f.source in db.claimRevisions
    ensures db.claimRevisions[f.source].status == Accepted && (f.revision == 1 ==> CarriesClaim(db, f))
    ensures f.factId in db.facts ==> db.facts[f.factId] == f.candidateId
  {
  }

  lemma AllFactsPromoted(db: Db, later: Db, key: Rev)
    requires Inv(db) && Preserved(db, later) && later.factRevisions.Keys == db.factRevisions.Keys + {key}
    requires PromotedFromAccepted(later, key)
    ensures forall r :: r in later.factRevisions ==> PromotedFromAccepted(later, r)
  {
    hide Inv, Preserved, PromotedFromAccepted;
    forall r | r in later.factRevisions
      ensures PromotedFromAccepted(later, r)
    {
      if r != key { PreservedKeepsFacts(db, later, r); }
    }
  }

  lemma FactRowsKeepInv(db: Db, f: Fact, at: int, later: Db)
    requires Inv(db) && FactRowsAccepted(db, f, at) && f.source in db.claimRevisions
    requires f.factId in db.facts ==> db.facts[f.factId] == f.candidateId
    requires later == WithFactRows(db.(facts := db.facts[f.factId := f.candidateId]), f, at)
    requires PromotedFromAccepted(later, FactKey(f))
    ensures Inv(later) && Preserved(db, later)
  {
    hide Sealed, NoOrphans, PromotedFromAccepted, ReviewedOnce, Preserved, Staged, FactRowsAccepted;
    FactRowsKeep(db, f, at, db.facts[f.factId := f.candidateId]);
    AllFactsPromoted(db, later, FactKey(f));
    SameClaimsStayReviewed(db, later);
  }

  lemma PromotionKeepsInv(db: Db, f: Fact, entityRevision: int, at: int)
    requires Inv(db) && Promotion(db, f, entityRevision, at).Ok?
    ensures Inv(Promotion(db, f, entityRevision, at).value)
    ensures Preserved(db, Promotion(db, f, entityRevision, at).value)
  {
    PromotionMeans(db, f, entityRevision, at);
    var later := Promotion(db, f, entityRevision, at).value;
    hide Promotion, CarriesClaim, Inv, PromotedFromAccepted, Preserved, WithFactRows;
    NewFactIsPromoted(db, f, at, later);
    FactRowsKeepInv(db, f, at, later);
  }

  lemma AttemptKeepsInv(db: Db, w: Write, later: Db)
    requires Inv(db) && Attempt(db, w) == Ok(later)
    ensures Inv(later) && Preserved(db, later)
  {
    hide Inv, Preserved, Proposal, Review, Promotion;
    match w
    case WriteProposal(c, r, at) => ProposalKeepsInv(db, c, r, at);
    case WriteReview(c, r, at) => ReviewKeepsInv(db, c, r, at);
    case WritePromotion(f, r, at) => PromotionKeepsInv(db, f, r, at);
  }

  lemma CommittedKeepsInv(db: Db, w: Write)
    requires Inv(db)
    ensures Inv(Committed(db, w)) && Preserved(db, Committed(db, w))
  {
    hide Inv, Preserved, Attempt;
    NothingIsPreserved(db);
    match Attempt(db, w)
    case Ok(later) => AttemptKeepsInv(db, w, later);
    case Err(_) =>
  }

  /** Every history keeps claims reviewed at most once, facts promoted from accepted claims, and
      everything written before. */
  lemma {:induction false} HistoryKeepsInv(db: Db, writes: seq<Write>)
    requires Inv(db)
    ensures Inv(History(db, writes)) && Preserved(db, History(db, writes))
    decreases |writes|
  {
    if writes != [] {
      hide Inv, Preserved, Committed;
      var next := Committed(db, writes[0]);
      CommittedKeepsInv(db, writes[0]);
      HistoryKeepsInv(next, writes[1..]);
      PreservedIsTransitive(db, next, History(next, writes[1..]));
    } else {
      NothingIsPreserved(db);
    }
  }

  lemma NothingIsPreserved(db: Db)
    ensures Preserved(db, db)
  {
  }

  // ---- What a review may leave out ----

  /** What one would expect of a decision, and the writes do not insist on. */
  datatype Quality = NamesReviewer | GivesReason | KeepsStatement

  predicate RowHas(q: Quality, db: Db, r: Rev)
    requires r in db.claimRevisions && Rev(r.id, 1) in db.claimRevisions
  {
    var row, first := db.claimRevisions[r], Rev(r.id, 1);
    match q
    case NamesReviewer => row.review.reviewer.Some?
    case GivesReason => row.review.reason.Some?
    case KeepsStatement =>
      && row.statement == db.claimRevisions[first].statement
      && InOrdinalOrder(db.claimEvidence, r) == InOrdinalOrder(db.claimEvidence, first)
  }

  /** The same, asked of a review before it is written. */
  predicate CallHas(q: Quality, db: Db, c: Claim) {
    match q
    case NamesReviewer => c.review.reviewer.Some?
    case GivesReason => c.review.reason.Some?
    case KeepsStatement =>
      && ProposalKey(c) in db.claimRevisions && c.statement == db.claimRevisions[ProposalKey(c)].statement
      && c.evidenceRefs == InOrdinalOrder(db.claimEvidence, ProposalKey(c))
  }

  ghost predicate DecisionsHave(q: Quality, db: Db) {
    forall r :: r in db.claimRevisions && r.revision != 1 ==> Rev(r.id, 1) in db.claimRevisions && RowHas(q, db, r)
  }

  lemma SameRowHas(q: Quality, db: Db, later: Db, r: Rev)
    requires Preserved(db, later) && r in db.claimRevisions && Rev(r.id, 1) in db.claimRevisions
    ensures RowHas(q, later, r) <==> RowHas(q, db, r)
  {
    SameListIsRead(db, later, r);
    SameListIsRead(db, later, Rev(r.id, 1));
  }

  lemma SameListIsRead(db: Db, later: Db, r: Rev)
    requires SameChildren(db.claimEvidence, later.claimEvidence, r)
    ensures InOrdinalOrder(later.claimEvidence, r) == InOrdinalOrder(db.claimEvidence, r)
  {
    SameChildrenReadTheSame(db.claimEvidence, later.claimEvidence, r, |Ordinals(db.claimEvidence, r)|);
    var ordinals := InOrder(Ordinals(db.claimEvidence, r));
    forall i | i in ordinals
      ensures ChildKey(r, i) in db.claimEvidence && ChildKey(r, i) in later.claimEvidence
    {
      OrdinalsAre(db.claimEvidence, r, i);
    }
    assert ValuesAt(db.claimEvidence, r, ordinals) == ValuesAt(later.claimEvidence, r, ordinals);
  }

  lemma NewDecisionHas(q: Quality, db: Db, c: Claim, at: int, later: Db)
    requires NoOrphans(db) && ClaimKey(c) !in db.claimRevisions && c.revision == 2
    requires ProposalKey(c) in db.claimRevisions && c.status != Proposed
    requires later == WithClaimRows(db, c, at)
    ensures RowHas(q, later, ClaimKey(c)) <==> CallHas(q, db, c)
  {
    StagedHolds(db.claimEvidence, ClaimKey(c), c.evidenceRefs);
    HeldListIsRead(later.claimEvidence, ClaimKey(c), c.evidenceRefs);
    assert SameChildren(db.claimEvidence, later.claimEvidence, ProposalKey(c));
    SameListIsRead(db, later, ProposalKey(c));
    hide Holds, InOrdinalOrder, SameChildren, NoOrphans;
  }

  lemma OldDecisionHas(q: Quality, db: Db, later: Db, r: Rev)
    requires Inv(db) && Preserved(db, later) && r in db.claimRevisions
    ensures Rev(r.id, 1) in db.claimRevisions && Rev(r.id, 1) in later.claimRevisions && r in later.claimRevisions
    ensures RowHas(q, later, r) <==> RowHas(q, db, r)
  {
    hide Sealed, NoOrphans, RowHas, SameChildren, PromotedFromAccepted;
    assert ReviewedOnce(db, r);
    SameRowHas(q, db, later, r);
  }

  /** The decisions that were there keep what they have. */
  lemma OldDecisionsHaveIff(q: Quality, db: Db, later: Db)
    requires Inv(db) && Preserved(db, later)
    ensures forall r :: r in db.claimRevisions ==>
              && r in later.claimRevisions && Rev(r.id, 1) in later.claimRevisions && Rev(r.id, 1) in db.claimRevisions
              && (RowHas(q, later, r) <==> RowHas(q, db, r))
  {
    hide Inv, Preserved, RowHas;
    forall r | r in db.claimRevisions
      ensures Rev(r.id, 1) in db.claimRevisions && Rev(r.id, 1) in later.claimRevisions && r in later.claimRevisions
      ensures RowHas(q, later, r) <==> RowHas(q, db, r)
    {
      OldDecisionHas(q, db, later, r);
    }
  }

  lemma AddedDecisionHasIff(q: Quality, db: Db, later: Db, key: Rev, has: bool)
    requires Inv(db) && Preserved(db, later) && key.revision != 1 && Rev(key.id, 1) in db.claimRevisions
    requires later.claimRevisions.Keys == db.claimRevisions.Keys + {key} && key !in db.claimRevisions
    requires Rev(key.id, 1) in later.claimRevisions && (RowHas(q, later, key) <==> has)
    ensures DecisionsHave(q, later) <==> DecisionsHave(q, db) && has
  {
    hide Inv, Preserved, RowHas;
    OldDecisionsHaveIff(q, db, later);
  }

  lemma ReviewedRowsHaveIff(q: Quality, db: Db, c: Claim, at: int, later: Db)
    requires Inv(db) && Preserved(db, later) && later == WithClaimRows(db, c, at) && c.revision == 2
    requires ClaimKey(c) !in db.claimRevisions && ProposalKey(c) in db.claimRevisions && c.status != Proposed
    ensures DecisionsHave(q, later) <==> DecisionsHave(q, db) && CallHas(q, db, c)
  {
    NewDecisionHas(q, db, c, at, later);
    hide Inv, RowHas, CallHas, Preserved, Staged, DecisionsHave;
    AddedDecisionHasIff(q, db, later, ClaimKey(c), CallHas(q, db, c));
  }

  /** A review that succeeds has the quality if and only if its call has it. */
  lemma ReviewHasIff(q: Quality, db: Db, c: Claim, entityRevision: int, at: int)
    requires Inv(db) && Review(db, c, entityRevision, at).Ok?
    ensures DecisionsHave(q, Review(db, c, entityRevision, at).value) <==> DecisionsHave(q, db) && CallHas(q, db, c)
  {
    ReviewKeepsInv(db, c, entityRevision, at);
    ReviewMeans(db, c, entityRevision, at);
    AcceptedKeyIsNew(db, c, at);
    assert db.(claims := db.claims) == db;
    hide Inv, Review, CallHas, Preserved, WithClaimRows, ClaimRowsAccepted, DecisionsHave;
    ReviewedRowsHaveIff(q, db, c, at, Review(db, c, entityRevision, at).value);
  }

  /** A write of another kind decides nothing. */
  lemma OtherWritesDecideNothing(q: Quality, db: Db, later: Db)
    requires Inv(db) && Preserved(db, later)
    requires forall r :: r in later.claimRevisions && r.revision != 1 ==> r in db.claimRevisions
    ensures DecisionsHave(q, later) <==> DecisionsHave(q, db)
  {
    hide Inv, Preserved, RowHas;
    OldDecisionsHaveIff(q, db, later);
  }

  lemma CommittedHasIff(q: Quality, db: Db, w: Write)
    requires Inv(db)
    ensures DecisionsHave(q, Committed(db, w)) <==>
              DecisionsHave(q, db) && (w.WriteReview? && Attempt(db, w).Ok? ==> CallHas(q, db, w.claim))
  {
    hide Inv, Preserved, DecisionsHave, CallHas, Proposal, Review, Promotion, Staged;
    CommittedKeepsInv(db, w);
    match w
    case WriteReview(c, r, at) => if Attempt(db, w).Ok? { ReviewHasIff(q, db, c, r, at); }
    case WriteProposal(c, r, at) =>
      if Attempt(db, w).Ok? {
        ProposalMeans(db, c, r, at);
        OtherWritesDecideNothing(q, db, Committed(db, w));
      }
    case WritePromotion(f, r, at) =>
      if Attempt(db, w).Ok? {
        PromotionMeans(db, f, r, at);
        OtherWritesDecideNothing(q, db, Committed(db, w));
      }
  }

  /** Every review that the history commits has the quality. */
  predicate CommittedReviewsHave(q: Quality, db: Db, writes: seq<Write>)
    decreases |writes|
  {
    writes != [] ==>
      && (writes[0].WriteReview? && Attempt(db, writes[0]).Ok? ==> CallHas(q, db, writes[0].claim))
      && CommittedReviewsHave(q, Committed(db, writes[0]), writes[1..])
  }

  /** Over every history: all decisions name their reviewer, give a reason, or keep what was
      proposed, if and only if every review that was committed did. */
  lemma {:induction false} HistoryHasIff(q: Quality, db: Db, writes: seq<Write>)
    requires Inv(db)
    ensures DecisionsHave(q, History(db, writes)) <==> DecisionsHave(q, db) && CommittedReviewsHave(q, db, writes)
    decreases |writes|
  {
    if writes != [] {
      hide Inv, DecisionsHave, Committed, Attempt, CallHas;
      CommittedKeepsInv(db, writes[0]);
      CommittedHasIff(q, db, writes[0]);
      HistoryHasIff(q, Committed(db, writes[0]), writes[1..]);
    }
  }

  ghost predicate DecidedBySomeoneElse(db: Db) {
    forall r :: r in db.claimRevisions && db.claimRevisions[r].status != Proposed ==>
      && Rev(r.id, 1) in db.claimRevisions && db.claimRevisions[r].review.reviewer.Some?
      && db.claimRevisions[r].review.reviewer.value != db.claimRevisions[Rev(r.id, 1)].statement.proposedBy
  }

  lemma NamedMeansSomeoneElse(db: Db)
    requires Inv(db)
    ensures DecidedBySomeoneElse(db) <==> DecisionsHave(NamesReviewer, db)
  {
    hide Sealed, NoOrphans, PromotedFromAccepted;
    assert forall r :: r in db.claimRevisions ==> ReviewedOnce(db, r);
  }

  /** In every reachable database each decision was taken by someone other than the proposer if and
      only if every review that was committed names its reviewer. */
  lemma DecidedBySomeoneElseIff(evidenceRefs: set<string>, writes: seq<Write>)
    ensures DecidedBySomeoneElse(History(Empty(evidenceRefs), writes)) <==>
              CommittedReviewsHave(NamesReviewer, Empty(evidenceRefs), writes)
  {
    EmptyIsInv(evidenceRefs);
    hide Inv, DecidedBySomeoneElse, History, CommittedReviewsHave, Empty, RowHas;
    HistoryKeepsInv(Empty(evidenceRefs), writes);
    HistoryHasIff(NamesReviewer, Empty(evidenceRefs), writes);
    NamedMeansSomeoneElse(History(Empty(evidenceRefs), writes));
  }

  // ---- What a promotion may change ----

  /** A first fact is about the entity that its claim is about. */
  ghost predicate SubjectsKept(db: Db) {
    forall r :: r in db.factRevisions && r.revision == 1 ==>
      && db.factRevisions[r].source in db.claimRevisions
      && db.factRevisions[r].subject == db.claimRevisions[db.factRevisions[r].source].statement.subject
  }

  predicate KeepsSubject(db: Db, f: Fact) {
    f.revision == 1 ==>
      f.source in db.claimRevisions && f.subject == db.claimRevisions[f.source].statement.subject
  }

  lemma SameFactsSameSubjects(db: Db, later: Db)
    requires Inv(db) && Preserved(db, later) && later.factRevisions == db.factRevisions
    ensures SubjectsKept(later) <==> SubjectsKept(db)
  {
    hide Sealed, NoOrphans, ReviewedOnce;
    forall r | r in db.factRevisions
      ensures db.factRevisions[r].source in db.claimRevisions
    {
      assert PromotedFromAccepted(db, r);
    }
  }

  lemma PromotedSubjects(db: Db, f: Fact, at: int, later: Db)
    requires FactKey(f) !in db.factRevisions && f.source in db.claimRevisions
    requires later.claimRevisions == db.claimRevisions
    requires later.factRevisions == db.factRevisions[FactKey(f) := FactRowOf(f, at)]
    ensures SubjectsKept(later) <==> SubjectsKept(db) && KeepsSubject(db, f)
  {
    assert later.factRevisions[FactKey(f)].subject == f.subject;
    assert forall r :: r in db.factRevisions ==> later.factRevisions[r] == db.factRevisions[r];
  }

  lemma CommittedKeepsSubjectsIff(db: Db, w: Write)
    requires Inv(db)
    ensures SubjectsKept(Committed(db, w)) <==>
              SubjectsKept(db) && (w.WritePromotion? && Attempt(db, w).Ok? ==> KeepsSubject(db, w.fact))
  {
    hide Inv, Preserved, SubjectsKept, Proposal, Review, Promotion, Staged, KeepsSubject;
    CommittedKeepsInv(db, w);
    if Attempt(db, w).Ok? {
      match w
      case WriteProposal(c, r, at) =>
        ProposalMeans(db, c, r, at);
        SameFactsSameSubjects(db, Committed(db, w));
      case WriteReview(c, r, at) =>
        ReviewMeans(db, c, r, at);
        SameFactsSameSubjects(db, Committed(db, w));
      case WritePromotion(f, r, at) =>
        PromotionMeans(db, f, r, at);
        PromotedSubjects(db, f, at, Committed(db, w));
    }
  }

  predicate CommittedPromotionsKeepSubject(db: Db, writes: seq<Write>)
    decreases |writes|
  {
    writes != [] ==>
      && (writes[0].WritePromotion? && Attempt(db, writes[0]).Ok? ==> KeepsSubject(db, writes[0].fact))
      && CommittedPromotionsKeepSubject(Committed(db, writes[0]), writes[1..])
  }

  /** Promotion compares type, value and evidence with the claim, not the subject: over every history
      first facts are about what their claims are about if and only if every committed promotion is. */
  lemma {:induction false} HistoryKeepsSubjectsIff(db: Db, writes: seq<Write>)
    requires Inv(db)
    ensures SubjectsKept(History(db, writes)) <==> SubjectsKept(db) && CommittedPromotionsKeepSubject(db, writes)
    decreases |writes|
  {
    if writes != [] {
      hide Inv, SubjectsKept, Committed, Attempt, KeepsSubject;
      CommittedKeepsInv(db, writes[0]);
      CommittedKeepsSubjectsIff(db, writes[0]);
      HistoryKeepsSubjectsIff(Committed(db, writes[0]), writes[1..]);
    }
  }

  lemma EmptyIsInv(evidenceRefs: set<string>)
    ensures Inv(Empty(evidenceRefs)) && forall q :: DecisionsHave(q, Empty(evidenceRefs))
  {
  }

  // ---- Reviews that the writes and the tables let through ----

  function ProposedClaim(): Claim {
    Claim("claim_1", 1, Statement(1, "skill", Subject("job_1", "job"), "v", "parser", "1", 1.0, "importer", Agent, 0),
          ["evidence_1"],
          Proposed, ReviewColumns(None, None, None, None))
  }

  /** Accepted by nobody, for no reason. */
  function UnsignedReview(): Claim {
    ProposedClaim().(revision := 2, status := Accepted, review := ReviewColumns(None, Some(User), None, None))
  }

  /** Signed, but not of what was proposed. */
  function AlteredReview(): Claim {
    ProposedClaim().(revision := 2, status := Accepted, statement := ProposedClaim().statement.(value := "w"),
                     review := ReviewColumns(Some("user"), Some(User), Some("checked"), None))
  }

  lemma WitnessTextsAreNotBlank()
    ensures StatementChecks(ProposedClaim().statement) && StatementChecks(AlteredReview().statement)
    ensures NonBlank("user") && NonBlank("checked") && NonBlank("skill")
  {
    var s := ProposedClaim().statement;
    assert s.claimType[0] in s.claimType && s.extractor[0] in s.extractor;
    assert s.extractorVersion[0] in s.extractorVersion && s.proposedBy[0] in s.proposedBy;
    assert "user"[0] in "user" && "checked"[0] in "checked" && "skill"[0] in "skill";
  }

  lemma ProposedClaimIsAccepted()
    ensures Proposal(Empty({"evidence_1"}), ProposedClaim(), 1, 0)
              == Ok(WithClaimRows(Empty({"evidence_1"}).(claims := {"claim_1"}), ProposedClaim(), 0))
  {
    WitnessTextsAreNotBlank();
    ReviewCheckOfProposed(ProposedClaim().review);
    var db := Empty({"evidence_1"});
    assert db.claims + {"claim_1"} == {"claim_1"};
    hide StatementChecks, ReviewCheck, Staged;
  }

  lemma ReviewOfWitnessIsAccepted(c: Claim)
    requires c == UnsignedReview() || c == AlteredReview()
    ensures var db := WithClaimRows(Empty({"evidence_1"}).(claims := {"claim_1"}), ProposedClaim(), 0);
            Review(db, c, 2, 1) == Ok(WithClaimRows(db, c, 1))
  {
    WitnessTextsAreNotBlank();
    ReviewCheckOfDecided(ClaimRowOf(c, 1).review);
    hide StatementChecks, ReviewCheck, Staged, NonBlank;
  }

  lemma TwoWrites(db: Db, first: Write, second: Write)
    ensures History(db, [first, second]) == Committed(Committed(db, first), second)
  {
    var next := Committed(db, first);
    assert [first, second][1..] == [second] && [second][1..] == [];
    assert History(next, [second]) == History(Committed(next, second), []);
  }

  /** Two writes after which an accepted claim names neither a reviewer nor a reason. */
  lemma ReviewWithoutReviewerIsAccepted()
    ensures var db :=
              History(Empty({"evidence_1"}),
                      [WriteProposal(ProposedClaim(), 1, 0), WriteReview(UnsignedReview(), 2, 1)]);
            && Rev("claim_1", 2) in db.claimRevisions && db.claimRevisions[Rev("claim_1", 2)].status == Accepted
            && db.claimRevisions[Rev("claim_1", 2)].review == ReviewColumns(None, Some(User), None, Some(1))
  {
    ProposedClaimIsAccepted();
    ReviewOfWitnessIsAccepted(UnsignedReview());
    hide History, Proposal, Review, Staged;
    TwoWrites(Empty({"evidence_1"}), WriteProposal(ProposedClaim(), 1, 0), WriteReview(UnsignedReview(), 2, 1));
  }

  /** Two writes after which the accepted claim says another thing than the proposed one. */
  lemma ReviewMayAlterTheClaim()
    ensures var db :=
              History(Empty({"evidence_1"}),
                      [WriteProposal(ProposedClaim(), 1, 0), WriteReview(AlteredReview(), 2, 1)]);
            && Rev("claim_1", 1) in db.claimRevisions && db.claimRevisions[Rev("claim_1", 1)].statement.value == "v"
            && Rev("claim_1", 2) in db.claimRevisions && db.claimRevisions[Rev("claim_1", 2)].status == Accepted
            && db.claimRevisions[Rev("claim_1", 2)].statement.value == "w"
  {
    ProposedClaimIsAccepted();
    ReviewOfWitnessIsAccepted(AlteredReview());
    hide History, Proposal, Review, Staged;
    TwoWrites(Empty({"evidence_1"}), WriteProposal(ProposedClaim(), 1, 0), WriteReview(AlteredReview(), 2, 1));
  }

  /** Promoted from the altered claim, and about another entity. */
  function MovedFact(): Fact {
    Fact("fact_1", 1, Subject("job_2", "job"), "skill", "w", DocumentSupported, ["evidence_1"], "user",
         Rev("claim_1", 2), None)
  }

  function ReviewedTables(): Db {
    WithClaimRows(WithClaimRows(Empty({"evidence_1"}).(claims := {"claim_1"}), ProposedClaim(), 0), AlteredReview(), 1)
  }

  lemma ReviewedEvidence()
    ensures InOrdinalOrder(ReviewedTables().claimEvidence, Rev("claim_1", 2)) == ["evidence_1"]
  {
    var before := WithClaimRows(Empty({"evidence_1"}).(claims := {"claim_1"}), ProposedClaim(), 0);
    assert forall k :: k in before.claimEvidence ==> k.owner == Rev("claim_1", 1);
    StagedHolds(before.claimEvidence, Rev("claim_1", 2), ["evidence_1"]);
    HeldListIsRead(ReviewedTables().claimEvidence, Rev("claim_1", 2), ["evidence_1"]);
    hide InOrdinalOrder, Holds, Staged;
  }

  lemma MovedFactIsAccepted()
    ensures Promotion(ReviewedTables(), MovedFact(), 1, 2).Ok?
  {
    hide InOrdinalOrder, Holds, Staged, NonBlank;
    ReviewedEvidence();
    WitnessTextsAreNotBlank();
    assert NonBlank(MovedFact().factType);
  }

  /** Three writes after which a first fact is about another entity than its claim. */
  lemma PromotionMayChangeTheSubject()
    ensures var db := History(Empty({"evidence_1"}), [WriteProposal(ProposedClaim(), 1, 0),
                                                      WriteReview(AlteredReview(), 2, 1),
                                                      WritePromotion(MovedFact(), 1, 2)]);
            && Rev("fact_1", 1) in db.factRevisions && db.factRevisions[Rev("fact_1", 1)].source == Rev("claim_1", 2)
            && Rev("claim_1", 2) in db.claimRevisions
            && db.factRevisions[Rev("fact_1", 1)].subject.entityId == "job_2"
            && db.claimRevisions[Rev("claim_1", 2)].statement.subject.entityId == "job_1"
  {
    ProposedClaimIsAccepted();
    ReviewOfWitnessIsAccepted(AlteredReview());
    MovedFactIsAccepted();
    PromotionMeans(ReviewedTables(), MovedFact(), 1, 2);
    hide History, Proposal, Review, Promotion, Staged;
    var first, second := WriteProposal(ProposedClaim(), 1, 0), WriteReview(AlteredReview(), 2, 1);
    ThreeWrites(Empty({"evidence_1"}), first, second, WritePromotion(MovedFact(), 1, 2));
  }

  lemma ThreeWrites(db: Db, first: Write, second: Write, third: Write)
    ensures History(db, [first, second, third]) == Committed(Committed(Committed(db, first), second), third)
  {
    hide Committed;
    TwoWrites(Committed(db, first), second, third);
    assert [first, second, third][1..] == [second, third];
  }

  // ---- What the readers answer ----

  lemma SameValuesReadTheSame(t: Children<Rev, string>, r: Rev, t': Children<Rev, string>, r': Rev, count: nat)
    requires Contiguous(t, r, count) && Contiguous(t', r', count) && SameValues(t, r, t', r', count)
    ensures InOrdinalOrder(t, r) == InOrdinalOrder(t', r')
  {
    var values := seq(count, i requires 0 <= i < count => t[ChildKey(r, i)]);
    assert Holds(t, r, values) && Holds(t', r', values);
    HeldListIsRead(t, r, values);
    HeldListIsRead(t', r', values);
  }

  lemma FactReadsBack(db: Db, r: Rev)
    requires Inv(db) && r in db.factRevisions
    ensures db.factRevisions[r].source in db.claimRevisions && db.factRevisions[r].source.revision == 2
    ensures r.revision == 1 ==>
              InOrdinalOrder(db.factEvidence, r) == InOrdinalOrder(db.claimEvidence, db.factRevisions[r].source)
  {
    hide InOrdinalOrder, SameValues, Contiguous, ClaimRowChecks, NoRepeats, NonNegative, NoOrphans;
    var row := db.factRevisions[r];
    assert PromotedFromAccepted(db, r) && ReviewedOnce(db, row.source);
    assert FactRowChecks(r, row);
    if r.revision == 1 {
      SameValuesReadTheSame(db.factEvidence, r, db.claimEvidence, row.source, row.evidenceCount);
    }
  }

  /** The records are validated before they are staged. */
  predicate ValidInput(w: Write) {
    match w
    case WriteProposal(c, _, _) => ValidClaim(c)
    case WriteReview(c, _, _) => ValidClaim(c)
    case WritePromotion(f, _, _) => ValidFact(f)
  }

  ghost predicate AllReadable(db: Db) {
    && (forall r :: r in db.claimRevisions ==> ClaimIsReadable(db, r))
    && (forall r :: r in db.factRevisions ==> FactIsReadable(db, r))
  }

  /** A later database reads the old rows as they were read, so only the new row matters. */
  lemma ReadableStays(db: Db, later: Db)
    requires Preserved(db, later) && AllReadable(db)
    ensures forall r :: r in db.claimRevisions ==> r in later.claimRevisions && ClaimIsReadable(later, r)
    ensures forall r :: r in db.factRevisions ==> r in later.factRevisions && FactIsReadable(later, r)
  {
    hide OpaqueId, ReadableClaim, ReadableFact;
  }

  lemma ClaimRowIsReadable(db: Db, c: Claim, at: int, identity: set<string>)
    requires ValidClaim(c) && NoOrphans(db) && ClaimKey(c) !in db.claimRevisions
    ensures ClaimIsReadable(WithClaimRows(db.(claims := identity), c, at), ClaimKey(c))
  {
    StagedIsNamedIff(db.claimEvidence, ClaimKey(c), c.evidenceRefs);
    hide Named, Staged, OpaqueId, ENTITY_KINDS;
  }

  lemma FactRowIsReadable(db: Db, f: Fact, at: int, identities: map<string, Option<string>>)
    requires ValidFact(f) && NoOrphans(db) && FactKey(f) !in db.factRevisions
    requires f.factId in identities && identities[f.factId] == f.candidateId
    ensures FactIsReadable(WithFactRows(db.(facts := identities), f, at), FactKey(f))
  {
    StagedIsNamedIff(db.factEvidence, FactKey(f), f.evidenceRefs);
    hide Named, Staged, OpaqueId, ENTITY_KINDS;
  }

  lemma AddedClaimKeepsReadable(db: Db, c: Claim, at: int, identity: set<string>, later: Db)
    requires NoOrphans(db) && ClaimRowsAccepted(db, c, at) && ValidClaim(c) && AllReadable(db)
    requires later == WithClaimRows(db.(claims := identity), c, at) && Preserved(db, later)
    ensures AllReadable(later)
  {
    AcceptedKeyIsNew(db, c, at);
    ClaimRowIsReadable(db, c, at, identity);
    ReadableStays(db, later);
    hide ClaimIsReadable, FactIsReadable, Preserved, NoOrphans, ClaimRowsAccepted, ValidClaim, Staged;
  }

  lemma AddedFactKeepsReadable(db: Db, f: Fact, at: int, identities: map<string, Option<string>>, later: Db)
    requires NoOrphans(db) && FactRowsAccepted(db, f, at) && ValidFact(f) && AllReadable(db)
    requires f.factId in identities && identities[f.factId] == f.candidateId
    requires later == WithFactRows(db.(facts := identities), f, at) && Preserved(db, later)
    ensures AllReadable(later)
  {
    AcceptedFactKeyIsNew(db, f, at);
    FactRowIsReadable(db, f, at, identities);
    ReadableStays(db, later);
    hide ClaimIsReadable, FactIsReadable, Preserved, NoOrphans, FactRowsAccepted, ValidFact, Staged;
  }

  lemma CommittedKeepsReadable(db: Db, w: Write)
    requires Inv(db) && AllReadable(db) && ValidInput(w)
    ensures AllReadable(Committed(db, w)) && Inv(Committed(db, w))
  {
    InvMeans(db);
    CommittedKeepsInv(db, w);
    hide Inv, NoOrphans, Sealed, Preserved, AllReadable, ValidClaim, ValidFact, Proposal, Review, Promotion;
    hide WithClaimRows, WithFactRows, ClaimRowsAccepted, FactRowsAccepted;
    if Attempt(db, w).Ok? {
      match w
      case WriteProposal(c, r, at) =>
        ProposalMeans(db, c, r, at);
        AddedClaimKeepsReadable(db, c, at, db.claims + {c.claimId}, Committed(db, w));
      case WriteReview(c, r, at) =>
        ReviewMeans(db, c, r, at);
        AddedClaimKeepsReadable(db, c, at, db.claims, Committed(db, w));
      case WritePromotion(f, r, at) =>
        PromotionMeans(db, f, r, at);
        AddedFactKeepsReadable(db, f, at, db.facts[f.factId := f.candidateId], Committed(db, w));
    }
  }

  lemma {:induction false} HistoryKeepsReadable(db: Db, writes: seq<Write>)
    requires Inv(db) && AllReadable(db) && forall w :: w in writes ==> ValidInput(w)
    ensures AllReadable(History(db, writes))
    decreases |writes|
  {
    if writes != [] {
      hide Inv, AllReadable, ValidInput, Committed;
      CommittedKeepsReadable(db, writes[0]);
      HistoryKeepsReadable(Committed(db, writes[0]), writes[1..]);
    }
  }

  /** Where valid records are all that is staged, no reader ever raises, a fact's source was decided
      at revision two, and a first fact reads back the evidence list of its claim. */
  lemma StagedRecordsAreAlwaysRead(evidenceRefs: set<string>, writes: seq<Write>)
    requires forall w :: w in writes ==> ValidInput(w)
    ensures var db := History(Empty(evidenceRefs), writes);
            && (forall r :: r in db.claimRevisions ==> ToClaim(db, r).Ok?)
            && (forall r :: r in db.factRevisions ==> FactAgreesWithClaim(db, r))
  {
    var db := History(Empty(evidenceRefs), writes);
    EmptyIsInv(evidenceRefs);
    assert AllReadable(Empty(evidenceRefs));
    HistoryKeepsInv(Empty(evidenceRefs), writes);
    HistoryKeepsReadable(Empty(evidenceRefs), writes);
    hide History, Empty, ValidInput, FactAgreesWithClaim, ToClaim, Sealed, NoOrphans, ClaimIsReadable, FactIsReadable;
    forall r | r in db.claimRevisions ensures ToClaim(db, r).Ok? { ClaimIsReadIffReadable(db, r); }
    forall r | r in db.factRevisions ensures FactAgreesWithClaim(db, r) { ReadableFactAgrees(db, r); }
  }

  ghost predicate FactAgreesWithClaim(db: Db, r: Rev)
    requires r in db.factRevisions
  {
    var source := db.factRevisions[r].source;
    && ToFact(db, r).Ok? && source in db.claimRevisions && source.revision == 2 && ToClaim(db, source).Ok?
    && (r.revision == 1 ==> ToFact(db, r).value.evidenceRefs == ToClaim(db, source).value.evidenceRefs)
  }

  lemma ReadableFactAgrees(db: Db, r: Rev)
    requires Inv(db) && AllReadable(db) && r in db.factRevisions
    ensures FactAgreesWithClaim(db, r)
  {
    FactReadsBack(db, r);
    FactIsReadIffReadable(db, r);
    ClaimIsReadIffReadable(db, db.factRevisions[r].source);
  }

  lemma InvMeans(db: Db)
    requires Inv(db)
    ensures Sealed(db) && NoOrphans(db)
  {
  }

  lemma NewIdentityKeeps(db: Db, f: Fact)
    requires Sealed(db) && NoOrphans(db) && f.factId !in db.facts
    ensures var later := db.(facts := db.facts[f.factId := f.candidateId]);
            Sealed(later) && NoOrphans(later)
  {
    hide Contiguous, ClaimRowChecks, FactRowChecks;
  }

  lemma SameRowsAccepted(db: Db, later: Db, f: Fact, at: int)
    requires later == db.(facts := later.facts)
    ensures FactRowsAccepted(later, f, at) <==> FactRowsAccepted(db, f, at)
  {
  }

  // ---- The writes as they run in a session ----

  class Session {
    var db: Db

    constructor (db: Db)
      ensures this.db == db
    {
      this.db := db;
    }

    method StageClaimRows(c: Claim, at: int) returns (ok: bool)
      requires Sealed(db) && NoOrphans(db) && c.claimId in db.claims
      modifies this
      ensures ok == ClaimRowsAccepted(old(db), c, at)
      ensures ok ==> db == WithClaimRows(old(db), c, at)
    {
      var owner, row := ClaimKey(c), ClaimRowOf(c, at);
      var added, rows := StageChildren(db.claimEvidence, db.claimRevisions.Keys, owner, c.evidenceRefs);
      if !added { return false; }
      db := db.(claimEvidence := rows);
      SealAfterStaging(old(db.claimEvidence), db.claimRevisions.Keys, owner, c.evidenceRefs);
      ok := AcceptsClaimRevision(db, owner, row);
      if ok { db := db.(claimRevisions := db.claimRevisions[owner := row]); }
    }

    method StageProposal(c: Claim, entityRevision: int, at: int) returns (r: Result<(), StageError>)
      requires Inv(db)
      modifies this
      ensures match Proposal(old(db), c, entityRevision, at)
              case Ok(staged) => r == Ok(()) && db == staged && Inv(db)
              case Err(e) => r == Err(e)
    {
      if Proposal(db, c, entityRevision, at).Ok? { ProposalKeepsInv(db, c, entityRevision, at); }
      if c.revision != entityRevision { return Err(RevisionMismatch); }
      if c.status != Proposed { return Err(NotProposed); }
      if !EvidenceKnown(db, c.evidenceRefs) { return Err(MissingEvidence); }
      if c.claimId in db.claims { return Err(IdentityExists); }
      if c.revision != 1 { return Err(FirstRevisionNotOne); }
      db := db.(claims := db.claims + {c.claimId});
      var ok := StageClaimRows(c, at);
      r := if ok then Ok(()) else Err(ConstraintViolated);
    }

    method StageReview(c: Claim, entityRevision: int, at: int) returns (r: Result<(), StageError>)
      requires Inv(db)
      modifies this
      ensures match Review(old(db), c, entityRevision, at)
              case Ok(staged) => r == Ok(()) && db == staged && Inv(db)
              case Err(e) => r == Err(e)
    {
      if Review(db, c, entityRevision, at).Ok? { ReviewKeepsInv(db, c, entityRevision, at); }
      if c.revision != entityRevision { return Err(RevisionMismatch); }
      if c.status == Proposed { return Err(NotReviewed); }
      if c.review.kind != Some(User) && c.review.kind != Some(Rule) { return Err(ReviewerKind); }
      if !EvidenceKnown(db, c.evidenceRefs) { return Err(MissingEvidence); }
      if c.claimId !in db.claims { return Err(NoIdentity); }
      var proposal := ProposalKey(c);
      if proposal !in db.claimRevisions || db.claimRevisions[proposal].status != Proposed {
        return Err(MissingProposal);
      }
      if c.review.reviewer == Some(db.claimRevisions[proposal].statement.proposedBy) { return Err(OwnProposal); }
      var ok := StageClaimRows(c, at);
      r := if ok then Ok(()) else Err(ConstraintViolated);
    }

    method StageFactRows(f: Fact, at: int) returns (ok: bool)
      requires Sealed(db) && NoOrphans(db) && f.factId in db.facts && f.source in db.claimRevisions
      modifies this
      ensures ok == FactRowsAccepted(old(db), f, at)
      ensures ok ==> db == WithFactRows(old(db), f, at)
    {
      var owner, row := FactKey(f), FactRowOf(f, at);
      var added, rows := StageChildren(db.factEvidence, db.factRevisions.Keys, owner, f.evidenceRefs);
      if !added { return false; }
      db := db.(factEvidence := rows);
      SealAfterStaging(old(db.factEvidence), db.factRevisions.Keys, owner, f.evidenceRefs);
      ok := AcceptsFactRevision(db, owner, row);
      if ok { db := db.(factRevisions := db.factRevisions[owner := row]); }
    }

    /** The identity, kept or new, and then the rows. */
    method StageFact(f: Fact, at: int) returns (r: Result<(), StageError>)
      requires Sealed(db) && NoOrphans(db) && f.source in db.claimRevisions
      modifies this
      ensures if f.factId !in old(db).facts && f.revision != 1 then r == Err(FirstRevisionNotOne)
              else if f.factId in old(db).facts && old(db).facts[f.factId] != f.candidateId then
                r == Err(DifferentCandidate)
              else if !FactRowsAccepted(old(db), f, at) then r == Err(ConstraintViolated)
              else r.Ok? && db == WithFactRows(old(db).(facts := old(db).facts[f.factId := f.candidateId]), f, at)
    {
      hide Sealed, NoOrphans, FactRowsAccepted, WithFactRows;
      if f.factId !in db.facts {
        if f.revision != 1 { return Err(FirstRevisionNotOne); }
        NewIdentityKeeps(db, f);
        db := db.(facts := db.facts[f.factId := f.candidateId]);
      } else if db.facts[f.factId] != f.candidateId {
        return Err(DifferentCandidate);
      }
      assert db == old(db).(facts := old(db).facts[f.factId := f.candidateId]);
      SameRowsAccepted(old(db), db, f, at);
      var ok := StageFactRows(f, at);
      r := if ok then Ok(()) else Err(ConstraintViolated);
    }

    method StagePromotion(f: Fact, entityRevision: int, at: int) returns (r: Result<(), StageError>)
      requires Inv(db)
      modifies this
      ensures match Promotion(old(db), f, entityRevision, at)
              case Ok(staged) => r.Ok? && db == staged && Inv(db)
              case Err(e) => r == Err(e)
    {
      InvMeans(db);
      if Promotion(db, f, entityRevision, at).Ok? { PromotionKeepsInv(db, f, entityRevision, at); }
      hide Inv, Sealed, NoOrphans, CarriesClaim, EvidenceKnown, FactRowsAccepted, WithFactRows;
      if f.revision != entityRevision { return Err(RevisionMismatch); }
      if f.source !in db.claimRevisions || db.claimRevisions[f.source].status != Accepted {
        return Err(NotAcceptedClaim);
      }
      if f.revision == 1 && !CarriesClaim(db, f) { return Err(DifferentFromClaim); }
      if !EvidenceKnown(db, f.evidenceRefs) { return Err(MissingEvidence); }
      r := StageFact(f, at);
    }
  }
}
