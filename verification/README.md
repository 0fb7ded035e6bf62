# Career harness: a verified model

This project models, in Dafny, the parts of the career harness that must stay right over long
runs and many callers, and proves what those parts promise: for all inputs, all runs or all
reachable states. Where a promise does not hold, a concrete input shows it, and the exact
condition under which it does hold is proved for all inputs.

- **Icon cleaning** (`BrandIcon.dfy`). The worklist of the flood fill ends and selects exactly the
  pixels that a four-connected dark path joins to the border; cleaning twice is cleaning once.
- **Sealed aggregates** (`SealedRows.dfy`, `JobTables.dfy`, `JobWrites.dfy`, `FactTables.dfy`,
  `FactWrites.dfy`, `FactStores.dfy`, `MatchTables.dfy`). Children are inserted first and a parent row
  seals them by count, least and greatest ordinal. The keys, checks and triggers are guards on single
  inserts, and what they keep is proved over every history of inserts, whoever writes. The writers are
  proved against them, and in the rows' own columns, when they are accepted and what they store. The
  readers check everything again and build records with validators of their own:
  in every reachable database no aggregate is ever found incomplete, a record is read exactly when
  its columns meet what the tables leave unchecked, and one that was validated before it was staged
  is always read. `SqlChecks.dfy` gives CHECK constraints their three-valued logic, and lengths
  that stop at the first NUL.
- **Review state machines** (`CommunicationRepository.dfy`, `MemoryRepository.dfy`). Runs of calls,
  including every interleaving of calls that read in one transaction, write in another and read their
  answer back in a third.
- **Knowledge** (`Chunks.dfy`, `KnowledgeLog.dfy`, `KnowledgeRepository.dfy`, `KnowledgeWrites.dfy`,
  `KnowledgeOrigins.dfy`, `KnowledgeReaders.dfy`, `WikiSlugs.dfy`, `Similarity.dfy`). An append-only revision
  log, the evidence rows and the chunk index derived from it, rollbacks that act on stale reads, what
  each call stores and where the content of every revision comes from, which records can be read after
  which runs, slugs, and the bound on the semantic score.
- **Archive and import** (`SourceReading.dfy`, `Archive.dfy`, `Rehearsal.dfy`). Content-addressed
  storage with its verifier, and an import that is idempotent and independent of order.
- **Backup and restore** (`Paths.dfy`, `Disks.dfy`, `Backup.dfy`, `Restoring.dfy`, `RehearsalRun.dfy`).
  Where paths land, a disk, a restore with a fault possible at every step, the exact condition under
  which it is all or nothing, and the whole rehearsal.
- **Reports and pages** (`Reconciliation.dfy`, `EvidenceTables.dfy`, `EvidencePages.dfy`). Which files a
  reconciliation records, which evidence references can be read after every history of inserts, and
  what following page cursors visits, to their end and while the table grows.

`Text.dfy`, `TextOrder.dfy`, `Decimal.dfy`, `Sequences.dfy`, `Identifiers.dfy`, `NamedChildren.dfy`,
`Revisions.dfy` and `Wrappers.dfy` hold what several of these share. SQL tables are finite maps, a
transaction is one step, and a digest, a serialiser, a regular expression or a fault is a parameter:
what is assumed of it is written in the `requires` clause that needs it (`ValidEnv`, `ValidCodec`,
`ValidStorage`, `Faultless`).

A class stands where the program updates state: each method's `ensures` ties the new tables to a
function of the old ones, lemmas say in primitive columns when that function succeeds (`…SucceedsIff`),
what it stores (`…Stores`) and which refusal it names (`…RefusedFor`), and further lemmas prove what it
promises over whole runs. The forms of digests, identifiers and white space are characterised in
`Text.Sha256Iff`, `Identifiers.OpaqueIdIff` and `Text.SpacesAre`.

## Where the code does less than it seems to

Each of these is proved about the code as it is: a witness, and the exact condition.

- A closed communication draft can be reopened by a transition that read it earlier
  (`ClosedDraftReopened`); closing is final exactly when no such call is in flight.
- A reviewer that loses a race is answered with the other decision and no error
  (`LoserIsAnsweredWithOtherDecision`); the answer agrees exactly when the write found the draft
  pending or an earlier decision agreed (`ReviewerIsAnswered`).
- Creating a draft again is refused as different when the daily limit had blocked it; `RetryIff` says
  exactly when a retry returns the stored draft.
- A deleted memory comes back when a pending proposal names the tombstone's revision as its base
  (`BaseAheadRevivesDeletedMemory`); deletion is final exactly when there is no such proposal, and
  always while no proposal names a base ahead of the current revision.
- A confirmed memory is reported as deleted when the approved proposal called its own source a
  tombstone (`ConfirmedMemoryIsReportedDeleted`), and only then (`HonestThroughoutIff`).
- The tables take a rejected requirement that names nobody, and its reader then raises
  (`RejectedByNobodyIsTakenButNotRead`), because SQL's NULL makes the review check unknown, which a
  CHECK constraint lets pass. `JobTables.ReaderRaisesIff` is the exact condition: the form of
  identifiers, reviewer, reviewer kind and reason of a decision, and the lengths that no check enforces.
- The tables take claims and facts that their readers refuse: of a subject of unknown kind
  (`UnknownKindIsTakenButNotRead`), or with texts longer than their records allow
  (`LongTypedClaimIsTakenButNotRead`), because no check limits the kind and SQLite does not enforce a
  declared column length. `FactTables.ReaderRaisesIff` is the exact condition.
- An evidence reference to an artifact whose media type has more than 255 characters is taken and
  cannot be read (`LongMediaTypeIsTakenButNotRead`, `EvidenceTables.ReaderRaisesIff`), and no listing
  that reaches it succeeds (`EvidenceRepository.ReadAll`).
- A check on a length counts up to the first NUL only (`SqlChecks.LengthStopsAtNul`), so a longer text
  passes it and its reader raises; the conditions above include this.
- A claim may be accepted without naming a reviewer or giving a reason
  (`ReviewWithoutReviewerIsAccepted`), and the accepted revision may say something else than the
  proposed one (`ReviewMayAlterTheClaim`). Over every history, all decisions name their reviewer, give
  a reason, or keep the statement exactly when every committed review did (`HistoryHasIff`), and all
  were taken by someone other than the proposer exactly when every one names its reviewer
  (`DecidedBySomeoneElseIff`).
- The first revision of a fact may be about another subject than its claim
  (`PromotionMayChangeTheSubject`): promotion compares type, value and evidence only. Over every
  history first facts keep their claims' subjects exactly when every committed promotion did
  (`HistoryKeepsSubjectsIff`).
- A rename may set an empty title beside a slug. Its approval leaves an entry that cannot be read,
  rolled back or renamed again (`EmptyTitleIsAccepted` from any state, `EmptyTitleStopsRollback` as a
  run). A rollback succeeds in writing exactly when the entry and the revision to restore can be read
  (`KnowledgeRepository.Rollback`), and over every run all records can be read exactly when every
  committed import, proposal, approval, rename and rollback had identifiers and texts that fit
  (`AllReadIffCommittedTextsFit`). A proposal under an identifier of the full 128 characters names an
  entry whose identifier is too long (`NamedAfterProposalIff`).
- Repeating a wiki request is refused as different when its slug is not one that cleaning leaves as it
  is, because the cleaned slug was stored (`RepeatedRequestIff`).
- A verified index with a preserved path of more than 1966 characters before any NUL can be archived and loaded but
  not imported (`LongPathLoadsButIsNotImported`, `FreshImportIff`), because the locator column is
  checked to be at most 2048 long.
- A backup whose manifest lists `../artifacts/x` verifies, and its restore puts a file outside the
  target, or fails and leaves the target behind (`ClimbingPathIsRestoredElsewhere`,
  `ClimbingPathLeavesTarget`); a target inside the other is left behind as well
  (`NestedTargetIsLeft`). A manifest with an absolute path is never restored, though it may verify
  (`SuccessMeansNoFault`). `RestoresSoundlyIffConfined` is the exact condition, and every backup that
  is created here meets it (`CreatedBackupsAreConfined`).
- A restore that fails while making its second temporary directory leaves the first temporary file
  behind, and no other failure does (`TemporaryIsLeftIff`).

## Model

| member | source | states |
|---|---|---|
| `BrandIcon.SeedsAreTheBorder` | tools/clean_brand_icon.py:19-24 | the four seed lists together hold exactly the indices of border pixels |
| `BrandIcon.NeighboursAreAdjacent` | tools/clean_brand_icon.py:30-33 | the coordinates pushed for a pixel are exactly the pixels one step away in the image, with no wrap across rows |
| `BrandIcon.FloodingEnds` | tools/clean_brand_icon.py:25-33 | when the worklist is empty, selected and joined to the border by a dark path are the same |
| `BrandIcon.Flood` | tools/clean_brand_icon.py:18-33 | for every non-empty image the worklist ends and returns exactly the joined pixels |
| `BrandIcon.Clean` | tools/clean_brand_icon.py:34-50 | a pixel with a channel above 24 stays as it is, a border pixel without one only loses its alpha, and the report counts selected and changed pixels; the rewrite gives the cleaned image of the following rows |
| `BrandIcon.CleanedTouchesOnlyJoinedAlpha` | tools/clean_brand_icon.py:34-42 | no colour channel changes, and a pixel changes exactly when it is joined and was not yet transparent, so the check after saving cannot fail |
| `BrandIcon.DarkMeans` | tools/clean_brand_icon.py:27 | a pixel is dark exactly when none of its three colour channels is above 24 |
| `BrandIcon.CleanedKeepsBrightPixels` | tools/clean_brand_icon.py:27-42 | every pixel with a channel above 24 is left alone, and every border pixel without one keeps its colour and becomes transparent |
| `BrandIcon.SameSelectionAfterCleaning` | tools/clean_brand_icon.py:25-42 | the cleaned image has the same joined pixels |
| `BrandIcon.CleaningTwiceIsCleaningOnce` | tools/clean_brand_icon.py:12-42 | a second run changes nothing |
| `Communication.StepKeepsInv` | backend/career_harness/db/communication_repository.py:147-216 | one step of any caller keeps the invariant over calls in flight and takes nothing back from any draft |
| `Communication.RunKeepsReviews` | backend/career_harness/db/communication_repository.py:147-216 | under every interleaving no draft vanishes or returns to pending, a rejected one stays rejected, and a recorded review never changes |
| `Communication.ReviewIsRecordedAtMostOnce` | backend/career_harness/db/communication_repository.py:159-180 | however many reviewers race, the review columns of a draft are written at most once, and never once it has left pending |
| `Communication.ReviewerIsAnswered` | backend/career_harness/db/communication_repository.py:159-181 | whatever happens between a reviewer's write and its read-back, the returned draft agrees with the decision if and only if the write found the draft pending or an earlier decision agreed, and carries the reviewer's own reason and time only in the first case; while no transition is written it carries the decision itself under the same condition |
| `Communication.LoserIsAnsweredWithOtherDecision` | backend/career_harness/db/communication_repository.py:159-181 | two reviewers of a pending draft: the one that rejects last is answered with an approved draft |
| `Communication.ClosedIsFinalIffNoTransitionInFlight` | backend/career_harness/db/communication_repository.py:206-215 | a closed draft stays closed in every run if and only if no transition to another state is in flight on it |
| `Communication.ClosedDraftReopened` | backend/career_harness/db/communication_repository.py:206-215 | four steps of two callers that take a draft from closed back to sent |
| `Communication.DailyLimitHolds` | backend/career_harness/db/communication_repository.py:39-61 | no interleaving inserts more sendable drafts in a day than the limit leaves |
| `Communication.NewDraftIsCounted` | backend/career_harness/db/communication_repository.py:39-61 | the day's count never falls, and every sendable insert of the day raises it by one |
| `Communication.SequentialCall` | backend/career_harness/db/communication_repository.py:147-216 | a call that nothing interrupts writes exactly when its checks pass |
| `Communication.AllowedIff` | backend/career_harness/db/communication_repository.py:194-204 | a transition is allowed exactly between the eleven pairs of states listed, so none leads out of pending, rejected or closed |
| `Communication.ReadStores` | backend/career_harness/db/communication_repository.py:151-158 | a caller goes on to write exactly when it found its draft, that pending for a review, or in a state its transition may follow |
| `Communication.WriteStores` | backend/career_harness/db/communication_repository.py:159-216 | a review writes decision, reviewer, reason and time to a draft that is still pending and nothing to another; a transition writes the status alone, whatever it is by then; every other draft stays |
| `Communication.CreateStores` | backend/career_harness/db/communication_repository.py:39-85 | a new draft is stored without a review, and blocked with reason and limit added to its provenance when it could be sent and the day has reached the limit; a used identity stores nothing |
| `Communication.RetryIff` | backend/career_harness/db/communication_repository.py:24-60 | whatever has happened since, creating a draft again returns the stored one if and only if the limit did not block it, it came without a review, and its status is the one it was created with |
| `Communication.CommunicationRepository.Create` | backend/career_harness/db/communication_repository.py:20-85 | a new draft is stored, blocked when the day's limit is reached; under a used id the stored draft is returned if it equals the given one but for its times, and the call is refused otherwise |
| `Communication.CommunicationRepository.Review` | backend/career_harness/db/communication_repository.py:147-181 | is the read step followed by the write step; succeeds on a pending draft or on a repeat of the same decision, and on nothing else |
| `Communication.CommunicationRepository.Transition` | backend/career_harness/db/communication_repository.py:183-216 | is the read step followed by the write step; succeeds exactly on the allowed transitions and changes only the status |
| `SealedRows.SealMeansContiguous` | migrations/versions/0008_job_requirement_persistence.py:220-263 | pigeonhole: the trigger's comparisons of count, min and max hold if and only if the ordinals are exactly 0..count-1 |
| `SealedRows.SealOrEmptyMeansContiguous` | migrations/versions/0010_fact_promotion.py:217-228 | the same for the trigger that lets a parent have no children |
| `SealedRows.ReadsIffContiguous` | backend/career_harness/db/job_repository.py:172-175 | the reader raises exactly when the ordinals are not 0..count-1, and otherwise returns the children in order |
| `SealedRows.StagedReadsBack` | backend/career_harness/db/job_writes.py:52-71 | children staged under a new parent are read back as the list that was staged |
| `SealedRows.NextChildAccepted` | backend/career_harness/db/job_writes.py:52-61 | the next child of a growing list is accepted if and only if the parent is not sealed and no value repeats |
| `SealedRows.SealAfterStaging` | backend/career_harness/db/job_writes.py:52-71 | the seal of a parent that counts its staged children holds |
| `SealedRows.StageChildren` | backend/career_harness/db/job_writes.py:52-61 | the loop succeeds exactly on a list without repetitions under an unsealed parent, and then the table is the staged one |
| `SealedRows.SameChildrenReadTheSame` | migrations/versions/0008_job_requirement_persistence.py:266-283 | a reader's answer depends on the children of its own parent alone |
| `SealedRows.HeldListIsRead` | backend/career_harness/db/knowledge_repository.py:420-434 | rows that hold a list are selected by ordinal as that list |
| `SealedRows.ReplacedHolds` | backend/career_harness/db/knowledge_repository.py:342-367 | delete and reinsert leaves exactly the new list under its owner and every other owner untouched |
| `SealedRows.ReplacingHeldList` | backend/career_harness/db/knowledge_repository.py:342-367 | replacing a list by itself changes nothing |
| `SealedRows.InsertNumbered` | backend/career_harness/db/knowledge_repository.py:350-367 | the numbering loop yields the staged table, repeated values included |
| `JobTables.InsertKeepsSealed` | migrations/versions/0008_job_requirement_persistence.py:220-263 | every insert that keys, checks and triggers accept keeps all sealed aggregates contiguous |
| `JobTables.HistoryKeepsSealed` | migrations/versions/0008_job_requirement_persistence.py:220-283 | over every history of transactions sealed aggregates stay contiguous, complete and unchanged, whoever writes |
| `JobTables.HistoryKeepsKeys` | migrations/versions/0008_job_requirement_persistence.py:20-200 | over every history, whoever writes, every child has its owner and a known reference, every revision its identity, and every requirement the revision of its own job |
| `JobTables.CheckedRowIsValidIffReadable` | backend/career_harness/core/job/models.py:45-97 | of a row that passes the table's checks, the record's validators accept exactly those whose identifiers have their form, whose decision names reviewer, kind and reason, and whose texts fit |
| `JobTables.ReaderRaisesIff` | backend/career_harness/db/job_repository.py:99-175 | in every database that inserts can reach, whoever writes, a job revision is read if and only if its identifiers have their form and its digest holds no NUL, a requirement if and only if they have it, its decision names reviewer, kind and reason, and its texts fit; the answer is the same after every later history |
| `JobTables.RejectedByNobodyIsTakenButNotRead` | migrations/versions/0008_job_requirement_persistence.py:126-133 | accepted inserts after which the reader raises: a rejected requirement without reviewer, kind and reason |
| `JobWrites.StagedJobReadsBack` | backend/career_harness/db/job_writes.py:32-71 | a staged job revision is read back as given, with the observation time of the command |
| `JobWrites.StagedRequirementReadsBack` | backend/career_harness/db/job_writes.py:86-178 | a staged requirement is read back as given, with the proposal or review time of the command |
| `JobWrites.StagedJobSucceedsIff` | backend/career_harness/db/job_writes.py:32-71 | a job revision is staged if and only if it is the revision commanded, new, the first of a new job, and has a digest and known evidence without repetition |
| `JobWrites.StagedJobStores` | backend/career_harness/db/job_writes.py:32-71 | exactly one revision row with the columns of the command and its evidence rows are new; every other row stays |
| `JobWrites.StagedRequirementSucceedsIff` | backend/career_harness/db/job_writes.py:86-178 | a requirement is staged if and only if it is the revision commanded, new, the first of a new requirement, of the job it always was of, with known evidence, an existing mapping, which an accepted one has, and columns that the tables take |
| `JobWrites.StagedRequirementStores` | backend/career_harness/db/job_writes.py:127-178 | exactly one requirement row with the columns and the time of the command, its evidence and its capabilities are new; every other row stays |
| `JobWrites.JobRowAcceptance` | backend/career_harness/db/job_writes.py:52-71 | with its children staged, the sealing row is accepted exactly when the aggregate is well formed and its key free |
| `JobWrites.RequirementRowAcceptance` | backend/career_harness/db/job_writes.py:127-178 | the same for a requirement with its two lists of children |
| `JobWrites.Session.StageJob` | backend/career_harness/db/job_writes.py:32-71 | the staging loop and inserts produce exactly the staged database, or the error of the first check that fails |
| `JobWrites.Session.StageRequirement` | backend/career_harness/db/job_writes.py:86-178 | the checks in their order, then the staged database or the first error |
| `JobWrites.Session.StageRequirementRows` | backend/career_harness/db/job_writes.py:127-178 | children first, then the row that counts them; succeeds exactly when the tables accept all of them |
| `JobTables.FirstRowIsLatest` | backend/career_harness/db/job_repository.py:63-75 | in descending order a row is its requirement's latest if and only if it comes first |
| `JobTables.LatestRows` | backend/career_harness/db/job_repository.py:71-75 | the dictionary keeps exactly the latest row of each requirement, once |
| `JobTables.ListRequirements` | backend/career_harness/db/job_repository.py:54-79 | returns one record for each wanted revision and no other, by requirement and then latest revision first, if and only if all of them can be read; a requirement whose latest revision belongs to another job revision or status is not listed |
| `JobTables.ListOrderMeans` | backend/career_harness/db/job_repository.py:63-70 | in list order requirements ascend and the revisions of each descend, and any two rows are ordered |
| `JobWrites.StagedRecordsAreAlwaysRead` | backend/career_harness/db/job_writes.py:32-178 | where what is staged meets the record's validators, no reader raises in any reachable database |
| `SqlChecks.ReviewCheckOfDecided` | migrations/versions/0010_fact_promotion.py:73-80 | what the review check lets pass of a decided row, NULL included |
| `SqlChecks.ReviewCheckOfProposed` | migrations/versions/0010_fact_promotion.py:73-80 | a proposed row passes exactly with no review column set |
| `SqlChecks.LengthStopsAtNul` | migrations/versions/0008_job_requirement_persistence.py:103 | SQLite's length counts the characters before the first NUL, whatever follows it |
| `FactTables.InsertKeepsSealed` | migrations/versions/0010_fact_promotion.py:197-234 | every insert of a claim or fact row that keys, checks and triggers accept keeps all sealed aggregates contiguous, those of no evidence included |
| `FactTables.RowHistoryKeepsSealed` | migrations/versions/0010_fact_promotion.py:197-245 | over every history of transactions sealed aggregates stay contiguous and every committed row stays as it was, whoever writes |
| `FactTables.HistoryKeepsKeys` | migrations/versions/0010_fact_promotion.py:20-196 | over every history, whoever writes, every child has its owner and a known reference, every revision its identity, and every fact the claim revision it comes from |
| `FactTables.ReaderRaisesIff` | backend/career_harness/db/fact_repository.py:104-186 | in every database that inserts can reach no reader misses an identity or a child; a claim or fact is read if and only if its identifiers have their form, its subject's kind is known and its texts fit, and the answer is the same after every later history |
| `FactTables.LongTypedClaimIsTakenButNotRead` | backend/career_harness/core/evidence/models.py:60-70 | accepted inserts after which the reader raises: a claim type longer than the record allows |
| `FactTables.UnknownKindIsTakenButNotRead` | migrations/versions/0010_fact_promotion.py:36 | accepted inserts after which the reader raises: a subject whose kind is none of the entity kinds |
| `FactWrites.ProposalKeepsInv` | backend/career_harness/db/fact_writes.py:82-102 | a proposal keeps every claim reviewed at most once and every fact promoted from an accepted claim |
| `FactWrites.ReviewKeepsInv` | backend/career_harness/db/fact_writes.py:117-142 | so does a review, which can only be revision two of a claim and never its proposer's |
| `FactWrites.PromotionKeepsInv` | backend/career_harness/db/fact_writes.py:157-231 | so does a promotion, and a first fact revision carries type, value and evidence list of its claim |
| `FactWrites.HistoryKeepsInv` | backend/career_harness/db/fact_writes.py:82-231 | over every history of the writers: proposed once at revision one, decided at most once at revision two and never under the proposer's name, facts only from accepted claims, nothing ever changed |
| `FactWrites.ReviewHasIff` | backend/career_harness/db/fact_writes.py:117-142 | after a review every decision names its reviewer, gives a reason or keeps the proposed statement and evidence if and only if that was so before and the review does |
| `FactWrites.HistoryHasIff` | backend/career_harness/db/fact_writes.py:117-142 | the same over every history: all decisions have the quality if and only if every committed review has it |
| `FactWrites.DecidedBySomeoneElseIff` | backend/career_harness/db/fact_writes.py:124-142 | in every reachable database each decision was taken by a named person other than the proposer if and only if every committed review names its reviewer |
| `FactWrites.HistoryKeepsSubjectsIff` | backend/career_harness/db/fact_writes.py:157-231 | over every history of the writers, first facts are about the subjects of their claims if and only if every committed promotion is |
| `FactWrites.StagedRecordsAreAlwaysRead` | backend/career_harness/db/fact_repository.py:104-186 | where what is staged meets the records' validators no reader raises, every fact stems from a claim decided at revision two, and a first fact reads back its claim's evidence list |
| `FactStores.ProposalSucceedsIff` | backend/career_harness/db/fact_writes.py:82-102 | a proposal is accepted if and only if it is the first revision of a new claim, proposed, with known evidence, and the tables take its columns |
| `FactStores.ProposalStores` | backend/career_harness/db/fact_writes.py:82-102 | one claim row with the statement given and the time of the command, its references in order, its identity, and nothing else |
| `FactStores.ReviewSucceedsIff` | backend/career_harness/db/fact_writes.py:117-142 | a review is accepted if and only if it is the second revision of a claim that nobody has decided, by a user or a rule, not under the proposer's name, with known evidence, and the tables take its columns |
| `FactStores.ReviewStores` | backend/career_harness/db/fact_writes.py:117-142 | one claim row with the decision, reviewer, reason and time given, its references in order, and nothing else |
| `FactStores.PromotionSucceedsIff` | backend/career_harness/db/fact_writes.py:157-231 | a promotion is accepted if and only if it comes from an accepted revision, which the first revision of a fact repeats in type, value and evidence, is of its own candidate, new, with known evidence, and the tables take its columns |
| `FactStores.PromotionStores` | backend/career_harness/db/fact_writes.py:196-231 | one fact row with the columns given, its references in order, its identity at revision one, and nothing else |
| `FactWrites.ReviewWithoutReviewerIsAccepted` | backend/career_harness/db/fact_writes.py:124-142 | two writes after which an accepted claim names neither a reviewer nor a reason |
| `FactWrites.ReviewMayAlterTheClaim` | backend/career_harness/db/fact_writes.py:117-142 | two writes after which the accepted claim has another value than the proposed one |
| `FactWrites.PromotionMayChangeTheSubject` | backend/career_harness/db/fact_writes.py:176-193 | three writes after which a first fact is about another subject than its accepted claim |
| `FactWrites.Session.StageClaimRows` | backend/career_harness/db/fact_writes.py:29-67 | evidence rows, then the sealing row; succeeds exactly when the tables accept all of them |
| `FactWrites.Session.StageProposal` | backend/career_harness/db/fact_writes.py:82-102 | the staged database, or the error of the first check that fails |
| `FactWrites.Session.StageReview` | backend/career_harness/db/fact_writes.py:117-142 | the staged database, or the error of the first check that fails |
| `FactWrites.Session.StageFactRows` | backend/career_harness/db/fact_writes.py:205-231 | evidence rows, possibly none, then the sealing row |
| `FactWrites.Session.StageFact` | backend/career_harness/db/fact_writes.py:196-231 | the identity, made for revision one only and never moved to another candidate, and then the rows of the fact |
| `FactWrites.Session.StagePromotion` | backend/career_harness/db/fact_writes.py:157-231 | the staged database, or the error of the first check that fails |
| `MatchTables.ResultsErrorIff` | backend/career_harness/db/match_writes.py:146-181 | the result loop passes if and only if every result passes, in the sense of `MatchTables.ResultErrorIff` |
| `MatchTables.GapsErrorIff` | backend/career_harness/db/match_writes.py:193-207 | the gap loop passes if and only if every gap passes, in the sense of `MatchTables.GapErrorIff` |
| `MatchTables.WithResultsAdds` | backend/career_harness/db/match_writes.py:88-103 | the table accepts the result rows exactly when their keys are distinct and free and their checks pass, and then has them and nothing else new |
| `MatchTables.WithGapsAdds` | migrations/versions/0009_match_gap_persistence.py:111-120 | the table accepts the gap rows exactly when no id and no target repeats and their checks pass, and then has them and nothing else new |
| `MatchTables.AcceptedIff` | backend/career_harness/db/match_writes.py:59-214 | staging succeeds if and only if every persisted input, result and gap is as the following rows say, the rows pass their checks, the identities are free and no requirement has two gaps; the tables' other keys never refuse |
| `MatchTables.InputErrorIff` | backend/career_harness/db/match_writes.py:117-142 | the inputs pass exactly when the opportunity is known and for the manifest's job, both exist in the revisions named, every official capability exists, and every personal state is the candidate's own |
| `MatchTables.ResultErrorIff` | backend/career_harness/db/match_writes.py:144-181 | a result passes exactly when its persisted requirement is accepted, belongs to the manifest's job, and has the capability and scopes that the manifest names last for it |
| `MatchTables.GapErrorIff` | backend/career_harness/db/match_writes.py:183-207 | a gap passes exactly when it is of this assessment and of one of its results that is not covered, and keeps that result's classification and the requirement's capability |
| `MatchTables.AllGapsErrorIff` | backend/career_harness/db/match_writes.py:193-214 | the gaps as a whole pass exactly when each does, none repeats an identity, and every result that is not covered has one |
| `MatchTables.StagedStores` | backend/career_harness/db/match_writes.py:73-114 | the header has the manifest's identities and its text, every gap is stored under its id, and every older row stays |
| `MatchTables.StagedStoresResults` | backend/career_harness/db/match_writes.py:88-103 | every result is stored once, under its requirement revision and with its own columns |
| `MatchTables.HeldAggregateIsRead` | backend/career_harness/db/match_repository.py:100-155 | an aggregate held by the tables passes every check of the reader in whatever order its rows come |
| `MatchTables.RecordIff` | backend/career_harness/db/match_repository.py:100-155 | whatever the rows, a header is read with them if and only if its manifest parses and has its columns, its requirements are those that have results, at least one, every gap agrees with its result and the manifest, and every result that is not covered has one |
| `MatchTables.StagedHolds` | backend/career_harness/db/match_writes.py:73-114 | after staging the tables hold exactly the aggregate under its identity, with one gap for each non-covered result |
| `MatchTables.StagedKeepsOthers` | backend/career_harness/db/match_writes.py:73-114 | staging leaves the rows of every other assessment as they were |
| `MatchTables.ReadersNeverRaise` | backend/career_harness/db/match_repository.py:100-155 | in every reachable state every header reads back, without error, the manifest, results and gaps that were staged |
| `MatchTables.StagedAggregatesNeverChange` | migrations/versions/0009_match_gap_persistence.py:14-18 | an aggregate once staged is the same after every later event |
| `MatchTables.Session.Stage` | backend/career_harness/db/match_writes.py:59-114 | the staged database, or the error of the first check that fails |
| `MatchTables.Session.ValidateResults` | backend/career_harness/db/match_writes.py:146-181 | returns the first result's error, if any |
| `MatchTables.Session.ValidateGaps` | backend/career_harness/db/match_writes.py:183-214 | returns the first gap error; the set grown by the loop is compared with the non-covered results |
| `MatchTables.Session.AddResults` | backend/career_harness/db/match_writes.py:88-103 | adds all result rows or refuses |
| `MatchTables.Session.AddGaps` | backend/career_harness/db/match_writes.py:104-114 | adds all gap rows or refuses |
| `Memory.ReviewedKeepsInv` | backend/career_harness/db/memory_repository.py:195-321 | a review keeps revisions exactly 1..current and one approval per base |
| `Memory.RunKeepsInv` | backend/career_harness/db/memory_repository.py:64-465 | over every run each memory's revisions are exactly 1..current and never overwritten, type and scope never change, and at most one proposal is approved against any base |
| `Memory.RunKeepsOriginated` | backend/career_harness/db/memory_repository.py:195-465 | over every run every revision of a memory holds the text and the source that the user approved for that memory, as edited and stripped, or marks a deletion |
| `Memory.DeletedForGoodIffNoReviver` | backend/career_harness/db/memory_repository.py:222-283 | a deleted memory stays deleted in every run if and only if no pending proposal names its tombstone as base |
| `Memory.BaseAheadRevivesDeletedMemory` | backend/career_harness/db/memory_repository.py:105-123 | propose with a base one ahead, delete, approve: the memory is confirmed again |
| `Memory.RunKeepsBasesBehind` | backend/career_harness/db/memory_repository.py:122-123 | while no proposal names a base ahead, every pending base stays behind a tombstone |
| `Memory.DeletionIsFinal` | backend/career_harness/db/memory_repository.py:417-465 | in such runs a deleted memory is never confirmed again, whatever follows |
| `Memory.CurrentRevisionReportsStatus` | backend/career_harness/db/memory_repository.py:467-488 | unless a proposal calls its own source a tombstone, reading the current revision reports the memory's status |
| `Memory.HonestIff` | backend/career_harness/db/memory_repository.py:467-488 | in a reachable state a memory is misreported if and only if it is confirmed and its current revision names a tombstone as its source |
| `Memory.ApprovalIsHonestIff` | backend/career_harness/db/memory_repository.py:514-530 | after an approval that succeeds the reader reports the memory's status if and only if the proposal does not call its source a tombstone |
| `Memory.HonestThroughoutIff` | backend/career_harness/db/memory_repository.py:195-321 | over every run every memory is reported as it is in every state if and only if no proposal that calls its source a tombstone was approved |
| `Memory.ConfirmedMemoryIsReportedDeleted` | backend/career_harness/db/memory_repository.py:514-530 | propose and approve a memory whose source is called a tombstone: confirmed, and reported as deleted |
| `Memory.ProposalSucceedsIff` | backend/career_harness/db/memory_repository.py:64-158 | a proposal is accepted if and only if its text is neither blank nor too long, scope and locator are not blank, its target is a memory of the same place that is not deleted, and its base is a revision number; an identity in use takes only the proposal that it has |
| `Memory.ProposalStores` | backend/career_harness/db/memory_repository.py:105-158 | stored pending with the stripped text, the source given, and the target's current revision where no base is named; nothing else changes |
| `Memory.ReviewSucceedsIff` | backend/career_harness/db/memory_repository.py:195-245 | a review is accepted if and only if the user decides a pending proposal whose approved text is not blank and, when it approves a change, whose base is the memory's current revision |
| `Memory.ApprovalStores` | backend/career_harness/db/memory_repository.py:222-321 | the next revision holds the proposal's source and the reviewer's edit, stripped, or the proposal's own text when there is no edit; the proposal records that text; nothing else changes |
| `Memory.RejectionStores` | backend/career_harness/db/memory_repository.py:195-221 | only the proposal's decision and reason are recorded |
| `Memory.DeletionSucceedsIff` | backend/career_harness/db/memory_repository.py:417-433 | a deletion is accepted if and only if the user deletes a memory that is not deleted |
| `Memory.DeletionStores` | backend/career_harness/db/memory_repository.py:417-465 | a revision without the content, whose source is a tombstone with the first 256 characters of the reason, is appended, the memory is deleted at it, and nothing else changes |
| `Memory.MemoryRepository.CreateProposal` | backend/career_harness/db/memory_repository.py:64-158 | stores the stripped proposal with the default base; a retry returns it; each refusal in the order of the checks |
| `Memory.MemoryRepository.ReviewProposal` | backend/career_harness/db/memory_repository.py:195-321 | appends the approved revision to the target or to a new memory, or refuses, a stale base included |
| `Memory.MemoryRepository.Delete` | backend/career_harness/db/memory_repository.py:417-465 | appends the tombstone revision and returns it, or refuses |
| `Chunks.SplitIsAtBreaks` | backend/career_harness/db/knowledge_repository.py:139-140 | the parts are what lies between white space that runs from one newline to another |
| `Text.StripTakesEnds` | backend/career_harness/db/knowledge_repository.py:139 | stripping takes white space from the two ends and keeps what lies between as it is |
| `Chunks.PartsHaveNoBreak` | backend/career_harness/db/knowledge_repository.py:139-140 | no such break is left inside a part |
| `Chunks.ParagraphsKeepVisible` | backend/career_harness/db/knowledge_repository.py:139-140 | the paragraphs are stripped, not blank, and hold every visible character in order |
| `Chunks.ParagraphsHaveNoBreak` | backend/career_harness/db/knowledge_repository.py:139-140 | no blank line is left inside a paragraph |
| `Chunks.PiecesJoin` | backend/career_harness/db/knowledge_repository.py:142-144 | a paragraph's pieces have 1 to 800 characters, join up to it, and are as few as that allows |
| `Chunks.ChunksCoverContent` | backend/career_harness/db/knowledge_repository.py:139-145 | chunks join up to the paragraphs, have 1 to 800 characters, and the fallback is taken exactly for texts with nothing visible |
| `Chunks.CleanedContentNeverFallsBack` | backend/career_harness/db/knowledge_repository.py:89-95 | for a text that cleaning accepts the fallback is unreachable |
| `Chunks.CutParagraph` | backend/career_harness/db/knowledge_repository.py:143-144 | the offset loop yields the pieces |
| `Chunks.CutChunks` | backend/career_harness/db/knowledge_repository.py:139-145 | the nested loops yield the chunks |
| `Similarity.DotIsSymmetric` | backend/career_harness/db/knowledge_repository.py:121 | the sum over the left counter equals the sum over the right one |
| `Similarity.CauchySchwarz` | backend/career_harness/db/knowledge_repository.py:121-123 | dot squared is at most the product of the squared norms, with equality for equal counters |
| `Similarity.CosineIsBounded` | backend/career_harness/db/knowledge_repository.py:118-124 | over the reals the semantic score lies in [0, 1] and is symmetric, empty counters included |
| `Similarity.CosineOfSelf` | backend/career_harness/db/knowledge_repository.py:118-124 | a text scores one against itself |
| `Similarity.CosineIs` | backend/career_harness/db/knowledge_repository.py:118-124 | the semantic score is zero if and only if no trigram occurs in both texts, and times the two norms it is the dot product |
| `Similarity.ScoreIsNearLexical` | backend/career_harness/db/knowledge_repository.py:527-534 | the total score is between the lexical score and two more |
| `Similarity.ScoreIs` | backend/career_harness/db/knowledge_repository.py:527-534 | only a hybrid search of texts that share a trigram adds to the lexical hits, and what it adds, times the norms, is twice the dot product |
| `Similarity.CollapsedPieces` | backend/career_harness/db/knowledge_repository.py:113 | a text is collapsed piece by piece wherever it is not cut inside of white space; a word stays as it is (`CollapsedWord`) and a run of white space becomes one space (`CollapsedRun`) |
| `Similarity.VectorFeatures` | backend/career_harness/db/knowledge_repository.py:112-115 | each trigram is counted as often as it occurs, no count is zero, and the counts sum to the padded length minus two |
| `Similarity.DotProduct` | backend/career_harness/db/knowledge_repository.py:121 | the loop computes the dot product whatever order it takes the entries in |
| `WikiSlugs.CandidatesDiffer` | backend/career_harness/db/knowledge_repository.py:951-960 | base, base-2, base-3, … are pairwise distinct |
| `WikiSlugs.ProbesAreBounded` | backend/career_harness/db/knowledge_repository.py:953-960 | n candidates in use need n slugs in use |
| `WikiSlugs.FreeSlug` | backend/career_harness/db/knowledge_repository.py:945-972 | the slug found is not in use |
| `WikiSlugs.Probe` | backend/career_harness/db/knowledge_repository.py:951-960 | the loop ends within one probe more than there are slugs in use, with the first free candidate |
| `Decimal.PrintInjective` | backend/career_harness/db/knowledge_repository.py:959 | decimal suffixes of different numbers differ |
| `Decimal.PrintIsShort` | backend/career_harness/db/knowledge_repository.py:897 | a revision number below a power of ten prints in as many digits as the exponent |
| `KnowledgeLog.AppendKeepsInv` | backend/career_harness/db/knowledge_repository.py:758-837 | appending the next revision with its evidence rows and chunks keeps log, evidence and index in agreement and overwrites nothing |
| `KnowledgeLog.AppendedReads` | backend/career_harness/db/knowledge_repository.py:787-828 | after appending, the new revision reads as the row given, its evidence as the row's references in order, and every other revision as before |
| `KnowledgeLog.RebuildChangesNothing` | backend/career_harness/db/knowledge_repository.py:1378-1390 | rebuilding the index of any revisions in any order leaves it as it was |
| `Knowledge.RollbackWritesIffStillCurrent` | backend/career_harness/db/knowledge_repository.py:866-938 | a rollback that read earlier writes if and only if the entry's current revision has not moved since |
| `Knowledge.StepKeepsInv` | backend/career_harness/db/knowledge_repository.py:166-1223 | every call, and each of the two reads and the write of a rollback, keeps the invariant over tables and reads in flight |
| `Knowledge.RunKeepsInv` | backend/career_harness/db/knowledge_repository.py:166-1223 | over every interleaving revisions are 1..current and never overwritten, hashes match contents, evidence copies agree, the index holds each revision's chunks, slugs stay unique |
| `Knowledge.ReachableStatesAreFaithful` | backend/career_harness/db/knowledge_repository.py:342-435 | in every reachable state readers of evidence rows and chunks see what the log holds, chunks cover the content, a rebuild is a no-op, and a revision is read as it was stored if and only if its identifiers and texts fit its record |
| `Knowledge.RestoreWrites` | backend/career_harness/db/knowledge_repository.py:866-938 | with nothing in between, what a rollback reads it can write, as the next revision, with title, content, digest, references and authority of the restored one and its evidence rows in the same order |
| `KnowledgeOrigins.RunKeepsRooted` | backend/career_harness/db/knowledge_repository.py:166-1223 | over every interleaving every revision has the content and the evidence of a first revision of its entry or of one that an approved proposal made for it: a rollback or a rename never brings in anything else |
| `KnowledgeWrites.ImportSucceedsIff` | backend/career_harness/db/knowledge_repository.py:166-345 | an import is accepted if and only if its text can be cleaned, and its entry exists already or its evidence rows find their parents |
| `KnowledgeWrites.ImportStores` | backend/career_harness/db/knowledge_repository.py:166-345 | a new entry with the cleaned text as revision one, under one reference that is known from then on; an entry that exists stays |
| `KnowledgeWrites.ProposalSucceedsIff` | backend/career_harness/db/knowledge_repository.py:642-718 | a proposal is accepted if and only if its text can be cleaned and it is new, with a known target and known references, or repeats the stored one |
| `KnowledgeWrites.ProposalStores` | backend/career_harness/db/knowledge_repository.py:642-718 | stored as given but for the cleaned text, its digest, the pending status, and the target's current revision where no base is named |
| `KnowledgeWrites.ReviewSucceedsIff` | backend/career_harness/db/knowledge_repository.py:734-828 | a review is accepted if and only if it decides a pending proposal and, if it approves, no reference is unknown or repeated |
| `KnowledgeWrites.ApprovalStores` | backend/career_harness/db/knowledge_repository.py:758-851 | the proposal's text and references become the next revision of the target, or of a new entry, which is approved at it; the proposal is recorded as approved, and nothing else changes |
| `KnowledgeWrites.RejectionStores` | backend/career_harness/db/knowledge_repository.py:734-757 | only the proposal's status changes |
| `KnowledgeWrites.WithPageStores` | backend/career_harness/db/knowledge_repository.py:945-972 | a page that is missing is made with the first free slug and without a parent; one that is there stays |
| `KnowledgeWrites.RequestSucceedsIff` | backend/career_harness/db/knowledge_repository.py:974-1069 | a request is accepted if and only if it names its requester and what it asks for, target and parent are two entries, and it is new with a slug that no other page has, or repeats the stored one |
| `KnowledgeWrites.RequestStores` | backend/career_harness/db/knowledge_repository.py:974-1069 | stored pending and with the cleaned slug, beside the target's page |
| `KnowledgeWrites.MoveStores` | backend/career_harness/db/knowledge_repository.py:1122-1134 | the page is moved below its new parent, and nothing else changes |
| `KnowledgeWrites.ArchiveStores` | backend/career_harness/db/knowledge_repository.py:1135-1142 | the entry is archived, and nothing else changes |
| `KnowledgeWrites.RenameSucceedsIff` | backend/career_harness/db/knowledge_repository.py:1144-1223 | a rename is accepted if and only if no other page has the slug and, for a new title, the current revision can be read |
| `KnowledgeWrites.RenameStores` | backend/career_harness/db/knowledge_repository.py:1144-1223 | a slug changes the page; a title appends a revision with the content and evidence of the current one and is the entry's from then on; nothing else changes |
| `KnowledgeWrites.OperationReviewStores` | backend/career_harness/db/knowledge_repository.py:1085-1244 | accepted exactly when reviewer and reason are not blank, the operation is pending and its target there, and an approved one can be applied; the decision is recorded, and an approved operation, and no other, is applied to the tables with the target's page |
| `KnowledgeReaders.ReadersRaiseIff` | backend/career_harness/core/knowledge/models.py:55-110 | in every reachable state the readers of revisions, entries and proposals raise if and only if identifier, title, source type or locator does not fit the record |
| `KnowledgeReaders.AllReadIffCommittedTextsFit` | backend/career_harness/db/knowledge_repository.py:166-1223 | over every run, all of these records can be read if and only if every committed import, proposal, approval, rename and rollback had identifiers and texts that fit |
| `KnowledgeReaders.ShortLocatorsFit` | backend/career_harness/db/knowledge_repository.py:897 | the locators that approvals, renames and rollbacks compose fit for every identifier of its form |
| `KnowledgeReaders.NamedAfterProposalIff` | backend/career_harness/db/knowledge_repository.py:759 | an entry named after its proposal gets an identifier of its form if and only if the proposal's has fewer than 128 characters |
| `KnowledgeReaders.EmptyTitleIsAccepted` | backend/career_harness/db/knowledge_repository.py:974-1244 | in every state with a readable entry and a free slug, a rename to an empty title is requested and approved, and then the entry cannot be read, rolled back to any revision or renamed again |
| `KnowledgeReaders.EmptyTitleStopsRollback` | backend/career_harness/db/knowledge_repository.py:866-938 | such a run: an import, the request and its approval |
| `KnowledgeReaders.RepeatedRequestIff` | backend/career_harness/db/knowledge_repository.py:1013-1031 | whatever has happened since, the same request is accepted again if and only if cleaning leaves its slug as it is, and is refused as different otherwise |
| `Knowledge.WithPageKeepsInv` | backend/career_harness/db/knowledge_repository.py:945-972 | making a page keeps slugs unique |
| `Knowledge.RenameKeepsInv` | backend/career_harness/db/knowledge_repository.py:1144-1223 | a rename review keeps slugs unique, and its new revision agrees with its evidence rows and chunks |
| `Knowledge.KnowledgeRepository.Append` | backend/career_harness/db/knowledge_repository.py:787-828 | revision row, evidence rows and index of the new revision, or nothing when a key is taken or a reference unknown |
| `Knowledge.KnowledgeRepository.ReplaceChunks` | backend/career_harness/db/knowledge_repository.py:342-367 | the index rows of one revision become its chunks in order |
| `Knowledge.KnowledgeRepository.ImportDocument` | backend/career_harness/db/knowledge_repository.py:166-345 | stores the cleaned text as revision one with one evidence row, or keeps the existing entry, and returns the current revision if and only if it fits its record; refused when an evidence row that a check skips leaves a key without its parent |
| `Knowledge.KnowledgeRepository.CreateProposal` | backend/career_harness/db/knowledge_repository.py:642-732 | stores the cleaned proposal with the default base, or finds it again, and returns it as its record reads it; each refusal in the order of the checks |
| `Knowledge.KnowledgeRepository.ReviewProposal` | backend/career_harness/db/knowledge_repository.py:734-851 | appends the approved revision to the target or to a new entry, decides the proposal, and returns it as its record reads it |
| `Knowledge.KnowledgeRepository.Rollback` | backend/career_harness/db/knowledge_repository.py:866-938 | uninterrupted, restores a revision as the next one if and only if that revision and the entry can be read: title, content, digest, references, authority and evidence rows are those of the restored one, and the entry is approved under its title; returns it if and only if its locator fits too |
| `Knowledge.KnowledgeRepository.WriteRollback` | backend/career_harness/db/knowledge_repository.py:879-938 | the writing half alone, at whatever time it runs: the new revision keeps every column of the one that was read but source type, locator and status, and its evidence; and the read that gives its result |
| `Knowledge.KnowledgeRepository.EnsureWikiMetadata` | backend/career_harness/db/knowledge_repository.py:945-972 | returns the page's slug, probing for a free one when there is no page |
| `Knowledge.KnowledgeRepository.ProposeWikiOperation` | backend/career_harness/db/knowledge_repository.py:974-1069 | stores the operation after its checks, blank requester included, making the target's page on the way; a refusal leaves the tables as they were, and the invariant holds |
| `Knowledge.KnowledgeRepository.ReviewWikiOperation` | backend/career_harness/db/knowledge_repository.py:1085-1244 | decides the operation and applies an approved one, or refuses, blank reviewer and reason and an unreadable current revision included, with the tables as they were; the invariant holds and no revision is lost |
| `Knowledge.KnowledgeRepository.ApplyOperation` | backend/career_harness/db/knowledge_repository.py:1117-1223 | move, archive or rename keeps the invariant, loses no revision and touches no other page; only a rename can fail or add a revision |
| `Knowledge.KnowledgeRepository.ApplyRename` | backend/career_harness/db/knowledge_repository.py:1144-1223 | slug first, then title, with the invariant kept and every other page as it was; fails for a slug in use or a current revision that cannot be read |
| `Knowledge.KnowledgeRepository.SetSlug` | backend/career_harness/db/knowledge_repository.py:1144-1160 | succeeds if and only if no other page has the slug; slugs stay unique, and nothing but this page's slug changes |
| `Knowledge.KnowledgeRepository.SetTitle` | backend/career_harness/db/knowledge_repository.py:1161-1223 | a new title is a new revision with the content and evidence of the current one, which has to be readable |
| `Knowledge.KnowledgeRepository.RebuildIndex` | backend/career_harness/db/knowledge_repository.py:1378-1390 | changes nothing and counts the revisions it went through |
| `SourceReading.Handle.Read` | importers/agent_radar/inventory.py:203 | a read returns at most what it is asked for, in order, and nothing only at the end |
| `SourceReading.ReadSourceBytes` | importers/agent_radar/inventory.py:174-211 | for every pattern of short reads at most one byte more than expected is consumed, and the bytes are returned if and only if size, time and digest are as expected |
| `Archive.LocationInjective` | importers/agent_radar/archive.py:46-47 | different digests have different locations |
| `Archive.PreservedWasInspected` | importers/agent_radar/archive.py:127-159 | given its selection, an entry is preserved if and only if it was inspected, permitted by name, free of credential markers, and read with the inventory's size and digest |
| `Archive.SelectionForIff` | importers/agent_radar/archive.py:118 | the selection looked up for a path is the one that names this path, and none when none does |
| `Archive.EntryIsMadeIff` | importers/agent_radar/archive.py:126-159 | an entry is made, and the run not stopped, unless an exception is asked for that does not fit, or a file that is to be read is not as the inventory says |
| `Archive.DispositionIs` | importers/agent_radar/archive.py:127-159 | excluded by name, else deferred when nobody selected and inspected the file, else excluded for a credential marker or preserved |
| `Archive.EntryColumnsAre` | importers/agent_radar/archive.py:127-170 | class and exception are those of the file's own selection, and an entry has a location exactly when it is preserved, at the address of its digest |
| `Archive.PreservedWereSelected` | importers/agent_radar/archive.py:118-170 | every preserved entry has an inspected selection of its own path among those given |
| `Archive.LoadSucceeds` | importers/agent_radar/archive.py:179-206 | an index whose entries pass and follow the inventory loads as itself |
| `Archive.EntryPassesIff` | importers/agent_radar/archive.py:179-206 | an entry passes if and only if it is not preserved and has no location, or is permitted, at the address of its digest, and has bytes there of its digest and size |
| `Archive.LoadsIff` | importers/agent_radar/archive.py:179-206 | a digest loads if and only if it is that of a stored index whose inventory is stored, and the entries are the inventory's files one by one and pass |
| `Archive.LoadedIndexStaysLoaded` | importers/agent_radar/archive.py:179-206 | later puts never break a loaded index, and each preserved entry's stored bytes have its digest and size |
| `Archive.ArtifactStore.Put` | importers/agent_radar/archive.py:66-73 | stores the content at its address and verifies it, or refuses a credential or a location that holds something else |
| `Archive.ArtifactStore.ArchiveEntries` | importers/agent_radar/archive.py:126-170 | one entry per source in order, each passing the verifier; succeeds exactly when every entry can be made and every preserved content stored, and then nothing is stored but preserved contents |
| `Archive.ArtifactStore.PutIndex` | importers/agent_radar/archive.py:173-176 | inventory and index are stored and verify, exactly when neither is a credential nor finds something else at its address |
| `Archive.ArtifactStore.ArchiveInventory` | importers/agent_radar/archive.py:105-176 | returns exactly when roots, selections, metadata, entries and store are as they must be; then every preserved entry was selected by its own path and inspected, and loading the returned digest gives the returned index |
| `Rehearsal.UpsertAllIff` | importers/agent_radar/rehearsal.py:77-85 | a list of rows goes in if and only if no key has two rows and every new row passes its checks, and then the tables hold the old rows and the list |
| `Rehearsal.ImportKeepsProvenance` | importers/agent_radar/rehearsal.py:104-120 | the validation after the upserts never fails when the one before them passed |
| `Rehearsal.ImportSucceedsIff` | importers/agent_radar/rehearsal.py:123-194 | a verified index is imported into any tables if and only if its inventory names its time zone, the tables are complete, no row of a preserved entry is there with other columns, and new locators fit |
| `Rehearsal.ImportErrorIs` | importers/agent_radar/rehearsal.py:123-134 | a verified index is refused for its time zone, then for tables that are not complete, and otherwise only for a row that conflicts or fails a check |
| `Rehearsal.ImportStores` | importers/agent_radar/rehearsal.py:135-186 | for every preserved entry the artifact, source, snapshot and reference with its digest, class, size, locator, selector and the inventory's time; what the tables held stays, and there is nothing else |
| `Rehearsal.ImportedArtifactsAreStored` | importers/agent_radar/rehearsal.py:123-194 | every artifact row that an import adds has bytes in the store of its digest and length |
| `Rehearsal.VerifiedPairsAreFunctional` | importers/agent_radar/rehearsal.py:135-186 | the rows of a verified index never conflict with each other, because sizes were checked against stored bytes |
| `Rehearsal.FreshImportIff` | importers/agent_radar/rehearsal.py:123-194 | a verified index is imported into a fresh database if and only if its preserved paths fit the locator column, and never fails by a conflict |
| `Rehearsal.LongPathLoadsButIsNotImported` | importers/agent_radar/rehearsal.py:123-194 | an inventory of one path with more than 1966 characters before any NUL: its index loads, and its import fails on a check |
| `Rehearsal.ImportIsIdempotent` | importers/agent_radar/rehearsal.py:123-194 | importing again succeeds and changes nothing |
| `Rehearsal.ImportIgnoresOrder` | importers/agent_radar/rehearsal.py:135-186 | the rows depend only on the set of preserved entries |
| `Rehearsal.RehearsalDatabase.ImportArchive` | importers/agent_radar/rehearsal.py:123-194 | the imported tables, or the first error with the tables unchanged |
| `Rehearsal.RehearsalDatabase.UpsertEntries` | importers/agent_radar/rehearsal.py:135-186 | the loop over entries upserts the rows of all preserved ones in order |
| `RehearsalRun.Import` | importers/agent_radar/rehearsal.py:197-203 | an import and the report drawn from the index and the tables |
| `RehearsalRun.ImportAndRebuild` | importers/agent_radar/rehearsal.py:197-209 | a second import and an import elsewhere report what the first did |
| `RehearsalRun.ReportIs` | importers/agent_radar/rehearsal.py:197-203 | each number of the report is the number of entries of that disposition, or of rows of that table |
| `RehearsalRun.BackUpAndRestore` | importers/agent_radar/rehearsal.py:210-215 | the restored database holds the same rows and the restored store the same files |
| `RehearsalRun.RunRehearsal` | importers/agent_radar/rehearsal.py:197-219 | once the first import succeeds none of the later checks can fail: reimport, rebuild, restored rows, or import from the restored copies; an existing root is refused |
| `Paths.StayingLandsBelow` | backend/career_harness/db/backup.py:131-133 | a path that never climbs above the directory it is joined to lands below it, at the same place seen from any directory, and passes only places below it |
| `Paths.LandsInsideIff` | backend/career_harness/db/backup.py:131-133 | a path that does not mention a directory's own name lands below it if and only if it never climbs out of it |
| `Disks.WalkableIff` | backend/career_harness/db/backup.py:131-133 | a path can be opened if and only if each of its steps up is taken from a directory |
| `Backup.BackupVerifies` | backend/career_harness/db/backup.py:109-112 | what a backup leaves behind verifies if and only if the database passes the integrity check |
| `Backup.Volume.CreateBackup` | backend/career_harness/db/backup.py:78-112 | refuses an occupied destination, succeeds exactly for an integral database, and then adds image and artifacts below the destination and nothing else |
| `Backup.Volume.CopyArtifactFiles` | backend/career_harness/db/backup.py:93-99 | the copy loop puts every artifact at its relative path, overwrites nothing, and lists each once with its digest |
| `Backup.Volume.CopyAndCommit` | backend/career_harness/db/backup.py:162-177 | copies, checks and renames, and stops where a step fails, as the specification of the try block says |
| `Backup.Volume.CopyArtifacts` | backend/career_harness/db/backup.py:167-173 | the loop copies each artifact to where its path lands, in the temporary directory or elsewhere on the disk, and stops at the first that fails |
| `Backup.Volume.CleanUp` | backend/career_harness/db/backup.py:178-184 | no temporary is left, and committed artifacts are taken back when the database was not committed |
| `Backup.Volume.RestoreBackup` | backend/career_harness/db/backup.py:142-184 | the whole call is the function that the following rows are about |
| `Restoring.ConfinedIsAllOrNothing` | backend/career_harness/db/backup.py:142-184 | if every manifest path stays inside and neither target lies in the other, then on every medium a failure changes no file and makes neither target, and a success adds the two targets with the manifest's digests and changes no other file |
| `Restoring.FaultlessRestores` | backend/career_harness/db/backup.py:142-184 | such a restore of sources that can be opened succeeds on a medium without faults, with the contents of the backup |
| `Restoring.ConfinedSucceedsIff` | backend/career_harness/db/backup.py:142-184 | a confined restore whose sources can be opened succeeds if and only if no step fails and every copy writes bytes of the manifest's digest |
| `Restoring.SuccessMeansNoFault` | backend/career_harness/db/backup.py:142-184 | for every manifest and medium: a restore that succeeds had no failing step, no absolute path, and no database inside of the artifacts |
| `Restoring.SuccessMeansVerified` | backend/career_harness/db/backup.py:121-145 | for every manifest and medium: a restore that succeeds found the database, openable, integral and of its digest, every artifact inside of the backup and of its digest, and nothing at its targets |
| `Restoring.RestoresSoundlyIffConfined` | backend/career_harness/db/backup.py:121-184 | a verified backup is restored all or nothing on every medium, and restored without faults, if and only if its paths stay inside and can be opened and the targets lie apart |
| `Restoring.StrayIsLeft` | backend/career_harness/db/backup.py:167-173 | for the first path that leaves its directory there is a medium on which the restore fails and a file elsewhere has changed |
| `Restoring.NestedTargetIsLeft` | backend/career_harness/db/backup.py:149-150 | a failure after the parents were made leaves a target that contains the other |
| `Restoring.ClimbingPathLeavesTarget` | backend/career_harness/db/backup.py:131-184 | the path ../artifacts/x verifies, and its restore fails without any fault and leaves the target behind |
| `Restoring.ClimbingPathIsRestoredElsewhere` | backend/career_harness/db/backup.py:131-184 | the same backup restored to another target succeeds without its artifact, which lands beside the target |
| `Restoring.TemporaryIsLeftIff` | backend/career_harness/db/backup.py:151-184 | a temporary file is left if and only if making the second temporary failed, and there is a medium on which it does |
| `Restoring.CreatedBackupsAreConfined` | backend/career_harness/db/backup.py:93-106 | every manifest written by a backup has only paths that stay inside and can be opened |
| `Restoring.RestoredContentsAreBackedUp` | backend/career_harness/db/backup.py:162-177 | with a digest that tells contents apart, a successful restore holds the very contents of the backup, whatever the medium wrote |
| `Restoring.RoundTrip` | backend/career_harness/db/backup.py:78-184 | restoring what was just backed up gives back the database and the artifacts, and every file outside destination and targets is as it was |
| `Reconciliation.FlatCount` | importers/agent_radar/reconcile.py:14-34 | what a list built key by key holds of an item is what the part of the item's own key holds |
| `Reconciliation.BuildReconciliation` | importers/agent_radar/reconcile.py:8-34 | the dictionary and record loops yield the records key by key in ascending order |
| `Reconciliation.RecordedIffContradicted` | importers/agent_radar/reconcile.py:8-34 | a file is recorded, exactly as often as the manifest lists it, if and only if another file has its key and a different hash |
| `Reconciliation.ReconcileSummary` | importers/agent_radar/reconciliation_summary.py:27-71 | the three dictionaries filled in one loop yield the four lists of groups |
| `Reconciliation.GroupByKey` | importers/agent_radar/reconciliation_summary.py:50-60 | the loop over keys yields the conflict groups and the same-hash groups |
| `Reconciliation.RecordsAreTheConflicts` | importers/agent_radar/reconciliation_summary.py:50-55 | the report's records and the summary's conflict groups name the same files under the same keys, equally often |
| `Reconciliation.SameGroupMembers` | importers/agent_radar/reconciliation_summary.py:56-60 | the same-hash groups hold exactly the files that share key and hash with another place in the manifest |
| `Reconciliation.SharedMembers` | importers/agent_radar/reconciliation_summary.py:64-70 | groups by hash or family hold exactly the files that share it with another |
| `TextOrder.SortedIsSorted` | importers/agent_radar/reconciliation_summary.py:46 | sorting orders the same texts, as often as they occur |
| `TextOrder.AscendingIsUnique` | backend/career_harness/db/evidence_repository.py:38 | a set of texts has one ascending list |
| `TextOrder.BeforeIff` | backend/career_harness/db/evidence_repository.py:38 | a text comes before another if and only if, where they first differ, it ends or has the smaller character |
| `EvidenceTables.HistoryKeepsInv` | migrations/versions/0007_evidence_provenance.py:15-88 | over every history of inserts, whoever writes, every row meets its checks, every snapshot has its source and artifact, every reference has a snapshot of the artifact it names, and no row changes |
| `EvidenceTables.CheckedRowsAreValidIffFit` | backend/career_harness/core/evidence/models.py:31-57 | of rows that pass the checks, the records accept exactly those whose identifiers have their form, whose media type has at most 255 characters, and whose other texts hide nothing behind a NUL |
| `Identifiers.OpaqueIdIff` | backend/career_harness/core/common.py:9 | an identifier has three to 128 characters, of which the first is a letter and the others letters, digits, dashes or underscores |
| `EvidenceTables.ChecksOfTextsWithoutNul` | migrations/versions/0007_evidence_provenance.py:15-88 | of texts without a NUL the checks let pass exactly the lengths that the records take, except for the media type |
| `EvidenceTables.ReaderRaisesIff` | backend/career_harness/db/evidence_repository.py:54-70 | in every database that inserts can reach no reference misses a row; reading one raises if and only if an identifier or a text does not fit, and the answer is the same after every later history |
| `EvidenceTables.LongMediaTypeIsTakenButNotRead` | migrations/versions/0007_evidence_provenance.py:26-29 | four accepted inserts after which the reader raises: a media type of 256 characters |
| `EvidencePages.EvidenceRepository.Get` | backend/career_harness/db/evidence_repository.py:54-70 | raises exactly for a reference whose snapshot, source, artifact or record is not complete, and names what is missing |
| `EvidencePages.EvidenceRepository.ReadPage` | backend/career_harness/db/evidence_repository.py:33-52 | returns the page for exactly the accepted limits and cursors whose references are complete, each item with its joined provenance; else the query's error or that of the first incomplete reference |
| `EvidencePages.EvidenceRepository.ReadAll` | backend/career_harness/db/evidence_repository.py:33-52 | following the cursors through a fixed table ends and returns every reference once in ascending order, if and only if the limit is accepted and every reference is complete |
| `EvidencePages.PageMeaning` | backend/career_harness/db/evidence_repository.py:38-52 | a page holds the first references after the cursor; the next cursor is the last of them, present exactly when more remain |
| `EvidencePages.NextCursorIsAccepted` | backend/career_harness/db/evidence_repository.py:36-37 | a cursor that a page returns is accepted by the next call |
| `EvidencePages.GrowingTraversalVisitsOnce` | backend/career_harness/db/evidence_repository.py:33-52 | however the table grows between pages, no reference is visited twice, the order is kept, and a traversal that reaches its end visited every reference present at the start |
| `EvidencePages.FixedTraversal` | backend/career_harness/db/evidence_repository.py:33-52 | through a fixed table the cursors end, within one page more than there are references, and visit each exactly once in ascending order |

## Left out

- FastAPI routers, configuration, runtime wiring, the desktop client and scripts: no property that spans operations.
- SQLite, SQLAlchemy and Alembic themselves; a transaction is one step and a failed one is rolled back by its opener.
- SHA-256, UUIDs, JSON, Pydantic parsing and regular expressions are parameters; the prompt-injection, credential and name patterns are not modelled character by character.
- JSON types and foreign keys to capability identities: they can only refuse more writes; and JSON columns are taken to parse again when they are read.
- The form of identifiers in communication drafts, memory and match assessments; job, fact, evidence and knowledge records have it among their validators.
- Columns are taken to hold values of their declared types, which SQLite alone does not enforce, and content digests of knowledge revisions come from the digest function.
- `INSERT OR REPLACE`: SQLite then deletes the replaced row without firing delete triggers unless `recursive_triggers` is on, and backend/career_harness/db/session.py:18-22 turns on foreign keys only. The histories of inserts take it that nobody writes that way to the immutable tables, as no code of the repository does.
- Domain events, timestamps other than those a property mentions, confidence values, labels, created-by columns and artifact ids of knowledge revisions, reviewers and reasons of knowledge proposals and wiki operations, chunk ids, chunk hashes and token counts.
- `Similarity.CosineIsBounded`: over the reals, with the norms as exact square roots; floating-point rounding is not modelled, and case folding is done before the text is handed over.
- Knowledge search paging (results are sorted by score while the cursor filters by id), links, the wiki graph and health reports, and the line diff.
- Acyclic wiki parents: only a page's being its own parent is refused, by the code and by the model.
- Memory search, affinity and consolidation: filters over confirmed rows, with no state of their own.
- Links, reparse points and pinned handles, and concurrent changes while a source file is read.
- The location guards of the rehearsal database, and the report file written at the end; the rehearsal's databases are tables, not files, and its root lies outside the store.
- `Backup.Volume.CreateBackup`: is given the image that SQLite's backup wrote, lists the artifacts in any order (the code sorts them), takes no faults, and leaves out the manifest file and its JSON form; restoring is given the manifest itself.
- `Backup.Volume.RestoreBackup`: paths are those of POSIX without links. Whatever else the file system refuses, a file in the way of a directory for instance, is a failing step of the medium; making the parents of a target fails as a whole; removals never fail; nobody else writes to the disk; and the drawn names are fresh where a theorem asks for it (`Fresh`).
- `BrandIcon.Flood`: an image without pixels, which the image library does not open, is excluded.
- The rendered reconciliation report, the snapshot list of the summary and the fixed texts of a record; the version family of a file is a parameter.
- The remaining migrations and the validators in `core/lifecycle.py`: single-branch facts.
