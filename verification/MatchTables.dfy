/** Match assessments: staging an aggregate of results and gaps, and reading it back. */
module MatchTables {
  import opened Revisions
  import opened Wrappers

  datatype Classification = Covered | QuickToStrengthen | ClearGap

  datatype NodeRef = NodeRef(capabilityId: string, graphVersionId: string)

  /** A requirement as frozen in the manifest. */
  datatype RequirementRef = RequirementRef(key: Rev, node: NodeRef, scopes: set<string>)

  /** The parts of the manifest that no check looks at are one text. */
  datatype Manifest = Manifest(opportunity: Rev, job: Rev, requirements: seq<RequirementRef>,
                               officialCapabilities: seq<NodeRef>,
                               personalStateCandidates: seq<string>, policyVersion: string, rest: string)

  datatype MatchResult = MatchResult(key: Rev, classification: Classification, coveredScopes: seq<string>,
                                     missingScopes: seq<string>, reasons: seq<string>)

  datatype Gap = Gap(gapId: string, assessmentId: string, key: Rev, capabilityId: string,
                     classification: Classification)

  /** What is staged: the assessment, its identity and its gaps. */
  datatype Assessment = Assessment(assessmentId: string, candidateId: string, manifest: Manifest,
                                   results: seq<MatchResult>, gaps: seq<Gap>)

  datatype HeaderRow = HeaderRow(opportunity: Rev, job: Rev, candidateId: string, policyVersion: string,
                                 manifestText: string)

  datatype ResultKey = ResultKey(assessmentId: string, key: Rev)

  datatype ResultRow = ResultRow(capabilityId: string, result: MatchResult)

  datatype RequirementRow = RequirementRow(accepted: bool, job: Rev, node: NodeRef, scopes: set<string>)

  /** The tables that matching only reads. */
  datatype Canon = Canon(opportunityJobs: map<string, Rev>, opportunityRevisions: set<Rev>, jobRevisions: set<Rev>,
                         capabilityNodes: set<NodeRef>, requirements: map<Rev, RequirementRow>)

  type ResultRows = map<ResultKey, ResultRow>

  type GapRows = map<string, Gap>

  datatype Db = Db(canon: Canon, headers: map<string, HeaderRow>, results: ResultRows, gaps: GapRows)

  /** The canonical JSON of a manifest, its parser, and the JSON of a list of reasons. */
  datatype Codec = Codec(write: Manifest -> string, parse: string -> Option<Manifest>,
                         writeReasons: seq<string> -> string)

  ghost predicate ValidCodec(c: Codec) {
    forall m :: c.parse(c.write(m)) == Some(m)
  }

  // ---- Dictionaries built from lists, the last entry of a key winning ----

  function LastByKey<T>(items: seq<T>, keyOf: T -> Rev): (m: map<Rev, T>)
    ensures forall k :: k in m ==> m[k] in items && keyOf(m[k]) == k
    ensures forall x :: x in items ==> keyOf(x) in m
  {
    if items == [] then map[]
    else
      var last := items[|items| - 1];
      LastByKey(items[..|items| - 1], keyOf)[keyOf(last) := last]
  }

  function RefKey(r: RequirementRef): Rev { r.key }

  function ResultKeyOf(r: MatchResult): Rev { r.key }

  function RefsByKey(refs: seq<RequirementRef>): map<Rev, RequirementRef> {
    LastByKey(refs, RefKey)
  }

  function ResultsByKey(results: seq<MatchResult>): map<Rev, MatchResult> {
    LastByKey(results, ResultKeyOf)
  }

  /** The last requirement of the manifest with that key. */
  ghost predicate LastRef(refs: seq<RequirementRef>, key: Rev, ref: RequirementRef) {
    exists i :: 0 <= i < |refs| && refs[i] == ref && ref.key == key && forall j :: i < j < |refs| ==> refs[j].key != key
  }

  lemma LastRefOfLonger(front: seq<RequirementRef>, last: RequirementRef, key: Rev, ref: RequirementRef)
    requires LastRef(front, key, ref) && last.key != key
    ensures LastRef(front + [last], key, ref)
  {
    var refs := front + [last];
    var i :| 0 <= i < |front| && front[i] == ref && ref.key == key
             && forall j :: i < j < |front| ==> front[j].key != key;
    assert refs[i] == ref && forall j :: i < j < |refs| ==> refs[j].key != key;
  }

  lemma {:induction false} RefsByKeyAreLast(refs: seq<RequirementRef>, key: Rev)
    ensures key in RefsByKey(refs) ==> LastRef(refs, key, RefsByKey(refs)[key])
    ensures key !in RefsByKey(refs) ==> forall ref :: !LastRef(refs, key, ref)
    decreases |refs|
  {
    forall ref | LastRef(refs, key, ref) ensures key in RefsByKey(refs) { assert ref in refs; }
    if refs != [] {
      var front, last := refs[..|refs| - 1], refs[|refs| - 1];
      if last.key == key {
        assert refs[|refs| - 1] == last;
      } else {
        RefsByKeyAreLast(front, key);
        hide LastRef;
        assert front + [last] == refs;
        if key in RefsByKey(front) { LastRefOfLonger(front, last, key, RefsByKey(front)[key]); }
      }
    }
  }

  lemma LastRefIsUnique(refs: seq<RequirementRef>, key: Rev, a: RequirementRef, b: RequirementRef)
    requires LastRef(refs, key, a) && LastRef(refs, key, b)
    ensures a == b
  {
  }

  predicate DistinctKeys(results: seq<MatchResult>) {
    forall i, j :: 0 <= i < j < |results| ==> results[i].key != results[j].key
  }

  lemma KeysIdentify(results: seq<MatchResult>, r: MatchResult, s: MatchResult)
    requires DistinctKeys(results) && r in results && s in results && r.key == s.key
    ensures r == s
  {
  }

  // ---- Validation ----

  datatype Error =
    | WrongRevision | NoOpportunity | OtherJob | NoOpportunityRevision | NoJob | NoCapability | OtherCandidate
    | UnknownRequirement | NoRequirement | NotAccepted | OtherJobRevision | OtherCapability | OtherGraphVersion
    | DriftedScopes
    | DuplicateGapIds | ForeignGap | GapWithoutResult | GapForCovered | OtherClassification | MissingGap
    | ConstraintViolated

  /** What the types of an assessment and of a gap guarantee before anything is staged. */
  ghost predicate WellFormed(a: Assessment) {
    && a.results != [] && DistinctKeys(a.results)
    && ResultsByKey(a.results).Keys == RefsByKey(a.manifest.requirements).Keys
    && (forall g :: g in a.gaps ==> g.classification != Covered)
  }

  function InputError(db: Canon, a: Assessment): Option<Error> {
    var m := a.manifest;
    if m.opportunity.id !in db.opportunityJobs then Some(NoOpportunity)
    else if db.opportunityJobs[m.opportunity.id] != m.job then Some(OtherJob)
    else if m.opportunity !in db.opportunityRevisions then Some(NoOpportunityRevision)
    else if m.job !in db.jobRevisions then Some(NoJob)
    else if exists n :: n in m.officialCapabilities && n !in db.capabilityNodes then Some(NoCapability)
    else if exists candidate :: candidate in m.personalStateCandidates && candidate != a.candidateId then
      Some(OtherCandidate)
    else None
  }

  function ResultError(db: Canon, job: Rev, refs: map<Rev, RequirementRef>, r: MatchResult): Option<Error> {
    if r.key !in refs then Some(UnknownRequirement)
    else if r.key !in db.requirements then Some(NoRequirement)
    else
      var row, ref := db.requirements[r.key], refs[r.key];
      if !row.accepted then Some(NotAccepted)
      else if row.job != job then Some(OtherJobRevision)
      else if row.node.capabilityId != ref.node.capabilityId then Some(OtherCapability)
      else if row.node.graphVersionId != ref.node.graphVersionId then Some(OtherGraphVersion)
      else if row.scopes != ref.scopes then Some(DriftedScopes)
      else None
  }

  function ResultsError(db: Canon, job: Rev, refs: map<Rev, RequirementRef>, results: seq<MatchResult>): Option<Error> {
    if results == [] then None
    else
      var earlier := ResultsError(db, job, refs, results[..|results| - 1]);
      if earlier.Some? then earlier else ResultError(db, job, refs, results[|results| - 1])
  }

  function GapError(id: string, refs: map<Rev, RequirementRef>, results: map<Rev, MatchResult>, g: Gap): Option<Error> {
    if g.assessmentId != id then Some(ForeignGap)
    else if g.key !in results then Some(GapWithoutResult)
    else if results[g.key].classification == Covered then Some(GapForCovered)
    else if g.classification != results[g.key].classification then Some(OtherClassification)
    else if g.key !in refs then Some(UnknownRequirement)
    else if g.capabilityId != refs[g.key].node.capabilityId then Some(OtherCapability)
    else None
  }

  function GapsError(id: string, refs: map<Rev, RequirementRef>, results: map<Rev, MatchResult>,
                     gaps: seq<Gap>): Option<Error>
  {
    if gaps == [] then None
    else
      var earlier := GapsError(id, refs, results, gaps[..|gaps| - 1]);
      if earlier.Some? then earlier else GapError(id, refs, results, gaps[|gaps| - 1])
  }

  predicate DistinctGapIds(gaps: seq<Gap>) {
    forall i, j :: 0 <= i < j < |gaps| ==> gaps[i].gapId != gaps[j].gapId
  }

  function GapKeys(gaps: seq<Gap>): set<Rev> {
    set g <- gaps :: g.key
  }

  function ExpectedGapKeys(results: map<Rev, MatchResult>): set<Rev> {
    set k <- results | results[k].classification != Covered
  }

  function AllGapsError(id: string, refs: map<Rev, RequirementRef>, results: map<Rev, MatchResult>,
                        gaps: seq<Gap>): Option<Error>
  {
    if !DistinctGapIds(gaps) then Some(DuplicateGapIds)
    else if GapsError(id, refs, results, gaps).Some? then GapsError(id, refs, results, gaps)
    else if GapKeys(gaps) != ExpectedGapKeys(results) then Some(MissingGap)
    else None
  }

  function ValidationError(db: Canon, a: Assessment): Option<Error> {
    var refs := RefsByKey(a.manifest.requirements);
    if InputError(db, a).Some? then InputError(db, a)
    else if ResultsError(db, a.manifest.job, refs, a.results).Some? then
      ResultsError(db, a.manifest.job, refs, a.results)
    else AllGapsError(a.assessmentId, refs, ResultsByKey(a.results), a.gaps)
  }

  lemma {:induction false} ResultsErrorIff(db: Canon, job: Rev, refs: map<Rev, RequirementRef>,
                                           results: seq<MatchResult>)
    ensures ResultsError(db, job, refs, results).None? <==>
              forall r :: r in results ==> ResultError(db, job, refs, r).None?
  {
    if results != [] {
      assert results == results[..|results| - 1] + [results[|results| - 1]];
      ResultsErrorIff(db, job, refs, results[..|results| - 1]);
    }
  }

  lemma {:induction false} GapsErrorIff(id: string, refs: map<Rev, RequirementRef>, results: map<Rev, MatchResult>,
                                        gaps: seq<Gap>)
    ensures GapsError(id, refs, results, gaps).None? <==> forall g :: g in gaps ==> GapError(id, refs, results, g).None?
  {
    if gaps != [] {
      assert gaps == gaps[..|gaps| - 1] + [gaps[|gaps| - 1]];
      GapsErrorIff(id, refs, results, gaps[..|gaps| - 1]);
    }
  }

  // ---- What passing means ----

  /** The inputs pass when the opportunity is known, is for the manifest's job, and both exist in the revisions
      named, every capability is an official one, and every personal state is the candidate's own. */
  lemma InputErrorIff(db: Canon, a: Assessment)
    ensures InputError(db, a).None? <==>
              && a.manifest.opportunity.id in db.opportunityJobs
              && db.opportunityJobs[a.manifest.opportunity.id] == a.manifest.job
              && a.manifest.opportunity in db.opportunityRevisions && a.manifest.job in db.jobRevisions
              && (forall n :: n in a.manifest.officialCapabilities ==> n in db.capabilityNodes)
              && (forall owner :: owner in a.manifest.personalStateCandidates ==> owner == a.candidateId)
  {
  }

  lemma InputRefusedFor(db: Canon, a: Assessment)
    requires InputError(db, a).Some?
    ensures var m := a.manifest;
            InputError(db, a).value
            == if m.opportunity.id !in db.opportunityJobs then NoOpportunity
               else if db.opportunityJobs[m.opportunity.id] != m.job then OtherJob
               else if m.opportunity !in db.opportunityRevisions then NoOpportunityRevision
               else if m.job !in db.jobRevisions then NoJob
               else if exists n :: n in m.officialCapabilities && n !in db.capabilityNodes then NoCapability
               else OtherCandidate
  {
  }

  /** The persisted requirement is accepted, belongs to the frozen job, and has the manifest's capability and scopes. */
  ghost predicate ResultAgrees(db: Canon, m: Manifest, r: MatchResult) {
    exists ref :: && LastRef(m.requirements, r.key, ref) && r.key in db.requirements
                  && db.requirements[r.key] == RequirementRow(true, m.job, ref.node, ref.scopes)
  }

  lemma ResultErrorIff(db: Canon, m: Manifest, r: MatchResult)
    ensures ResultError(db, m.job, RefsByKey(m.requirements), r).None? <==> ResultAgrees(db, m, r)
  {
    RefsByKeyAreLast(m.requirements, r.key);
    if ResultAgrees(db, m, r) {
      var ref :| LastRef(m.requirements, r.key, ref) && r.key in db.requirements
                 && db.requirements[r.key] == RequirementRow(true, m.job, ref.node, ref.scopes);
      LastRefIsUnique(m.requirements, r.key, ref, RefsByKey(m.requirements)[r.key]);
    }
    hide LastRef, RefsByKey;
  }

  lemma ResultRefusedFor(db: Canon, m: Manifest, r: MatchResult)
    requires ResultError(db, m.job, RefsByKey(m.requirements), r).Some?
    ensures var error := ResultError(db, m.job, RefsByKey(m.requirements), r).value;
            && (error == UnknownRequirement <==> forall ref :: !LastRef(m.requirements, r.key, ref))
            && forall ref :: LastRef(m.requirements, r.key, ref) ==>
                 error == if r.key !in db.requirements then NoRequirement
                          else if !db.requirements[r.key].accepted then NotAccepted
                          else if db.requirements[r.key].job != m.job then OtherJobRevision
                          else if db.requirements[r.key].node.capabilityId != ref.node.capabilityId then OtherCapability
                          else if db.requirements[r.key].node.graphVersionId != ref.node.graphVersionId then
                            OtherGraphVersion
                          else DriftedScopes
  {
    RefsByKeyAreLast(m.requirements, r.key);
    forall ref | LastRef(m.requirements, r.key, ref)
      ensures r.key in RefsByKey(m.requirements) && ref == RefsByKey(m.requirements)[r.key]
    {
      LastRefIsUnique(m.requirements, r.key, ref, RefsByKey(m.requirements)[r.key]);
    }
    hide LastRef, RefsByKey;
  }

  /** The gap is of this assessment and one of its results that is not covered, and keeps that result's
      classification and the requirement's capability. */
  ghost predicate GapAgrees(a: Assessment, g: Gap) {
    && g.assessmentId == a.assessmentId && g.classification != Covered
    && (exists r :: r in a.results && r.key == g.key && r.classification == g.classification)
    && exists ref :: LastRef(a.manifest.requirements, g.key, ref) && ref.node.capabilityId == g.capabilityId
  }

  lemma ResultsByKeyAre(results: seq<MatchResult>, r: MatchResult)
    requires DistinctKeys(results) && r in results
    ensures r.key in ResultsByKey(results) && ResultsByKey(results)[r.key] == r
  {
    KeysIdentify(results, r, ResultsByKey(results)[r.key]);
  }

  lemma GapErrorIff(a: Assessment, g: Gap)
    requires DistinctKeys(a.results)
    ensures GapError(a.assessmentId, RefsByKey(a.manifest.requirements), ResultsByKey(a.results), g).None? <==>
              GapAgrees(a, g)
  {
    var refs := a.manifest.requirements;
    RefsByKeyAreLast(refs, g.key);
    if GapAgrees(a, g) {
      var r :| r in a.results && r.key == g.key && r.classification == g.classification;
      ResultsByKeyAre(a.results, r);
      var ref :| LastRef(refs, g.key, ref) && ref.node.capabilityId == g.capabilityId;
      LastRefIsUnique(refs, g.key, ref, RefsByKey(refs)[g.key]);
    }
    hide LastRef, RefsByKey, DistinctKeys;
  }

  lemma GapRefusedFor(a: Assessment, g: Gap)
    requires DistinctKeys(a.results)
    requires GapError(a.assessmentId, RefsByKey(a.manifest.requirements), ResultsByKey(a.results), g).Some?
    ensures var error := GapError(a.assessmentId, RefsByKey(a.manifest.requirements), ResultsByKey(a.results), g).value;
            && (error == ForeignGap <==> g.assessmentId != a.assessmentId)
            && (error == GapWithoutResult <==>
                  g.assessmentId == a.assessmentId && forall r :: r in a.results ==> r.key != g.key)
            && forall r :: r in a.results && r.key == g.key && g.assessmentId == a.assessmentId ==>
                 if r.classification == Covered then error == GapForCovered
                 else if g.classification != r.classification then error == OtherClassification
                 else error == UnknownRequirement || error == OtherCapability
  {
    forall r | r in a.results && r.key == g.key
      ensures g.key in ResultsByKey(a.results) && ResultsByKey(a.results)[g.key] == r
    {
      ResultsByKeyAre(a.results, r);
    }
    hide RefsByKey, ResultsByKey, DistinctKeys;
  }

  lemma GapKeyIsExpected(a: Assessment, g: Gap)
    requires DistinctKeys(a.results) && g in a.gaps && GapAgrees(a, g)
    ensures g.key in ExpectedGapKeys(ResultsByKey(a.results))
  {
    var r :| r in a.results && r.key == g.key && r.classification == g.classification;
    ResultsByKeyAre(a.results, r);
    hide ResultsByKey, LastRef;
  }

  predicate HasGap(gaps: seq<Gap>, key: Rev) {
    exists g :: g in gaps && g.key == key
  }

  lemma ExpectedKeyIsUncovered(a: Assessment, key: Rev)
    requires DistinctKeys(a.results)
    ensures key in ExpectedGapKeys(ResultsByKey(a.results)) <==>
              exists r :: r in a.results && r.key == key && r.classification != Covered
  {
    if r :| r in a.results && r.key == key && r.classification != Covered { ResultsByKeyAre(a.results, r); }
    if key in ResultsByKey(a.results) { assert ResultsByKey(a.results)[key] in a.results; }
    hide ResultsByKey;
  }

  /** Of gaps that agree, the keys are the expected ones when every result that is not covered has a gap. */
  lemma GapKeysIff(a: Assessment)
    requires DistinctKeys(a.results) && forall g :: g in a.gaps ==> GapAgrees(a, g)
    ensures GapKeys(a.gaps) == ExpectedGapKeys(ResultsByKey(a.results)) <==>
              forall r :: r in a.results && r.classification != Covered ==> HasGap(a.gaps, r.key)
  {
    var expected := ExpectedGapKeys(ResultsByKey(a.results));
    forall k
      ensures k in expected <==> exists r :: r in a.results && r.key == k && r.classification != Covered
      ensures k in GapKeys(a.gaps) <==> HasGap(a.gaps, k)
      ensures HasGap(a.gaps, k) ==> k in expected
    {
      ExpectedKeyIsUncovered(a, k);
      if g :| g in a.gaps && g.key == k { GapKeyIsExpected(a, g); }
    }
    hide ResultsByKey, ExpectedGapKeys, GapKeys, HasGap, GapAgrees, DistinctKeys;
    if forall r :: r in a.results && r.classification != Covered ==> HasGap(a.gaps, r.key) {
      assert GapKeys(a.gaps) == expected;
    }
    if GapKeys(a.gaps) == expected {
      forall r | r in a.results && r.classification != Covered ensures HasGap(a.gaps, r.key) {
        assert r.key in expected;
      }
    }
  }

  lemma GapsErrorMeans(a: Assessment)
    requires DistinctKeys(a.results)
    ensures GapsError(a.assessmentId, RefsByKey(a.manifest.requirements), ResultsByKey(a.results), a.gaps).None? <==>
              forall g :: g in a.gaps ==> GapAgrees(a, g)
  {
    var refs, results := RefsByKey(a.manifest.requirements), ResultsByKey(a.results);
    GapsErrorIff(a.assessmentId, refs, results, a.gaps);
    forall g | g in a.gaps ensures GapError(a.assessmentId, refs, results, g).None? <==> GapAgrees(a, g) {
      GapErrorIff(a, g);
    }
    hide GapError, GapAgrees, GapsError, RefsByKey, ResultsByKey;
  }

  /** The gaps pass when each agrees, none repeats an identity, and every result that is not covered has one. */
  lemma AllGapsErrorIff(a: Assessment)
    requires DistinctKeys(a.results)
    ensures AllGapsError(a.assessmentId, RefsByKey(a.manifest.requirements), ResultsByKey(a.results), a.gaps).None? <==>
              && (forall i, j :: 0 <= i < j < |a.gaps| ==> a.gaps[i].gapId != a.gaps[j].gapId)
              && (forall g :: g in a.gaps ==> GapAgrees(a, g))
              && (forall r :: r in a.results && r.classification != Covered ==> HasGap(a.gaps, r.key))
  {
    GapsErrorMeans(a);
    if forall g :: g in a.gaps ==> GapAgrees(a, g) { GapKeysIff(a); }
    hide GapAgrees, GapsError, RefsByKey, ResultsByKey, GapKeys, ExpectedGapKeys, DistinctKeys, HasGap;
  }

  /** An error found early is the one reported. */
  lemma {:induction false} FirstResultErrorStays(db: Canon, job: Rev, refs: map<Rev, RequirementRef>,
                                                 results: seq<MatchResult>, i: nat)
    requires i <= |results| && ResultsError(db, job, refs, results[..i]).Some?
    ensures ResultsError(db, job, refs, results) == ResultsError(db, job, refs, results[..i])
  {
    if i == |results| {
      assert results[..i] == results;
    } else {
      var front := results[..|results| - 1];
      assert front[..i] == results[..i];
      FirstResultErrorStays(db, job, refs, front, i);
    }
  }

  lemma {:induction false} FirstGapErrorStays(id: string, refs: map<Rev, RequirementRef>,
                                              results: map<Rev, MatchResult>, gaps: seq<Gap>, i: nat)
    requires i <= |gaps| && GapsError(id, refs, results, gaps[..i]).Some?
    ensures GapsError(id, refs, results, gaps) == GapsError(id, refs, results, gaps[..i])
  {
    if i == |gaps| {
      assert gaps[..i] == gaps;
    } else {
      var front := gaps[..|gaps| - 1];
      assert front[..i] == gaps[..i];
      FirstGapErrorStays(id, refs, results, front, i);
    }
  }

  // ---- Adding the rows ----

  function ResultRowOf(refs: map<Rev, RequirementRef>, r: MatchResult): ResultRow {
    ResultRow(if r.key in refs then refs[r.key].node.capabilityId else "", r)
  }

  // CHECK constraints

  predicate HeaderChecks(row: HeaderRow, m: Manifest) {
    && 1 <= row.opportunity.revision && 1 <= row.job.revision && row.policyVersion == "match-policy-v1"
    && |row.manifestText| <= 65536 && 1 <= |m.requirements| <= 256
  }

  predicate ResultChecks(c: Codec, r: MatchResult) {
    && 1 <= r.key.revision && |r.coveredScopes| <= 5 && |r.missingScopes| <= 5
    && 1 <= |r.reasons| <= 64 && |c.writeReasons(r.reasons)| <= 16384
  }

  predicate GapChecks(g: Gap) {
    1 <= g.key.revision && g.classification != Covered
  }

  /** One row per requirement of an assessment: the primary key. */
  function WithResults(c: Codec, rows: ResultRows, id: string, refs: map<Rev, RequirementRef>,
                       results: seq<MatchResult>): Option<ResultRows>
  {
    if results == [] then Some(rows)
    else
      var last := results[|results| - 1];
      match WithResults(c, rows, id, refs, results[..|results| - 1])
      case None => None
      case Some(before) =>
        if ResultKey(id, last.key) in before || !ResultChecks(c, last) then None
        else Some(before[ResultKey(id, last.key) := ResultRowOf(refs, last)])
  }

  predicate TakesGap(rows: GapRows, g: Gap) {
    && g.gapId !in rows && GapChecks(g)
    && forall id :: id in rows ==> !(rows[id].assessmentId == g.assessmentId && rows[id].key == g.key)
  }

  /** The primary key and the UNIQUE key of the gaps. */
  function WithGaps(rows: GapRows, gaps: seq<Gap>): Option<GapRows> {
    if gaps == [] then Some(rows)
    else
      match WithGaps(rows, gaps[..|gaps| - 1])
      case None => None
      case Some(before) =>
        var last := gaps[|gaps| - 1];
        if TakesGap(before, last) then Some(before[last.gapId := last]) else None
  }

  lemma {:induction false} ResultRefusalStays(c: Codec, rows: ResultRows, id: string, refs: map<Rev, RequirementRef>,
                                              results: seq<MatchResult>, i: nat)
    requires i <= |results| && WithResults(c, rows, id, refs, results[..i]).None?
    ensures WithResults(c, rows, id, refs, results).None?
  {
    if i == |results| {
      assert results[..i] == results;
    } else {
      var front := results[..|results| - 1];
      assert front[..i] == results[..i];
      ResultRefusalStays(c, rows, id, refs, front, i);
    }
  }

  lemma {:induction false} GapRefusalStays(rows: GapRows, gaps: seq<Gap>, i: nat)
    requires i <= |gaps| && WithGaps(rows, gaps[..i]).None?
    ensures WithGaps(rows, gaps).None?
  {
    if i == |gaps| {
      assert gaps[..i] == gaps;
    } else {
      var front := gaps[..|gaps| - 1];
      assert front[..i] == gaps[..i];
      GapRefusalStays(rows, front, i);
    }
  }

  function HeaderOf(c: Codec, a: Assessment): HeaderRow {
    HeaderRow(a.manifest.opportunity, a.manifest.job, a.candidateId, a.manifest.policyVersion, c.write(a.manifest))
  }

  function Staged(c: Codec, db: Db, a: Assessment, entityRevision: int): Result<Db, Error> {
    if entityRevision != 1 then Err(WrongRevision)
    else if ValidationError(db.canon, a).Some? then Err(ValidationError(db.canon, a).value)
    else if a.assessmentId in db.headers || !HeaderChecks(HeaderOf(c, a), a.manifest) then Err(ConstraintViolated)
    else
      match WithResults(c, db.results, a.assessmentId, RefsByKey(a.manifest.requirements), a.results)
      case None => Err(ConstraintViolated)
      case Some(results) =>
        match WithGaps(db.gaps, a.gaps)
        case None => Err(ConstraintViolated)
        case Some(gaps) => Ok(Db(db.canon, db.headers[a.assessmentId := HeaderOf(c, a)], results, gaps))
  }

  class Session {
    var db: Db

    constructor (db: Db)
      ensures this.db == db
    {
      this.db := db;
    }

    /** An error leaves the transaction to be rolled back by the caller. */
    method Stage(c: Codec, a: Assessment, entityRevision: int) returns (r: Result<(), Error>)
      modifies this
      ensures r.Ok? ==> Staged(c, old(db), a, entityRevision) == Ok(db)
      ensures r.Err? ==> Staged(c, old(db), a, entityRevision) == Err(r.error)
    {
      if entityRevision != 1 { return Err(WrongRevision); }
      var problem := InputError(db.canon, a);
      if problem.Some? { return Err(problem.value); }
      var refs := RefsByKey(a.manifest.requirements);
      problem := ValidateResults(a.manifest.job, refs, a.results);
      if problem.Some? { return Err(problem.value); }
      problem := ValidateGaps(a.assessmentId, refs, a.results, a.gaps);
      if problem.Some? { return Err(problem.value); }
      if a.assessmentId in db.headers || !HeaderChecks(HeaderOf(c, a), a.manifest) { return Err(ConstraintViolated); }
      db := db.(headers := db.headers[a.assessmentId := HeaderOf(c, a)]);
      var added := AddResults(c, a.assessmentId, refs, a.results);
      if !added { return Err(ConstraintViolated); }
      added := AddGaps(a.gaps);
      if !added { return Err(ConstraintViolated); }
      return Ok(());
    }

    method ValidateResults(job: Rev, refs: map<Rev, RequirementRef>, results: seq<MatchResult>)
        returns (problem: Option<Error>)
      ensures problem == ResultsError(db.canon, job, refs, results)
    {
      for i := 0 to |results|
        invariant ResultsError(db.canon, job, refs, results[..i]).None?
      {
        problem := ResultError(db.canon, job, refs, results[i]);
        assert results[..i + 1][..i] == results[..i];
        if problem.Some? {
          FirstResultErrorStays(db.canon, job, refs, results, i + 1);
          return;
        }
      }
      assert results[..|results|] == results;
      problem := None;
    }

    /** Grows the set of gap keys and compares it with the non-covered results. */
    method ValidateGaps(id: string, refs: map<Rev, RequirementRef>, results: seq<MatchResult>, gaps: seq<Gap>)
        returns (problem: Option<Error>)
      ensures problem == AllGapsError(id, refs, ResultsByKey(results), gaps)
    {
      hide ResultsByKey, GapError, DistinctGapIds, ExpectedGapKeys;
      var byKey := ResultsByKey(results);
      if !DistinctGapIds(gaps) { return Some(DuplicateGapIds); }
      var gapKeys: set<Rev> := {};
      for i := 0 to |gaps|
        invariant gapKeys == GapKeys(gaps[..i])
        invariant GapsError(id, refs, byKey, gaps[..i]).None?
      {
        problem := GapError(id, refs, byKey, gaps[i]);
        assert gaps[..i + 1][..i] == gaps[..i];
        if problem.Some? {
          FirstGapErrorStays(id, refs, byKey, gaps, i + 1);
          return;
        }
        assert gaps[..i + 1] == gaps[..i] + [gaps[i]];
        gapKeys := gapKeys + {gaps[i].key};
      }
      assert gaps[..|gaps|] == gaps;
      problem := if gapKeys != ExpectedGapKeys(byKey) then Some(MissingGap) else None;
    }

    method AddResults(c: Codec, id: string, refs: map<Rev, RequirementRef>, results: seq<MatchResult>)
        returns (added: bool)
      modifies this
      ensures added ==> WithResults(c, old(db).results, id, refs, results) == Some(db.results)
      ensures !added ==> WithResults(c, old(db).results, id, refs, results).None?
      ensures db == old(db).(results := db.results)
    {
      for i := 0 to |results|
        invariant WithResults(c, old(db).results, id, refs, results[..i]) == Some(db.results)
        invariant db == old(db).(results := db.results)
      {
        var key := ResultKey(id, results[i].key);
        assert results[..i + 1][..i] == results[..i];
        if key in db.results || !ResultChecks(c, results[i]) {
          ResultRefusalStays(c, old(db).results, id, refs, results, i + 1);
          return false;
        }
        db := db.(results := db.results[key := ResultRowOf(refs, results[i])]);
      }
      assert results[..|results|] == results;
      added := true;
    }

    method AddGaps(gaps: seq<Gap>) returns (added: bool)
      modifies this
      ensures added ==> WithGaps(old(db).gaps, gaps) == Some(db.gaps)
      ensures !added ==> WithGaps(old(db).gaps, gaps).None?
      ensures db == old(db).(gaps := db.gaps)
    {
      for i := 0 to |gaps|
        invariant WithGaps(old(db).gaps, gaps[..i]) == Some(db.gaps)
        invariant db == old(db).(gaps := db.gaps)
      {
        assert gaps[..i + 1][..i] == gaps[..i];
        if !TakesGap(db.gaps, gaps[i]) {
          GapRefusalStays(old(db).gaps, gaps, i + 1);
          return false;
        }
        db := db.(gaps := db.gaps[gaps[i].gapId := gaps[i]]);
      }
      assert gaps[..|gaps|] == gaps;
      added := true;
    }
  }

  // ---- What the added rows are ----

  ghost predicate ResultsAdded(rows: ResultRows, id: string, refs: map<Rev, RequirementRef>, results: seq<MatchResult>,
                               later: ResultRows)
  {
    && (forall k :: k in rows ==> k in later && later[k] == rows[k])
    && (forall r :: r in results ==>
        ResultKey(id, r.key) in later && later[ResultKey(id, r.key)] == ResultRowOf(refs, r))
    && (forall k :: k in later && k !in rows ==>
        k.assessmentId == id && later[k].result in results && later[k].result.key == k.key)
  }

  ghost predicate ResultsFit(c: Codec, rows: ResultRows, id: string, results: seq<MatchResult>) {
    && DistinctKeys(results)
    && (forall r :: r in results ==> ResultKey(id, r.key) !in rows && ResultChecks(c, r))
  }

  lemma FrontFits(c: Codec, rows: ResultRows, id: string, front: seq<MatchResult>, last: MatchResult)
    ensures ResultsFit(c, rows, id, front + [last]) ==> ResultsFit(c, rows, id, front)
    ensures ResultsFit(c, rows, id, []) && forall refs :: ResultsAdded(rows, id, refs, [], rows)
  {
    var results := front + [last];
    if ResultsFit(c, rows, id, results) {
      forall i, j | 0 <= i < j < |front| ensures front[i].key != front[j].key {
        assert results[i].key != results[j].key;
      }
      forall r | r in front ensures ResultKey(id, r.key) !in rows && ResultChecks(c, r) { assert r in results; }
    }
  }

  lemma {:induction false} WithResultsAdds(c: Codec, rows: ResultRows, id: string, refs: map<Rev, RequirementRef>,
                                           results: seq<MatchResult>)
    ensures WithResults(c, rows, id, refs, results).Some? <==> ResultsFit(c, rows, id, results)
    ensures WithResults(c, rows, id, refs, results).Some? ==>
              ResultsAdded(rows, id, refs, results, WithResults(c, rows, id, refs, results).value)
  {
    if results != [] {
      var front, last := results[..|results| - 1], results[|results| - 1];
      assert results == front + [last];
      WithResultsAdds(c, rows, id, refs, front);
      FrontFits(c, rows, id, front, last);
      hide ResultsFit, ResultsAdded, ResultChecks, ResultRowOf;
      if WithResults(c, rows, id, refs, front).Some? {
        NextResult(c, rows, id, refs, front, last, WithResults(c, rows, id, refs, front).value);
      }
    }
  }

  lemma NextResult(c: Codec, rows: ResultRows, id: string, refs: map<Rev, RequirementRef>, front: seq<MatchResult>,
                   last: MatchResult, before: ResultRows)
    requires ResultsFit(c, rows, id, front) && ResultsAdded(rows, id, refs, front, before)
    ensures ResultKey(id, last.key) !in before && ResultChecks(c, last) <==> ResultsFit(c, rows, id, front + [last])
    ensures ResultKey(id, last.key) !in before ==>
              ResultsAdded(rows, id, refs, front + [last], before[ResultKey(id, last.key) := ResultRowOf(refs, last)])
  {
    var results := front + [last];
    assert results[|front|] == last && last in results;
    if ResultKey(id, last.key) in before {
      if ResultKey(id, last.key) !in rows {
        var r := before[ResultKey(id, last.key)].result;
        var i :| 0 <= i < |front| && front[i] == r;
        assert results[i] == r;
      }
    }
  }

  ghost predicate GapsAdded(rows: GapRows, gaps: seq<Gap>, later: GapRows) {
    && (forall id :: id in rows ==> id in later && later[id] == rows[id])
    && (forall g :: g in gaps ==> g.gapId in later && later[g.gapId] == g)
    && (forall id :: id in later && id !in rows ==> later[id] in gaps && later[id].gapId == id)
  }

  ghost predicate SameTarget(g: Gap, h: Gap) {
    g.assessmentId == h.assessmentId && g.key == h.key
  }

  ghost predicate GapsFit(rows: GapRows, gaps: seq<Gap>) {
    && (forall i, j :: 0 <= i < j < |gaps| ==> gaps[i].gapId != gaps[j].gapId && !SameTarget(gaps[i], gaps[j]))
    && (forall g :: g in gaps ==> TakesGap(rows, g))
  }

  lemma FrontGapsFit(rows: GapRows, front: seq<Gap>, last: Gap)
    ensures GapsFit(rows, front + [last]) ==> GapsFit(rows, front)
    ensures GapsFit(rows, []) && GapsAdded(rows, [], rows)
  {
    var gaps := front + [last];
    if GapsFit(rows, gaps) {
      forall i, j | 0 <= i < j < |front|
        ensures front[i].gapId != front[j].gapId && !SameTarget(front[i], front[j])
      {
        assert gaps[i].gapId != gaps[j].gapId && !SameTarget(gaps[i], gaps[j]);
      }
      forall g | g in front ensures TakesGap(rows, g) { assert g in gaps; }
    }
  }

  lemma {:induction false} WithGapsAdds(rows: GapRows, gaps: seq<Gap>)
    ensures WithGaps(rows, gaps).Some? <==> GapsFit(rows, gaps)
    ensures WithGaps(rows, gaps).Some? ==> GapsAdded(rows, gaps, WithGaps(rows, gaps).value)
  {
    if gaps != [] {
      var front, last := gaps[..|gaps| - 1], gaps[|gaps| - 1];
      assert gaps == front + [last];
      WithGapsAdds(rows, front);
      FrontGapsFit(rows, front, last);
      hide GapsFit, GapsAdded, TakesGap;
      if WithGaps(rows, front).Some? { NextGap(rows, front, last, WithGaps(rows, front).value); }
    }
  }

  lemma NextGap(rows: GapRows, front: seq<Gap>, last: Gap, before: GapRows)
    requires GapsFit(rows, front) && GapsAdded(rows, front, before)
    ensures TakesGap(before, last) <==> GapsFit(rows, front + [last])
    ensures TakesGap(before, last) ==> GapsAdded(rows, front + [last], before[last.gapId := last])
  {
    var gaps := front + [last];
    assert gaps[|front|] == last && last in gaps;
    if TakesGap(before, last) {
      forall i | 0 <= i < |front| ensures front[i].gapId != last.gapId && !SameTarget(front[i], last) {
        assert front[i] in front;
      }
      assert forall i, j :: 0 <= i < j < |gaps| ==> gaps[i].gapId != gaps[j].gapId && !SameTarget(gaps[i], gaps[j]);
    }
    if GapsFit(rows, gaps) {
      forall id | id in before ensures id != last.gapId && !SameTarget(before[id], last) {
        if id !in rows {
          var i :| 0 <= i < |front| && front[i] == before[id];
          assert gaps[i] == before[id];
        }
      }
    }
  }

  // ---- Reading ----

  datatype Record = Record(assessmentId: string, header: HeaderRow, manifest: Manifest, results: seq<MatchResult>,
                           gaps: seq<Gap>)

  datatype ReadError =
    | MalformedManifest | HeaderDisagrees | NoResults | ResultsDisagree | GapsInconsistent | GapClassification
    | GapCapability

  predicate GapClassificationsAgree(results: map<Rev, MatchResult>, gaps: seq<Gap>) {
    forall g :: g in gaps ==> g.key in results && g.classification == results[g.key].classification
  }

  predicate GapCapabilitiesAgree(refs: map<Rev, RequirementRef>, gaps: seq<Gap>) {
    forall g :: g in gaps ==> g.key in refs && g.capabilityId == refs[g.key].node.capabilityId
  }

  /** The reader, given the rows of the assessment in the order in which the queries list them. */
  function ToRecord(c: Codec, id: string, row: HeaderRow, results: seq<MatchResult>,
                    gaps: seq<Gap>): Result<Record, ReadError>
  {
    match c.parse(row.manifestText)
    case None => Err(MalformedManifest)
    case Some(m) =>
      if m.opportunity != row.opportunity || m.job != row.job || m.policyVersion != row.policyVersion then
        Err(HeaderDisagrees)
      else if results == [] then Err(NoResults)
      else
        var byKey, refs := ResultsByKey(results), RefsByKey(m.requirements);
        if byKey.Keys != refs.Keys then Err(ResultsDisagree)
        else if GapKeys(gaps) != ExpectedGapKeys(byKey) then Err(GapsInconsistent)
        else if !GapClassificationsAgree(byKey, gaps) then Err(GapClassification)
        else if !GapCapabilitiesAgree(refs, gaps) then Err(GapCapability)
        else Ok(Record(id, row, m, results, gaps))
  }

  // ---- What the reader lets pass ----

  predicate SameKeys(results: seq<MatchResult>, refs: seq<RequirementRef>) {
    && (forall r :: r in results ==> exists ref :: ref in refs && ref.key == r.key)
    && (forall ref :: ref in refs ==> exists r :: r in results && r.key == ref.key)
  }

  lemma SameKeysIff(results: seq<MatchResult>, refs: seq<RequirementRef>)
    ensures ResultsByKey(results).Keys == RefsByKey(refs).Keys <==> SameKeys(results, refs)
  {
    var byKey, named := ResultsByKey(results), RefsByKey(refs);
    if byKey.Keys == named.Keys {
      forall r | r in results ensures exists ref :: ref in refs && ref.key == r.key {
        assert r.key in byKey.Keys && named[r.key] in refs;
      }
      forall ref | ref in refs ensures exists r :: r in results && r.key == ref.key {
        assert ref.key in named.Keys && byKey[ref.key] in results;
      }
    }
    if SameKeys(results, refs) {
      forall k ensures k in byKey <==> k in named {
        if k in byKey { assert byKey[k] in results; }
        if k in named { assert named[k] in refs; }
      }
    }
  }

  predicate HeaderAgrees(row: HeaderRow, m: Manifest) {
    row.opportunity == m.opportunity && row.job == m.job && row.policyVersion == m.policyVersion
  }

  /** Every gap agrees with the results, and every result that is not covered has one. */
  ghost predicate GapsAgree(a: Assessment) {
    && (forall g :: g in a.gaps ==> GapAgrees(a, g))
    && (forall r :: r in a.results && r.classification != Covered ==> HasGap(a.gaps, r.key))
  }

  lemma GapChecksIff(a: Assessment)
    requires DistinctKeys(a.results) && forall g :: g in a.gaps ==> g.assessmentId == a.assessmentId
    ensures var byKey, refs := ResultsByKey(a.results), RefsByKey(a.manifest.requirements);
            && GapKeys(a.gaps) == ExpectedGapKeys(byKey)
            && GapClassificationsAgree(byKey, a.gaps) && GapCapabilitiesAgree(refs, a.gaps)
            <==> GapsAgree(a)
  {
    var byKey, refs := ResultsByKey(a.results), RefsByKey(a.manifest.requirements);
    hide ResultsByKey, RefsByKey, GapAgrees, DistinctKeys, HasGap;
    forall g | g in a.gaps
      ensures GapAgrees(a, g) <==> GapError(a.assessmentId, refs, byKey, g).None?
    {
      GapErrorIff(a, g);
    }
    if GapKeys(a.gaps) == ExpectedGapKeys(byKey) {
      assert forall g :: g in a.gaps ==> g.key in ExpectedGapKeys(byKey);
    }
    if forall g :: g in a.gaps ==> GapAgrees(a, g) { GapKeysIff(a); }
  }

  /** A header is read with its rows if and only if its manifest parses and has its columns, its requirements
      are those that have results, at least one, and every gap agrees and every result that is not covered has one. */
  lemma RecordIff(c: Codec, row: HeaderRow, a: Assessment)
    requires DistinctKeys(a.results) && forall g :: g in a.gaps ==> g.assessmentId == a.assessmentId
    ensures ToRecord(c, a.assessmentId, row, a.results, a.gaps)
              == Ok(Record(a.assessmentId, row, a.manifest, a.results, a.gaps)) <==>
              && c.parse(row.manifestText) == Some(a.manifest) && HeaderAgrees(row, a.manifest)
              && a.results != [] && SameKeys(a.results, a.manifest.requirements) && GapsAgree(a)
  {
    SameKeysIff(a.results, a.manifest.requirements);
    GapChecksIff(a);
    hide ResultsByKey, RefsByKey, GapsAgree, DistinctKeys, SameKeys, GapKeys, ExpectedGapKeys;
    hide GapClassificationsAgree, GapCapabilitiesAgree;
  }

  /** What is read is the header with its own manifest, and the rows as they were listed. */
  lemma RecordIsOfItsRows(c: Codec, id: string, row: HeaderRow, results: seq<MatchResult>, gaps: seq<Gap>)
    ensures var outcome := ToRecord(c, id, row, results, gaps);
            && (outcome.Ok? ==>
                  && c.parse(row.manifestText).Some?
                  && outcome.value == Record(id, row, c.parse(row.manifestText).value, results, gaps))
            && (outcome == Err(MalformedManifest) <==> c.parse(row.manifestText).None?)
            && (outcome == Err(HeaderDisagrees) <==>
                  c.parse(row.manifestText).Some? && !HeaderAgrees(row, c.parse(row.manifestText).value))
            && (outcome == Err(NoResults) <==>
                  && c.parse(row.manifestText).Some? && HeaderAgrees(row, c.parse(row.manifestText).value)
                  && results == [])
  {
    hide ResultsByKey, RefsByKey, GapKeys, ExpectedGapKeys, GapClassificationsAgree, GapCapabilitiesAgree;
  }

  /** A query that lists every result row of the assessment, each once. */
  ghost predicate ListsResults(db: Db, id: string, results: seq<MatchResult>) {
    && DistinctKeys(results)
    && (forall r :: r in results <==>
        ResultKey(id, r.key) in db.results && db.results[ResultKey(id, r.key)].result == r)
  }

  ghost predicate ListsGaps(db: Db, id: string, gaps: seq<Gap>) {
    && DistinctGapIds(gaps)
    && (forall g :: g in gaps <==> g.gapId in db.gaps && db.gaps[g.gapId] == g && g.assessmentId == id)
  }

  /** The tables hold the aggregate, and nothing else under its identity. */
  ghost predicate Holds(c: Codec, db: Db, a: Assessment) {
    && a.assessmentId in db.headers && db.headers[a.assessmentId] == HeaderOf(c, a)
    && (forall k :: k in db.results && k.assessmentId == a.assessmentId ==>
          db.results[k].result in a.results && db.results[k].result.key == k.key)
    && (forall r :: r in a.results ==>
        ResultKey(a.assessmentId, r.key) in db.results && db.results[ResultKey(a.assessmentId, r.key)].result == r)
    && (forall id :: id in db.gaps && db.gaps[id].assessmentId == a.assessmentId ==>
        db.gaps[id] in a.gaps && db.gaps[id].gapId == id)
    && (forall g :: g in a.gaps ==> g.gapId in db.gaps && db.gaps[g.gapId] == g && g.assessmentId == a.assessmentId)
  }

  /** Every non-covered result has one gap, of its classification and capability, and no other gap exists. */
  ghost predicate OneGapEach(a: Assessment) {
    var refs, byKey := RefsByKey(a.manifest.requirements), ResultsByKey(a.results);
    && GapKeys(a.gaps) == ExpectedGapKeys(byKey)
    && (forall g, h :: g in a.gaps && h in a.gaps && g.key == h.key ==> g == h)
    && GapClassificationsAgree(byKey, a.gaps) && GapCapabilitiesAgree(refs, a.gaps)
  }

  lemma SameResultsByKey(results: seq<MatchResult>, listed: seq<MatchResult>)
    requires DistinctKeys(results) && forall r :: r in results <==> r in listed
    ensures ResultsByKey(results) == ResultsByKey(listed)
  {
    var a, b := ResultsByKey(results), ResultsByKey(listed);
    forall k | k in a ensures k in b && a[k] == b[k] {
      assert a[k] in listed;
      KeysIdentify(results, a[k], b[k]);
    }
    forall k | k in b ensures k in a { assert b[k] in results; }
    assert a.Keys == b.Keys;
  }

  /** What the queries list is what was staged. */
  lemma ListsAreStaged(c: Codec, db: Db, a: Assessment, results: seq<MatchResult>, gaps: seq<Gap>)
    requires Holds(c, db, a) && ListsResults(db, a.assessmentId, results) && ListsGaps(db, a.assessmentId, gaps)
    ensures forall r :: r in results <==> r in a.results
    ensures forall g :: g in gaps <==> g in a.gaps
  {
    forall r ensures r in results <==> r in a.results {
      var k := ResultKey(a.assessmentId, r.key);
      if r in results { assert db.results[k].result in a.results; }
    }
  }

  /** The reader's checks depend only on which results and gaps are listed. */
  lemma StagedListsPassTheChecks(c: Codec, a: Assessment, results: seq<MatchResult>, gaps: seq<Gap>)
    requires ValidCodec(c) && OneGapEach(a)
    requires ResultsByKey(a.results).Keys == RefsByKey(a.manifest.requirements).Keys
    requires results != [] && ResultsByKey(results) == ResultsByKey(a.results)
    requires forall g :: g in gaps <==> g in a.gaps
    ensures ToRecord(c, a.assessmentId, HeaderOf(c, a), results, gaps)
              == Ok(Record(a.assessmentId, HeaderOf(c, a), a.manifest, results, gaps))
  {
    assert c.parse(c.write(a.manifest)) == Some(a.manifest);
    assert GapKeys(gaps) == GapKeys(a.gaps);
  }

  /** Whatever the order of the rows, an aggregate held by the tables is read without an error:
      the same manifest, the same results and the same gaps. */
  lemma HeldAggregateIsRead(c: Codec, db: Db, a: Assessment, results: seq<MatchResult>, gaps: seq<Gap>)
    requires ValidCodec(c) && WellFormed(a) && OneGapEach(a) && Holds(c, db, a)
    requires ListsResults(db, a.assessmentId, results) && ListsGaps(db, a.assessmentId, gaps)
    ensures ToRecord(c, a.assessmentId, db.headers[a.assessmentId], results, gaps)
              == Ok(Record(a.assessmentId, HeaderOf(c, a), a.manifest, results, gaps))
    ensures forall r :: r in results <==> r in a.results
    ensures forall g :: g in gaps <==> g in a.gaps
  {
    ListsAreStaged(c, db, a, results, gaps);
    SameResultsByKey(a.results, results);
    assert a.results[0] in results;
    StagedListsPassTheChecks(c, a, results, gaps);
  }

  // ---- Staging makes the tables hold the aggregate ----

  /** What passing the validation says of one gap. */
  lemma ValidatedGap(a: Assessment, g: Gap)
    requires AllGapsError(a.assessmentId, RefsByKey(a.manifest.requirements), ResultsByKey(a.results), a.gaps).None?
    requires g in a.gaps
    ensures g.assessmentId == a.assessmentId
    ensures g.key in ResultsByKey(a.results) && g.classification == ResultsByKey(a.results)[g.key].classification
    ensures var refs := RefsByKey(a.manifest.requirements);
            g.key in refs && g.capabilityId == refs[g.key].node.capabilityId
  {
    GapsErrorIff(a.assessmentId, RefsByKey(a.manifest.requirements), ResultsByKey(a.results), a.gaps);
  }

  lemma ValidatedGaps(a: Assessment, rows: GapRows)
    requires AllGapsError(a.assessmentId, RefsByKey(a.manifest.requirements), ResultsByKey(a.results), a.gaps).None?
    requires GapsFit(rows, a.gaps)
    ensures OneGapEach(a)
    ensures forall g :: g in a.gaps ==> g.assessmentId == a.assessmentId
  {
    forall g | g in a.gaps
      ensures g.assessmentId == a.assessmentId
      ensures g.key in ResultsByKey(a.results) && g.classification == ResultsByKey(a.results)[g.key].classification
      ensures var refs := RefsByKey(a.manifest.requirements);
              g.key in refs && g.capabilityId == refs[g.key].node.capabilityId
    {
      ValidatedGap(a, g);
    }
    GapsAreOnePerKey(a.assessmentId, rows, a.gaps);
  }

  lemma GapsAreOnePerKey(id: string, rows: GapRows, gaps: seq<Gap>)
    requires GapsFit(rows, gaps) && forall g :: g in gaps ==> g.assessmentId == id
    ensures forall g, h :: g in gaps && h in gaps && g.key == h.key ==> g == h
  {
    forall g, h | g in gaps && h in gaps && g.key == h.key ensures g == h {
      var i, j :| 0 <= i < |gaps| && gaps[i] == g && 0 <= j < |gaps| && gaps[j] == h;
      assert SameTarget(g, h);
    }
  }

  /** No row without its header. */
  ghost predicate NoOrphans(db: Db) {
    && (forall k :: k in db.results ==> k.assessmentId in db.headers)
    && (forall id :: id in db.gaps ==> db.gaps[id].assessmentId in db.headers)
  }

  /** The rows of an assessment are the same in both. */
  ghost predicate SameRows(db: Db, later: Db, id: string) {
    && id in db.headers && id in later.headers && later.headers[id] == db.headers[id]
    && (forall k :: k in later.results && k.assessmentId == id <==> k in db.results && k.assessmentId == id)
    && (forall k :: k in db.results && k.assessmentId == id ==> later.results[k] == db.results[k])
    && (forall g :: g in later.gaps && later.gaps[g].assessmentId == id <==>
        g in db.gaps && db.gaps[g].assessmentId == id)
    && (forall g :: g in db.gaps && db.gaps[g].assessmentId == id ==> later.gaps[g] == db.gaps[g])
  }

  lemma StagedHolds(c: Codec, db: Db, a: Assessment, later: Db)
    requires NoOrphans(db) && Staged(c, db, a, 1) == Ok(later)
    ensures Holds(c, later, a) && OneGapEach(a)
  {
    WithResultsAdds(c, db.results, a.assessmentId, RefsByKey(a.manifest.requirements), a.results);
    WithGapsAdds(db.gaps, a.gaps);
    ValidatedGaps(a, db.gaps);
  }

  lemma StagedKeepsOthers(c: Codec, db: Db, a: Assessment, later: Db, id: string)
    requires NoOrphans(db) && Staged(c, db, a, 1) == Ok(later) && id in db.headers
    ensures NoOrphans(later) && SameRows(db, later, id)
  {
    hide InputError, AllGapsError, ResultsError, ResultsFit, GapsFit, OneGapEach, WithResults, WithGaps, RefsByKey,
      HeaderChecks, ResultRowOf;
    WithResultsAdds(c, db.results, a.assessmentId, RefsByKey(a.manifest.requirements), a.results);
    WithGapsAdds(db.gaps, a.gaps);
    ValidatedGaps(a, db.gaps);
  }

  lemma StagedKeepsNoOrphans(c: Codec, db: Db, a: Assessment, later: Db)
    requires NoOrphans(db) && Staged(c, db, a, 1) == Ok(later)
    ensures NoOrphans(later)
  {
    hide InputError, AllGapsError, ResultsError, ResultsFit, GapsFit, OneGapEach, WithResults, WithGaps, RefsByKey,
      HeaderChecks, ResultRowOf;
    WithResultsAdds(c, db.results, a.assessmentId, RefsByKey(a.manifest.requirements), a.results);
    WithGapsAdds(db.gaps, a.gaps);
    ValidatedGaps(a, db.gaps);
  }

  lemma FitIffKeysFree(db: Db, a: Assessment)
    requires NoOrphans(db) && a.assessmentId !in db.headers
    requires forall g :: g in a.gaps ==> g.assessmentId == a.assessmentId
    requires DistinctGapIds(a.gaps)
    ensures GapsFit(db.gaps, a.gaps) <==>
              && (forall g :: g in a.gaps ==> g.gapId !in db.gaps && GapChecks(g))
              && (forall i, j :: 0 <= i < j < |a.gaps| ==> a.gaps[i].key != a.gaps[j].key)
  {
    if GapsFit(db.gaps, a.gaps) {
      forall i, j | 0 <= i < j < |a.gaps| ensures a.gaps[i].key != a.gaps[j].key {
        assert a.gaps[i] in a.gaps && a.gaps[j] in a.gaps;
        assert !SameTarget(a.gaps[i], a.gaps[j]);
      }
    }
  }

  lemma ValidRowsFit(c: Codec, db: Db, a: Assessment)
    requires NoOrphans(db) && DistinctKeys(a.results) && a.assessmentId !in db.headers
    requires AllGapsError(a.assessmentId, RefsByKey(a.manifest.requirements), ResultsByKey(a.results), a.gaps).None?
    ensures WithResults(c, db.results, a.assessmentId, RefsByKey(a.manifest.requirements), a.results).Some? <==>
              forall r :: r in a.results ==> ResultChecks(c, r)
    ensures WithGaps(db.gaps, a.gaps).Some? <==>
              && (forall g :: g in a.gaps ==> g.gapId !in db.gaps && GapChecks(g))
              && (forall i, j :: 0 <= i < j < |a.gaps| ==> a.gaps[i].key != a.gaps[j].key)
  {
    forall g | g in a.gaps ensures g.assessmentId == a.assessmentId { ValidatedGap(a, g); }
    FitIffKeysFree(db, a);
    WithGapsAdds(db.gaps, a.gaps);
    WithResultsAdds(c, db.results, a.assessmentId, RefsByKey(a.manifest.requirements), a.results);
  }

  lemma ValidationErrorIff(db: Canon, a: Assessment)
    ensures ValidationError(db, a).None? <==>
              && InputError(db, a).None?
              && (forall r :: r in a.results ==> ResultAgrees(db, a.manifest, r))
              && AllGapsError(a.assessmentId, RefsByKey(a.manifest.requirements), ResultsByKey(a.results),
                              a.gaps).None?
  {
    ResultsErrorIff(db, a.manifest.job, RefsByKey(a.manifest.requirements), a.results);
    forall r
      ensures ResultError(db, a.manifest.job, RefsByKey(a.manifest.requirements), r).None? <==>
                ResultAgrees(db, a.manifest, r)
    {
      ResultErrorIff(db, a.manifest, r);
    }
    hide InputError, ResultError, ResultAgrees, AllGapsError, RefsByKey, ResultsByKey;
  }

  /** The checks of the tables on the rows of an aggregate. */
  predicate RowsPass(c: Codec, a: Assessment) {
    && 1 <= a.manifest.opportunity.revision && 1 <= a.manifest.job.revision
    && a.manifest.policyVersion == "match-policy-v1" && |c.write(a.manifest)| <= 65536
    && 1 <= |a.manifest.requirements| <= 256
    && (forall r :: r in a.results ==>
          && 1 <= r.key.revision && |r.coveredScopes| <= 5 && |r.missingScopes| <= 5
          && 1 <= |r.reasons| <= 64 && |c.writeReasons(r.reasons)| <= 16384)
    && (forall g :: g in a.gaps ==> 1 <= g.key.revision && g.classification != Covered)
  }

  lemma RowsPassIff(c: Codec, a: Assessment)
    ensures RowsPass(c, a) <==>
              && HeaderChecks(HeaderOf(c, a), a.manifest) && (forall r :: r in a.results ==> ResultChecks(c, r))
              && (forall g :: g in a.gaps ==> GapChecks(g))
  {
  }

  lemma StagedUnlessErrors(c: Codec, db: Db, a: Assessment, entityRevision: int)
    ensures Staged(c, db, a, entityRevision).Ok? <==>
              && entityRevision == 1 && ValidationError(db.canon, a).None?
              && a.assessmentId !in db.headers && HeaderChecks(HeaderOf(c, a), a.manifest)
              && WithResults(c, db.results, a.assessmentId, RefsByKey(a.manifest.requirements), a.results).Some?
              && WithGaps(db.gaps, a.gaps).Some?
  {
  }

  lemma StagedTables(c: Codec, db: Db, a: Assessment, later: Db)
    requires Staged(c, db, a, 1) == Ok(later)
    ensures WithResults(c, db.results, a.assessmentId, RefsByKey(a.manifest.requirements), a.results)
            == Some(later.results)
    ensures WithGaps(db.gaps, a.gaps) == Some(later.gaps) && later.canon == db.canon
  {
    hide ValidationError, WithResults, WithGaps, RefsByKey, HeaderChecks, HeaderOf;
  }

  lemma AcceptedUnlessErrors(c: Codec, db: Db, a: Assessment, entityRevision: int)
    requires NoOrphans(db) && DistinctKeys(a.results)
    ensures Staged(c, db, a, entityRevision).Ok? <==>
              && entityRevision == 1 && ValidationError(db.canon, a).None?
              && a.assessmentId !in db.headers && RowsPass(c, a)
              && (forall g :: g in a.gaps ==> g.gapId !in db.gaps)
              && (forall i, j :: 0 <= i < j < |a.gaps| ==> a.gaps[i].key != a.gaps[j].key)
  {
    StagedUnlessErrors(c, db, a, entityRevision);
    RowsPassIff(c, a);
    if ValidationError(db.canon, a).None? && a.assessmentId !in db.headers { ValidRowsFit(c, db, a); }
    hide Staged, ValidationError, WithResults, WithGaps, HeaderChecks, ResultChecks, GapChecks, RowsPass, NoOrphans;
  }

  /** Staging accepts exactly the first revision of an aggregate whose results agree with accepted requirements
      of the frozen job, with exactly one agreeing gap for each result that is not covered, under a free
      identity and free gap identities: the tables' other keys never refuse one. */
  lemma AcceptedIff(c: Codec, db: Db, a: Assessment, entityRevision: int)
    requires NoOrphans(db) && WellFormed(a)
    ensures Staged(c, db, a, entityRevision).Ok? <==>
              && entityRevision == 1 && InputError(db.canon, a).None?
              && (forall r :: r in a.results ==> ResultAgrees(db.canon, a.manifest, r))
              && (forall g :: g in a.gaps ==> GapAgrees(a, g))
              && (forall r :: r in a.results && r.classification != Covered ==> HasGap(a.gaps, r.key))
              && (forall i, j :: 0 <= i < j < |a.gaps| ==> a.gaps[i].gapId != a.gaps[j].gapId)
              && (forall i, j :: 0 <= i < j < |a.gaps| ==> a.gaps[i].key != a.gaps[j].key)
              && a.assessmentId !in db.headers && (forall g :: g in a.gaps ==> g.gapId !in db.gaps)
              && RowsPass(c, a)
  {
    AcceptedUnlessErrors(c, db, a, entityRevision);
    ValidationErrorIff(db.canon, a);
    AllGapsErrorIff(a);
    hide Staged, ValidationError, InputError, AllGapsError, ResultAgrees, GapAgrees, RowsPass, NoOrphans;
  }

  lemma StagingRefusedFor(c: Codec, db: Db, a: Assessment, entityRevision: int)
    requires Staged(c, db, a, entityRevision).Err?
    ensures var error := Staged(c, db, a, entityRevision).error;
            if entityRevision != 1 then error == WrongRevision
            else if ValidationError(db.canon, a).Some? then ValidationError(db.canon, a) == Some(error)
            else error == ConstraintViolated
  {
    hide ValidationError, WithResults, WithGaps, HeaderChecks, HeaderOf;
  }

  lemma StoredResult(c: Codec, db: Db, a: Assessment, later: Db, r: MatchResult)
    requires Staged(c, db, a, 1) == Ok(later) && r in a.results && r.key in RefsByKey(a.manifest.requirements)
    ensures ResultKey(a.assessmentId, r.key) in later.results
    ensures later.results[ResultKey(a.assessmentId, r.key)]
            == ResultRow(RefsByKey(a.manifest.requirements)[r.key].node.capabilityId, r)
  {
    hide Staged, ResultsFit, WithResults, WithGaps, RefsByKey;
    StagedTables(c, db, a, later);
    WithResultsAdds(c, db.results, a.assessmentId, RefsByKey(a.manifest.requirements), a.results);
  }

  /** What staging stores of the results: one row for each, under the capability of its requirement. */
  lemma StagedStoresResults(c: Codec, db: Db, a: Assessment, later: Db, r: MatchResult)
    requires WellFormed(a) && Staged(c, db, a, 1) == Ok(later) && r in a.results
    ensures ResultKey(a.assessmentId, r.key) in later.results
    ensures later.results[ResultKey(a.assessmentId, r.key)].result == r
    ensures exists ref :: && LastRef(a.manifest.requirements, r.key, ref)
                          && later.results[ResultKey(a.assessmentId, r.key)].capabilityId == ref.node.capabilityId
  {
    hide Staged, LastRef;
    assert r.key in ResultsByKey(a.results);
    assert r.key in RefsByKey(a.manifest.requirements);
    hide WellFormed, RefsByKey, ResultsByKey;
    StoredResult(c, db, a, later, r);
    RefsByKeyAreLast(a.manifest.requirements, r.key);
  }

  /** What staging stores beside them: the header's columns, the gaps as they are, and nothing else. */
  lemma StagedStores(c: Codec, db: Db, a: Assessment, later: Db)
    requires Staged(c, db, a, 1) == Ok(later)
    ensures later.canon == db.canon
    ensures forall k :: k in db.results ==> k in later.results && later.results[k] == db.results[k]
    ensures forall k :: k in later.results && k !in db.results ==>
              k.assessmentId == a.assessmentId && later.results[k].result in a.results
    ensures later.headers
            == db.headers[a.assessmentId := HeaderRow(a.manifest.opportunity, a.manifest.job, a.candidateId,
                                                      a.manifest.policyVersion, c.write(a.manifest))]
    ensures forall id :: id in db.gaps ==> id in later.gaps && later.gaps[id] == db.gaps[id]
    ensures forall id :: id in later.gaps && id !in db.gaps ==> later.gaps[id] in a.gaps && later.gaps[id].gapId == id
    ensures forall g :: g in a.gaps ==> g.gapId in later.gaps && later.gaps[g.gapId] == g
  {
    StagedTables(c, db, a, later);
    WithResultsAdds(c, db.results, a.assessmentId, RefsByKey(a.manifest.requirements), a.results);
    WithGapsAdds(db.gaps, a.gaps);
    hide ValidationError, GapsFit, ResultsFit, WithResults, WithGaps, RefsByKey, HeaderChecks;
  }

  // ---- Every run ----

  /** A staging that may fail, or any change of the other tables. */
  datatype Event = Stage(a: Assessment, entityRevision: int) | Elsewhere(canon: Canon)

  /** The tables and the aggregate that was staged under each identity. */
  datatype State = State(db: Db, staged: map<string, Assessment>)

  function Start(canon: Canon): State {
    State(Db(canon, map[], map[], map[]), map[])
  }

  /** Only well-formed assessments can be built. */
  ghost function Step(c: Codec, s: State, e: Event): State {
    match e
    case Elsewhere(canon) => s.(db := s.db.(canon := canon))
    case Stage(a, entityRevision) =>
      if !WellFormed(a) then s
      else match Staged(c, s.db, a, entityRevision)
        case Err(_) => s
        case Ok(later) => State(later, s.staged[a.assessmentId := a])
  }

  ghost function Run(c: Codec, canon: Canon, events: seq<Event>): State
    decreases |events|
  {
    if events == [] then Start(canon) else Step(c, Run(c, canon, events[..|events| - 1]), events[|events| - 1])
  }

  ghost predicate Inv(c: Codec, s: State) {
    && NoOrphans(s.db) && s.db.headers.Keys == s.staged.Keys
    && forall id {:trigger Kept(c, s.db, id, s.staged[id])} :: id in s.staged ==> Kept(c, s.db, id, s.staged[id])
  }

  ghost predicate Kept(c: Codec, db: Db, id: string, a: Assessment) {
    a.assessmentId == id && WellFormed(a) && OneGapEach(a) && Holds(c, db, a)
  }

  lemma SameRowsStayKept(c: Codec, db: Db, later: Db, id: string, a: Assessment)
    requires Kept(c, db, id, a) && SameRows(db, later, id)
    ensures Kept(c, later, id, a)
  {
  }

  lemma StagedIsKept(c: Codec, db: Db, a: Assessment, later: Db)
    requires NoOrphans(db) && WellFormed(a) && Staged(c, db, a, 1) == Ok(later)
    ensures NoOrphans(later) && Kept(c, later, a.assessmentId, a)
    ensures a.assessmentId !in db.headers && later.headers.Keys == db.headers.Keys + {a.assessmentId}
  {
    StagedKeepsNoOrphans(c, db, a, later);
    StagedHolds(c, db, a, later);
  }

  lemma StagingKeepsOtherKept(c: Codec, db: Db, a: Assessment, later: Db, id: string, other: Assessment)
    requires NoOrphans(db) && Staged(c, db, a, 1) == Ok(later) && Kept(c, db, id, other)
    ensures Kept(c, later, id, other)
  {
    StagedKeepsOthers(c, db, a, later, id);
    SameRowsStayKept(c, db, later, id, other);
  }

  lemma StagingKeepsInv(c: Codec, db: Db, staged: map<string, Assessment>, a: Assessment, later: Db)
    requires NoOrphans(db) && db.headers.Keys == staged.Keys
    requires forall id {:trigger Kept(c, db, id, staged[id])} :: id in staged ==> Kept(c, db, id, staged[id])
    requires WellFormed(a) && Staged(c, db, a, 1) == Ok(later)
    ensures Inv(c, State(later, staged[a.assessmentId := a]))
    ensures a.assessmentId !in staged
  {
    hide Kept, Staged, WellFormed;
    StagedIsKept(c, db, a, later);
    forall id | id in staged ensures Kept(c, later, id, staged[id]) {
      StagingKeepsOtherKept(c, db, a, later, id, staged[id]);
    }
  }

  lemma ElsewhereKeepsInv(c: Codec, s: State, canon: Canon)
    requires Inv(c, s)
    ensures Inv(c, s.(db := s.db.(canon := canon)))
  {
    forall id | id in s.staged ensures Kept(c, s.db.(canon := canon), id, s.staged[id]) {
      SameRowsStayKept(c, s.db, s.db.(canon := canon), id, s.staged[id]);
    }
  }

  lemma StepKeepsInv(c: Codec, s: State, e: Event)
    requires Inv(c, s)
    ensures Inv(c, Step(c, s, e))
    ensures forall id :: id in s.staged ==> id in Step(c, s, e).staged && Step(c, s, e).staged[id] == s.staged[id]
  {
    match e
    case Stage(a, entityRevision) =>
      if WellFormed(a) && Staged(c, s.db, a, entityRevision).Ok? {
        StagingKeepsInv(c, s.db, s.staged, a, Staged(c, s.db, a, 1).value);
      }
    case Elsewhere(canon) =>
      ElsewhereKeepsInv(c, s, canon);
  }

  lemma {:induction false} RunKeepsInv(c: Codec, canon: Canon, events: seq<Event>)
    ensures Inv(c, Run(c, canon, events))
    decreases |events|
  {
    if events != [] {
      RunKeepsInv(c, canon, events[..|events| - 1]);
      StepKeepsInv(c, Run(c, canon, events[..|events| - 1]), events[|events| - 1]);
    }
  }

  lemma KeptAggregateIsRead(c: Codec, s: State, id: string, results: seq<MatchResult>, gaps: seq<Gap>)
    requires ValidCodec(c) && Inv(c, s) && id in s.db.headers
    requires ListsResults(s.db, id, results) && ListsGaps(s.db, id, gaps)
    ensures id in s.staged && OneGapEach(s.staged[id])
    ensures ToRecord(c, id, s.db.headers[id], results, gaps)
              == Ok(Record(id, HeaderOf(c, s.staged[id]), s.staged[id].manifest, results, gaps))
    ensures forall r :: r in results <==> r in s.staged[id].results
    ensures forall g :: g in gaps <==> g in s.staged[id].gaps
  {
    hide ToRecord, OneGapEach, WellFormed, ListsResults, ListsGaps, Holds, NoOrphans;
    assert Kept(c, s.db, id, s.staged[id]);
    HeldAggregateIsRead(c, s.db, s.staged[id], results, gaps);
  }

  /** In every reachable state every header is read without an error, and what is read is the
      manifest, the results and the gaps that were staged, one gap for each non-covered result. */
  lemma ReadersNeverRaise(c: Codec, canon: Canon, events: seq<Event>, id: string, results: seq<MatchResult>,
                          gaps: seq<Gap>)
    requires ValidCodec(c)
    requires id in Run(c, canon, events).db.headers
    requires ListsResults(Run(c, canon, events).db, id, results) && ListsGaps(Run(c, canon, events).db, id, gaps)
    ensures id in Run(c, canon, events).staged && OneGapEach(Run(c, canon, events).staged[id])
    ensures var a := Run(c, canon, events).staged[id];
            && ToRecord(c, id, Run(c, canon, events).db.headers[id], results, gaps)
                 == Ok(Record(id, HeaderOf(c, a), a.manifest, results, gaps))
            && (forall r :: r in results <==> r in a.results)
            && (forall g :: g in gaps <==> g in a.gaps)
  {
    RunKeepsInv(c, canon, events);
    KeptAggregateIsRead(c, Run(c, canon, events), id, results, gaps);
  }

  /** Once staged, an aggregate stays what it was through every later event. */
  lemma {:induction false} StagedAggregatesNeverChange(c: Codec, canon: Canon, events: seq<Event>, i: nat, id: string)
    requires i <= |events|
    ensures id in Run(c, canon, events[..i]).staged ==>
              && id in Run(c, canon, events).staged
              && Run(c, canon, events).staged[id] == Run(c, canon, events[..i]).staged[id]
    decreases |events|
  {
    if i == |events| {
      assert events[..i] == events;
    } else {
      var front := events[..|events| - 1];
      assert front[..i] == events[..i];
      StagedAggregatesNeverChange(c, canon, front, i, id);
      RunKeepsInv(c, canon, front);
      StepKeepsInv(c, Run(c, canon, front), events[|events| - 1]);
    }
  }
}
