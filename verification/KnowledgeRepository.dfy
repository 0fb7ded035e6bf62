/** Knowledge entries: import, proposals and their review, rollback, wiki pages and their
    review, and the chunk index.

    Rollback reads the revision to restore, then the entry's current revision, and then writes
    in a transaction, so calls interleave between the three; `Step` is the system of all calls. */
module Knowledge {
  import opened Chunks
  import Decimal
  import opened Identifiers
  import opened KnowledgeLog
  import opened Revisions
  import opened SealedRows
  import SqlChecks
  import opened Text
  import opened WikiSlugs
  import opened Wrappers

  datatype ReviewStatus = PendingReview | ApprovedReview | RejectedReview

  datatype Proposal = Proposal(target: Option<string>, base: Option<int>, category: string, title: string,
                               content: string, contentHash: string, refs: seq<string>, authority: string,
                               createdBy: string, status: ReviewStatus)

  datatype Page = Page(slug: string, parent: Option<string>)

  datatype OperationKind = Move | Rename | Archive

  datatype Operation = Operation(target: string, kind: OperationKind, newTitle: Option<string>, newSlug: Option<string>,
                                 parent: Option<string>, status: ReviewStatus)

  /** `sources` are the locators, and `artifacts` the digests, that have an evidence row. */
  datatype Db = Db(evidenceRefs: set<string>, sources: set<string>, artifacts: set<string>, log: Log,
                   proposals: map<string, Proposal>,
                   pages: map<string, Page>, operations: map<string, Operation>)

  /** The digest and chunking of texts, and the slug that a title suggests. */
  datatype Config = Config(env: Env, slugOf: string -> string)

  datatype Error =
    | BadContent | DifferentContent | MissingTarget | UnknownEvidence | Missing | BadDecision | AlreadyReviewed
    | ConstraintViolated | BlankText | BadOperation | SelfParent | MissingParent | SlugInUse
    | InvalidRecord

  // ---- Reading records ----

  const MAX_TITLE := 512
  const MAX_SOURCE_TYPE := 128
  const MAX_LOCATOR := 4096

  predicate TitleFits(title: string) {
    1 <= |title| <= MAX_TITLE
  }

  /** What the record of a revision asks of its identifiers and texts and no check of the table does. */
  predicate RevisionFits(id: string, row: Revision) {
    && OpaqueId(id) && AllOpaque(row.refs)
    && TitleFits(row.title) && 1 <= |row.sourceType| <= MAX_SOURCE_TYPE && 1 <= |row.locator| <= MAX_LOCATOR
  }

  predicate ValidRevision(r: Rev, row: Revision) {
    1 <= r.revision && row.content != "" && RevisionFits(r.id, row)
  }

  predicate EntryFits(id: string, entry: Entry) {
    OpaqueId(id) && TitleFits(entry.title)
  }

  predicate ValidEntry(id: string, entry: Entry) {
    1 <= entry.current && EntryFits(id, entry)
  }

  predicate ProposalFits(id: string, p: Proposal) {
    OpaqueId(id) && AllOpaque(p.refs) && TitleFits(p.title) && (p.base.Some? ==> 1 <= p.base.value)
  }

  predicate ValidProposal(id: string, p: Proposal) {
    p.content != "" && ProposalFits(id, p)
  }

  /** The row with its evidence rows in order, if it makes a record. */
  function GetRevision(log: Log, r: Rev): Result<Revision, Error> {
    if r !in log.revisions then Err(Missing)
    else
      var row := log.revisions[r].(refs := InOrdinalOrder(log.evidence, r));
      if ValidRevision(r, row) then Ok(row) else Err(InvalidRecord)
  }

  function GetEntry(log: Log, id: string): Result<Entry, Error> {
    if id !in log.entries then Err(Missing)
    else if ValidEntry(id, log.entries[id]) then Ok(log.entries[id])
    else Err(InvalidRecord)
  }

  function GetProposal(db: Db, id: string): Result<Proposal, Error> {
    if id !in db.proposals then Err(Missing)
    else if ValidProposal(id, db.proposals[id]) then Ok(db.proposals[id])
    else Err(InvalidRecord)
  }

  // ---- Import ----

  datatype Document = Document(id: string, title: string, text: string, evidenceRef: string, artifact: string,
                               mediaType: string, sourceType: string, locator: string, category: string,
                               authority: string, flagged: bool)

  /** The checks on the source row that an import inserts unless there is one for the locator. */
  predicate SourcePasses(d: Document) {
    && SqlChecks.NonBlank(d.sourceType) && SqlChecks.Length(d.sourceType) <= MAX_SOURCE_TYPE
    && SqlChecks.NonBlank(d.locator) && SqlChecks.Length(d.locator) <= 2048
  }

  /** A row that its checks refuse is skipped; the snapshot then has no parent, unless the row or
      the reference itself was there before. */
  predicate EvidenceAccepted(db: Db, d: Document) {
    || d.evidenceRef in db.evidenceRefs
    || ((d.locator in db.sources || SourcePasses(d)) && (d.artifact in db.artifacts || SqlChecks.NonBlank(d.mediaType)))
  }

  function WithEvidence(db: Db, d: Document): Db {
    db.(evidenceRefs := db.evidenceRefs + {d.evidenceRef},
        sources := db.sources + if SourcePasses(d) then {d.locator} else {},
        artifacts := db.artifacts + if SqlChecks.NonBlank(d.mediaType) then {d.artifact} else {})
  }

  function ImportRow(c: Config, d: Document, text: string): Revision {
    Revision(d.title, text, c.env.hash(text), d.sourceType, d.locator, [d.evidenceRef], d.authority, ProposedEntry,
             d.flagged)
  }

  function Imported(c: Config, db: Db, d: Document): Result<Db, Error> {
    match CleanContent(d.text)
    case Err(_) => Err(BadContent)
    case Ok(text) =>
      if d.id in db.log.entries then Ok(db)
      else
        var entry := Entry(d.title, ProposedEntry, d.category, d.authority, 1);
        var row := ImportRow(c, d, text);
        var found := WithEvidence(db, d);
        if !EvidenceAccepted(db, d) || !Appendable(db.log, found.evidenceRefs, Rev(d.id, 1), row) then
          Err(ConstraintViolated)
        else Ok(found.(log := Appended(c.env, db.log, Rev(d.id, 1), entry, row)))
  }

  // ---- Proposals ----

  function Proposed(c: Config, db: Db, id: string, p: Proposal): Result<Db, Error> {
    match CleanContent(p.content)
    case Err(_) => Err(BadContent)
    case Ok(text) =>
      if id in db.proposals then
        var stored := db.proposals[id];
        if (stored.category, stored.title, stored.content, stored.authority, stored.createdBy)
           == (p.category, p.title, text, p.authority, p.createdBy)
        then Ok(db) else Err(DifferentContent)
      else if p.target.Some? && p.target.value !in db.log.entries then Err(MissingTarget)
      else if exists ref :: ref in p.refs && ref !in db.evidenceRefs then Err(UnknownEvidence)
      else
        var base := if p.target.Some? && p.base.None? then Some(db.log.entries[p.target.value].current) else p.base;
        Ok(db.(proposals := db.proposals[id := p.(base := base, content := text, contentHash := c.env.hash(text),
                                                  status := PendingReview)]))
  }

  /** An approved proposal without a target gets an entry named after the proposal. */
  function TargetOf(id: string, p: Proposal): string {
    p.target.GetOr("knowledge_" + (if |id| <= 9 then "" else id[9..]))
  }

  function NextRevision(log: Log, id: string): int {
    if id in log.entries then log.entries[id].current + 1 else 1
  }

  function ApprovedEntryOf(log: Log, id: string, p: Proposal): Entry {
    if id in log.entries then log.entries[id].(status := ApprovedEntry, current := NextRevision(log, id))
    else Entry(p.title, ApprovedEntry, p.category, p.authority, 1)
  }

  function ApprovedRow(id: string, p: Proposal): Revision {
    Revision(p.title, p.content, p.contentHash, "proposal", "proposal:" + id, p.refs, p.authority, ApprovedEntry, false)
  }

  function Reviewed(c: Config, db: Db, id: string, decision: ReviewStatus): Result<Db, Error> {
    if decision == PendingReview then Err(BadDecision)
    else if id !in db.proposals then Err(Missing)
    else if db.proposals[id].status != PendingReview then Err(AlreadyReviewed)
    else
      var p := db.proposals[id];
      var decided := db.(proposals := db.proposals[id := p.(status := decision)]);
      if decision == RejectedReview then Ok(decided)
      else
        var target := TargetOf(id, p);
        var r := Rev(target, NextRevision(db.log, target));
        if !Appendable(db.log, db.evidenceRefs, r, ApprovedRow(id, p)) then Err(ConstraintViolated)
        else Ok(decided.(log := Appended(c.env, db.log, r, ApprovedEntryOf(db.log, target, p), ApprovedRow(id, p))))
  }

  // ---- Rollback: read twice, then write ----

  /** The revision to restore, with its evidence rows, as rollback reads it first. */
  datatype TargetRead = TargetRead(id: string, revision: int, row: Revision)

  /** With the entry's current revision, read next and still before the transaction that writes. */
  datatype RollbackRead = RollbackRead(target: TargetRead, current: int)

  function LocatorOf(id: string, revision: int): string {
    id + "#" + (if revision < 0 then "-" + Decimal.Print(-revision) else Decimal.Print(revision))
  }

  function ReadTarget(log: Log, id: string, revision: int): Result<TargetRead, Error> {
    match GetRevision(log, Rev(id, revision))
    case Ok(row) => Ok(TargetRead(id, revision, row))
    case Err(e) => Err(e)
  }

  function ReadEntry(log: Log, target: TargetRead): Result<RollbackRead, Error> {
    match GetEntry(log, target.id)
    case Ok(entry) => Ok(RollbackRead(target, entry.current))
    case Err(e) => Err(e)
  }

  function RollbackRow(target: TargetRead): Revision {
    target.row.(sourceType := "rollback", locator := LocatorOf(target.id, target.revision),
                status := ApprovedEntry)
  }

  function RolledBack(c: Config, db: Db, read: RollbackRead): Result<Db, Error> {
    var id, r := read.target.id, Rev(read.target.id, read.current + 1);
    if id !in db.log.entries || !Appendable(db.log, db.evidenceRefs, r, RollbackRow(read.target)) then
      Err(ConstraintViolated)
    else
      var entry := db.log.entries[id].(status := ApprovedEntry, current := r.revision);
      Ok(db.(log := Appended(c.env, db.log, r, entry, RollbackRow(read.target))))
  }

  // ---- Wiki pages ----

  function SlugsInUse(pages: map<string, Page>): set<string> {
    set id | id in pages :: pages[id].slug
  }

  predicate SlugTakenByOther(pages: map<string, Page>, slug: string, id: string) {
    exists other :: other in pages && other != id && pages[other].slug == slug
  }

  ghost function WithPage(c: Config, db: Db, id: string, title: string): Db {
    if id in db.pages then db
    else db.(pages := db.pages[id := Page(FreeSlug(c.slugOf(title), SlugsInUse(db.pages)), None)])
  }

  datatype OperationReview = OperationReview(decision: ReviewStatus, reviewer: string, reason: string)

  predicate SameRequest(a: Operation, b: Operation) {
    a.(status := PendingReview) == b.(status := PendingReview)
  }

  /** A request for an operation; the page of its target is made on the way. */
  ghost function Requested(c: Config, db: Db, id: string, o: Operation, requester: string): Result<Db, Error> {
    if Strip(requester) == "" then Err(BlankText)
    else if o.kind == Rename && o.newTitle.GetOr("") == "" && o.newSlug.GetOr("") == "" then Err(BadOperation)
    else if o.kind == Move && o.parent.GetOr("") == "" then Err(BadOperation)
    else if o.target !in db.log.entries then Err(MissingTarget)
    else if o.parent == Some(o.target) then Err(SelfParent)
    else if o.parent.Some? && o.parent.value !in db.log.entries then Err(MissingParent)
    else
      var db' := WithPage(c, db, o.target, db.log.entries[o.target].title);
      var slug := if o.newSlug.Some? then Some(c.slugOf(o.newSlug.value)) else None;
      if id in db.operations then if SameRequest(db.operations[id], o) then Ok(db') else Err(DifferentContent)
      else if slug.Some? && SlugTakenByOther(db'.pages, slug.value, o.target) then Err(SlugInUse)
      else Ok(db'.(operations := db'.operations[id := o.(newSlug := slug, status := PendingReview)]))
  }

  function RenamedRow(current: Revision, id: string, revision: int, title: string): Revision {
    current.(title := title, sourceType := "wiki_rename", locator := LocatorOf(id, revision), status := ApprovedEntry)
  }

  function Retitled(c: Config, db: Db, id: string, title: string): Result<Db, Error>
    requires id in db.log.entries
  {
    var entry := db.log.entries[id];
    match GetRevision(db.log, Rev(id, entry.current))
    case Err(e) => Err(e)
    case Ok(current) =>
      var r := Rev(id, entry.current + 1);
      var row := RenamedRow(current, id, entry.current, title);
      if !Appendable(db.log, db.evidenceRefs, r, row) then Err(ConstraintViolated)
      else Ok(db.(log := Appended(c.env, db.log, r, entry.(title := title, current := r.revision), row)))
  }

  function Reslugged(db: Db, id: string, slug: string): Result<Db, Error>
    requires id in db.pages
  {
    if SlugTakenByOther(db.pages, slug, id) then Err(SlugInUse)
    else Ok(db.(pages := db.pages[id := db.pages[id].(slug := slug)]))
  }

  function Renamed(c: Config, db: Db, o: Operation): Result<Db, Error>
    requires o.target in db.pages && o.target in db.log.entries
  {
    var slugged := if o.newSlug.Some? then Reslugged(db, o.target, o.newSlug.value) else Ok(db);
    if slugged.Err? || o.newTitle.None? then slugged
    else Retitled(c, slugged.value, o.target, o.newTitle.value)
  }

  function Applied(c: Config, db: Db, o: Operation): Result<Db, Error>
    requires o.target in db.pages && o.target in db.log.entries
  {
    match o.kind
    case Move => Ok(db.(pages := db.pages[o.target := db.pages[o.target].(parent := o.parent)]))
    case Archive =>
      Ok(db.(log := db.log.(entries := db.log.entries[o.target := db.log.entries[o.target].(status := ArchivedEntry)])))
    case Rename => Renamed(c, db, o)
  }

  ghost function OperationReviewed(c: Config, db: Db, id: string, review: OperationReview): Result<Db, Error> {
    var decision := review.decision;
    if decision == PendingReview then Err(BadDecision)
    else if Strip(review.reviewer) == "" || Strip(review.reason) == "" then Err(BlankText)
    else if id !in db.operations then Err(Missing)
    else if db.operations[id].status != PendingReview then Err(AlreadyReviewed)
    else if db.operations[id].target !in db.log.entries then Err(MissingTarget)
    else
      var o := db.operations[id];
      var decided := db.(operations := db.operations[id := o.(status := decision)]);
      if decision == RejectedReview then Ok(decided)
      else Applied(c, WithPage(c, decided, o.target, db.log.entries[o.target].title), o)
  }

  // ---- The system of calls ----

  datatype Call =
    | Import(document: Document)
    | Propose(id: string, proposal: Proposal)
    | Review(id: string, decision: ReviewStatus)
    | Request(id: string, operation: Operation, requester: string)
    | ReviewOperation(id: string, review: OperationReview)

  datatype Event =
    | Whole(call: Call)
    | ReadRollbackTarget(caller: nat, id: string, revision: int)
    | ReadRollbackEntry(caller: nat)
    | WriteRollback(caller: nat)

  /** The tables, and the rollbacks after their first and after their second read. */
  datatype State = State(db: Db, targets: map<nat, TargetRead>, rollbacks: map<nat, RollbackRead>)

  ghost function Attempt(c: Config, db: Db, call: Call): Result<Db, Error> {
    match call
    case Import(d) => Imported(c, db, d)
    case Propose(id, p) => Proposed(c, db, id, p)
    case Review(id, decision) => Reviewed(c, db, id, decision)
    case Request(id, o, requester) => Requested(c, db, id, o, requester)
    case ReviewOperation(id, review) => OperationReviewed(c, db, id, review)
  }

  function OrElse(outcome: Result<Db, Error>, db: Db): Db {
    match outcome
    case Ok(later) => later
    case Err(_) => db
  }

  ghost function Step(c: Config, s: State, e: Event): State {
    match e
    case Whole(call) => s.(db := OrElse(Attempt(c, s.db, call), s.db))
    case ReadRollbackTarget(caller, id, revision) =>
      (match ReadTarget(s.db.log, id, revision)
       case Ok(target) =>
         if caller in s.targets || caller in s.rollbacks then s else s.(targets := s.targets[caller := target])
       case Err(_) => s)
    case ReadRollbackEntry(caller) =>
      if caller !in s.targets then s
      else (match ReadEntry(s.db.log, s.targets[caller])
            case Ok(read) => s.(targets := s.targets - {caller}, rollbacks := s.rollbacks[caller := read])
            case Err(_) => s.(targets := s.targets - {caller}))
    case WriteRollback(caller) =>
      if caller !in s.rollbacks then s
      else s.(db := OrElse(RolledBack(c, s.db, s.rollbacks[caller]), s.db), rollbacks := s.rollbacks - {caller})
  }

  ghost function Run(c: Config, s: State, events: seq<Event>): State
    decreases |events|
  {
    if events == [] then s else Run(c, Step(c, s, events[0]), events[1..])
  }

  function EmptyDb(evidenceRefs: set<string>, sources: set<string>, artifacts: set<string>): Db {
    Db(evidenceRefs, sources, artifacts, Log(map[], map[], map[], map[]), map[], map[], map[])
  }

  /** Nothing is read, and the knowledge tables are empty; the evidence tables may hold rows of others. */
  predicate Begins(s: State) {
    s == State(EmptyDb(s.db.evidenceRefs, s.db.sources, s.db.artifacts), map[], map[])
  }

  // ---- The invariant ----

  ghost predicate TextsClean(c: Config, db: Db) {
    && (forall r :: r in db.log.revisions ==> Cleaned(db.log.revisions[r].content))
    && (forall id :: id in db.proposals ==>
          Cleaned(db.proposals[id].content) && db.proposals[id].contentHash == c.env.hash(db.proposals[id].content))
  }

  ghost predicate RefsValid(db: Db) {
    forall r :: r in db.log.revisions ==> RefsFit(db.log.revisions[r].refs, db.evidenceRefs)
  }

  predicate RefsFit(refs: seq<string>, known: set<string>) {
    Distinct(refs) && forall ref :: ref in refs ==> ref in known
  }

  ghost predicate TargetValid(c: Config, db: Db, target: TargetRead) {
    && RefsFit(target.row.refs, db.evidenceRefs) && target.id in db.log.entries
    && OpaqueId(target.id) && AllOpaque(target.row.refs) && TitleFits(target.row.title)
    && Cleaned(target.row.content) && target.row.contentHash == c.env.hash(target.row.content)
  }

  ghost predicate ReadsValid(c: Config, s: State) {
    && (forall k :: k in s.targets ==> TargetValid(c, s.db, s.targets[k]))
    && (forall k :: k in s.rollbacks ==>
          && TargetValid(c, s.db, s.rollbacks[k].target)
          && 1 <= s.rollbacks[k].current <= s.db.log.entries[s.rollbacks[k].target.id].current)
  }

  ghost predicate SlugsUnique(pages: map<string, Page>) {
    forall a, b :: a in pages && b in pages && a != b ==> pages[a].slug != pages[b].slug
  }

  ghost predicate DbInv(c: Config, db: Db) {
    KnowledgeLog.Inv(c.env, db.log) && TextsClean(c, db) && RefsValid(db) && SlugsUnique(db.pages)
  }

  ghost predicate Inv(c: Config, s: State) {
    DbInv(c, s.db) && ReadsValid(c, s)
  }

  ghost predicate Kept(db: Db, later: Db) {
    Preserved(db.log, later.log) && db.evidenceRefs <= later.evidenceRefs
  }

  lemma AppendKeepsDbInv(c: Config, db: Db, r: Rev, entry: Entry, row: Revision)
    requires DbInv(c, db) && Appendable(db.log, db.evidenceRefs, r, row) && NextOf(db.log, r, entry)
    requires row.contentHash == c.env.hash(row.content) && Cleaned(row.content)
    ensures var later := db.(log := Appended(c.env, db.log, r, entry, row));
            DbInv(c, later) && Kept(db, later)
  {
    AppendKeepsInv(c.env, db.log, r, entry, row, Appended(c.env, db.log, r, entry, row));
  }

  lemma ImportKeepsInv(c: Config, db: Db, d: Document)
    requires DbInv(c, db) && Imported(c, db, d).Ok?
    ensures DbInv(c, Imported(c, db, d).value) && Kept(db, Imported(c, db, d).value)
  {
    if d.id !in db.log.entries {
      CleanContentIsCleaned(d.text);
      var text := CleanContent(d.text).value;
      AppendKeepsDbInv(c, WithEvidence(db, d), Rev(d.id, 1),
                       Entry(d.title, ProposedEntry, d.category, d.authority, 1), ImportRow(c, d, text));
    }
  }

  lemma ProposeKeepsInv(c: Config, db: Db, id: string, p: Proposal)
    requires DbInv(c, db) && Proposed(c, db, id, p).Ok?
    ensures DbInv(c, Proposed(c, db, id, p).value) && Kept(db, Proposed(c, db, id, p).value)
  {
    CleanContentIsCleaned(p.content);
  }

  lemma ReviewKeepsInv(c: Config, db: Db, id: string, decision: ReviewStatus)
    requires DbInv(c, db) && Reviewed(c, db, id, decision).Ok?
    ensures DbInv(c, Reviewed(c, db, id, decision).value) && Kept(db, Reviewed(c, db, id, decision).value)
  {
    if decision == ApprovedReview {
      var p := db.proposals[id];
      var target := TargetOf(id, p);
      AppendKeepsDbInv(c, db, Rev(target, NextRevision(db.log, target)), ApprovedEntryOf(db.log, target, p),
                       ApprovedRow(id, p));
    }
  }

  /** A rollback whose read went stale is stopped by the primary key, and only then. */
  lemma RollbackWritesIffStillCurrent(c: Config, s: State, k: nat)
    requires Inv(c, s) && k in s.rollbacks
    ensures RolledBack(c, s.db, s.rollbacks[k]).Ok? <==>
              s.rollbacks[k].current == s.db.log.entries[s.rollbacks[k].target.id].current
  {
    var read := s.rollbacks[k];
    var id := read.target.id;
    assert Rev(id, read.current + 1) in s.db.log.revisions <==> read.current < s.db.log.entries[id].current;
  }

  lemma RollbackKeepsInv(c: Config, s: State, k: nat)
    requires Inv(c, s) && k in s.rollbacks && RolledBack(c, s.db, s.rollbacks[k]).Ok?
    ensures s.rollbacks[k].current == s.db.log.entries[s.rollbacks[k].target.id].current
    ensures DbInv(c, RolledBack(c, s.db, s.rollbacks[k]).value)
    ensures Kept(s.db, RolledBack(c, s.db, s.rollbacks[k]).value)
  {
    RollbackWritesIffStillCurrent(c, s, k);
    var read := s.rollbacks[k];
    var id, r := read.target.id, Rev(read.target.id, read.current + 1);
    AppendKeepsDbInv(c, s.db, r, s.db.log.entries[id].(status := ApprovedEntry, current := r.revision),
                     RollbackRow(read.target));
  }

  lemma WithPageKeepsInv(c: Config, db: Db, id: string, title: string)
    requires DbInv(c, db)
    ensures DbInv(c, WithPage(c, db, id, title)) && WithPage(c, db, id, title).log == db.log
    ensures id in WithPage(c, db, id, title).pages
  {
    if id !in db.pages {
      var slug := FreeSlug(c.slugOf(title), SlugsInUse(db.pages));
      assert forall a :: a in db.pages ==> db.pages[a].slug in SlugsInUse(db.pages);
    }
  }

  lemma RequestKeepsInv(c: Config, db: Db, id: string, o: Operation, requester: string)
    requires DbInv(c, db) && Requested(c, db, id, o, requester).Ok?
    ensures DbInv(c, Requested(c, db, id, o, requester).value)
    ensures Kept(db, Requested(c, db, id, o, requester).value)
  {
    WithPageKeepsInv(c, db, o.target, db.log.entries[o.target].title);
  }

  lemma RetitleKeepsInv(c: Config, db: Db, id: string, title: string)
    requires DbInv(c, db) && id in db.log.entries && Retitled(c, db, id, title).Ok?
    ensures DbInv(c, Retitled(c, db, id, title).value) && Kept(db, Retitled(c, db, id, title).value)
  {
    var entry := db.log.entries[id];
    var r := Rev(id, entry.current + 1);
    assert RevisionAgrees(c.env, db.log, Rev(id, entry.current));
    HeldListIsRead(db.log.evidence, Rev(id, entry.current), db.log.revisions[Rev(id, entry.current)].refs);
    var row := RenamedRow(GetRevision(db.log, Rev(id, entry.current)).value, id, entry.current, title);
    AppendKeepsDbInv(c, db, r, entry.(title := title, current := r.revision), row);
  }

  lemma RenameKeepsInv(c: Config, db: Db, o: Operation)
    requires DbInv(c, db) && o.target in db.pages && o.target in db.log.entries && Renamed(c, db, o).Ok?
    ensures DbInv(c, Renamed(c, db, o).value) && Kept(db, Renamed(c, db, o).value)
  {
    var slugged := if o.newSlug.Some? then Reslugged(db, o.target, o.newSlug.value).value else db;
    assert DbInv(c, slugged);
    if o.newTitle.Some? { RetitleKeepsInv(c, slugged, o.target, o.newTitle.value); }
  }

  lemma ApplyKeepsInv(c: Config, db: Db, o: Operation)
    requires DbInv(c, db) && o.target in db.pages && o.target in db.log.entries && Applied(c, db, o).Ok?
    ensures DbInv(c, Applied(c, db, o).value) && Kept(db, Applied(c, db, o).value)
  {
    match o.kind
    case Move =>
    case Archive => EntryChangeKeepsInv(c.env, db.log, o.target, db.log.entries[o.target].(status := ArchivedEntry));
    case Rename => RenameKeepsInv(c, db, o);
  }

  lemma DecidingKeepsInv(c: Config, db: Db, id: string, o: Operation)
    requires DbInv(c, db)
    ensures DbInv(c, db.(operations := db.operations[id := o]))
  {
  }

  lemma ReviewOperationKeepsInv(c: Config, db: Db, id: string, review: OperationReview)
    requires DbInv(c, db) && OperationReviewed(c, db, id, review).Ok?
    ensures DbInv(c, OperationReviewed(c, db, id, review).value)
    ensures Kept(db, OperationReviewed(c, db, id, review).value)
  {
    hide Strip;
    var o := db.operations[id];
    var decided := db.(operations := db.operations[id := o.(status := review.decision)]);
    DecidingKeepsInv(c, db, id, o.(status := review.decision));
    if review.decision == ApprovedReview {
      var title := db.log.entries[o.target].title;
      WithPageKeepsInv(c, decided, o.target, title);
      ApplyKeepsInv(c, WithPage(c, decided, o.target, title), o);
    }
  }

  lemma CallKeepsInv(c: Config, db: Db, call: Call)
    requires DbInv(c, db)
    ensures var later := OrElse(Attempt(c, db, call), db);
            DbInv(c, later) && Kept(db, later)
  {
    if Attempt(c, db, call).Ok? {
      match call
      case Import(d) => ImportKeepsInv(c, db, d);
      case Propose(id, p) => ProposeKeepsInv(c, db, id, p);
      case Review(id, decision) => ReviewKeepsInv(c, db, id, decision);
      case Request(id, o, requester) => RequestKeepsInv(c, db, id, o, requester);
      case ReviewOperation(id, review) => ReviewOperationKeepsInv(c, db, id, review);
    }
  }

  lemma ReadsOutliveWrites(c: Config, s: State, later: Db)
    requires ReadsValid(c, s) && Kept(s.db, later)
    ensures ReadsValid(c, s.(db := later))
  {
  }

  lemma ReadTargetIsValid(c: Config, db: Db, id: string, revision: int)
    requires DbInv(c, db) && ReadTarget(db.log, id, revision).Ok?
    ensures TargetValid(c, db, ReadTarget(db.log, id, revision).value)
    ensures ReadTarget(db.log, id, revision).value.row == db.log.revisions[Rev(id, revision)]
  {
    hide InOrdinalOrder, Cleaned;
    var r := Rev(id, revision);
    assert RevisionAgrees(c.env, db.log, r);
    HeldListIsRead(db.log.evidence, r, db.log.revisions[r].refs);
  }

  lemma FirstReadKeepsInv(c: Config, s: State, caller: nat, id: string, revision: int)
    requires Inv(c, s)
    ensures var e := ReadRollbackTarget(caller, id, revision);
            Inv(c, Step(c, s, e)) && Step(c, s, e).db == s.db
  {
    if ReadTarget(s.db.log, id, revision).Ok? {
      ReadTargetIsValid(c, s.db, id, revision);
      AddingReadKeepsValid(c, s, caller, ReadTarget(s.db.log, id, revision).value);
    }
    hide ReadTarget, TargetValid, ReadsValid, DbInv;
  }

  lemma SecondReadKeepsInv(c: Config, s: State, caller: nat)
    requires Inv(c, s)
    ensures var e := ReadRollbackEntry(caller);
            Inv(c, Step(c, s, e)) && Step(c, s, e).db == s.db
  {
    if caller in s.targets { EntryOfReadExists(c, s, caller); }
    hide ReadTarget, TargetValid, DbInv;
  }

  lemma AddingReadKeepsValid(c: Config, s: State, caller: nat, target: TargetRead)
    requires ReadsValid(c, s) && TargetValid(c, s.db, target)
    ensures ReadsValid(c, s.(targets := s.targets[caller := target]))
  {
    hide TargetValid;
  }

  lemma EntryOfReadExists(c: Config, s: State, caller: nat)
    requires Inv(c, s) && caller in s.targets
    ensures s.targets[caller].id in s.db.log.entries && 1 <= s.db.log.entries[s.targets[caller].id].current
  {
    assert TargetValid(c, s.db, s.targets[caller]);
  }

  lemma WritingKeepsInv(c: Config, s: State, caller: nat)
    requires Inv(c, s) && caller in s.rollbacks
    ensures var later := OrElse(RolledBack(c, s.db, s.rollbacks[caller]), s.db);
            DbInv(c, later) && Kept(s.db, later)
  {
    if RolledBack(c, s.db, s.rollbacks[caller]).Ok? { RollbackKeepsInv(c, s, caller); }
  }

  lemma StepKeepsInv(c: Config, s: State, e: Event)
    requires Inv(c, s)
    ensures Inv(c, Step(c, s, e)) && Preserved(s.db.log, Step(c, s, e).db.log)
  {
    match e
    case Whole(call) =>
      CallKeepsInv(c, s.db, call);
      ReadsOutliveWrites(c, s, OrElse(Attempt(c, s.db, call), s.db));
    case ReadRollbackTarget(caller, id, revision) => FirstReadKeepsInv(c, s, caller, id, revision);
    case ReadRollbackEntry(caller) => SecondReadKeepsInv(c, s, caller);
    case WriteRollback(caller) =>
      if caller in s.rollbacks {
        WritingKeepsInv(c, s, caller);
        ReadsOutliveWrites(c, s, OrElse(RolledBack(c, s.db, s.rollbacks[caller]), s.db));
      }
  }

  /** Over every interleaving each entry's revisions are exactly 1..current and never
      overwritten, every stored hash is its content's, the evidence rows list what the JSON
      copy lists, the index holds each revision's chunks, and slugs stay unique. */
  lemma {:induction false} RunKeepsInv(c: Config, s: State, events: seq<Event>)
    requires Inv(c, s)
    ensures Inv(c, Run(c, s, events)) && Preserved(s.db.log, Run(c, s, events).db.log)
    decreases |events|
  {
    if events != [] {
      var next := Step(c, s, events[0]);
      StepKeepsInv(c, s, events[0]);
      RunKeepsInv(c, next, events[1..]);
      KnowledgeLog.PreservedIsTransitive(s.db.log, next.db.log, Run(c, next, events[1..]).db.log);
    }
  }

  /** In a reachable state the record of a stored revision is made if and only if identifiers and texts fit. */
  lemma RevisionIsReadIffFits(c: Config, db: Db, r: Rev)
    requires DbInv(c, db) && r in db.log.revisions
    ensures GetRevision(db.log, r)
            == if RevisionFits(r.id, db.log.revisions[r]) then Ok(db.log.revisions[r]) else Err(InvalidRecord)
  {
    assert RevisionAgrees(c.env, db.log, r);
    HeldListIsRead(db.log.evidence, r, db.log.revisions[r].refs);
    hide InOrdinalOrder;
  }

  /** In every reachable state, for every stored revision. */
  ghost predicate Faithful(c: Config, log: Log, r: Rev)
    requires r in log.revisions
  {
    var row := log.revisions[r];
    && row.contentHash == c.env.hash(row.content)
    && InOrdinalOrder(log.evidence, r) == row.refs
    && InOrdinalOrder(log.chunks, r) == ChunksOf(row.content)
    && Concat(InOrdinalOrder(log.chunks, r)) == Concat(Paragraphs(row.content))
    && (forall chunk :: chunk in InOrdinalOrder(log.chunks, r) ==> ChunkSized(chunk))
    && GetRevision(log, r) == if RevisionFits(r.id, row) then Ok(row) else Err(InvalidRecord)
  }

  ghost predicate CutsIntoChunks(env: Env) {
    forall text :: env.chunks(text) == ChunksOf(text)
  }

  /** Readers of evidence rows and of the index see what the log holds, and rebuilding the
      index, whichever revisions it covers and in whatever order, leaves it as it is. */
  lemma ReachableStatesAreFaithful(c: Config, start: State, events: seq<Event>, rows: seq<Rev>)
    requires Begins(start)
    ensures var log := Run(c, start, events).db.log;
            CutsIntoChunks(c.env) ==>
              && (forall r :: r in log.revisions <==>
                    r.id in log.entries && 1 <= r.revision <= log.entries[r.id].current)
              && (forall r :: r in log.revisions ==> Faithful(c, log, r))
              && ((forall r :: r in rows ==> r in log.revisions) ==> Reindexed(c.env, log, rows) == log.chunks)
  {
    var s := Run(c, start, events);
    RunKeepsInv(c, start, events);
    forall r | r in s.db.log.revisions
      ensures CutsIntoChunks(c.env) ==> Faithful(c, s.db.log, r)
    {
      RevisionIsFaithful(c, s.db, r);
    }
    if forall r :: r in rows ==> r in s.db.log.revisions { RebuildChangesNothing(c.env, s.db.log, rows); }
  }

  lemma RevisionIsFaithful(c: Config, db: Db, r: Rev)
    requires DbInv(c, db) && r in db.log.revisions
    ensures CutsIntoChunks(c.env) ==> Faithful(c, db.log, r)
  {
    var row := db.log.revisions[r];
    assert RevisionAgrees(c.env, db.log, r);
    HeldListIsRead(db.log.evidence, r, row.refs);
    HeldListIsRead(db.log.chunks, r, c.env.chunks(row.content));
    CleanedIsVisible(row.content);
    ChunksCoverContent(row.content);
    RevisionIsReadIffFits(c, db, r);
  }

  // ---- What a rollback can read ----

  /** A rollback can read what it needs: the revision to restore, and the entry. */
  predicate CanRestore(log: Log, id: string, target: int) {
    && Rev(id, target) in log.revisions && RevisionFits(id, log.revisions[Rev(id, target)])
    && id in log.entries && EntryFits(id, log.entries[id])
  }

  /** Rev(id, current) of the entry, as a rollback to `target` with nothing in between reads it. */
  function RestoreRead(log: Log, id: string, target: int): RollbackRead
    requires CanRestore(log, id, target)
  {
    RollbackRead(TargetRead(id, target, log.revisions[Rev(id, target)]), log.entries[id].current)
  }

  lemma RestoreReads(c: Config, db: Db, id: string, target: int)
    requires DbInv(c, db)
    ensures CanRestore(db.log, id, target) ==>
              && ReadTarget(db.log, id, target) == Ok(RestoreRead(db.log, id, target).target)
              && ReadEntry(db.log, RestoreRead(db.log, id, target).target) == Ok(RestoreRead(db.log, id, target))
    ensures !CanRestore(db.log, id, target) && ReadTarget(db.log, id, target).Ok? ==>
              ReadEntry(db.log, ReadTarget(db.log, id, target).value).Err?
  {
    if Rev(id, target) in db.log.revisions { RevisionIsReadIffFits(c, db, Rev(id, target)); }
    hide RevisionFits, InOrdinalOrder, KnowledgeLog.RevisionAgrees;
  }

  lemma RestoreWrites(c: Config, db: Db, id: string, target: int)
    requires DbInv(c, db) && CanRestore(db.log, id, target)
    ensures var read := RestoreRead(db.log, id, target);
            var outcome := RolledBack(c, db, read);
            && outcome.Ok? && DbInv(c, outcome.value) && Kept(db, outcome.value)
            && id in outcome.value.log.entries
            && outcome.value.log.entries[id]
               == db.log.entries[id].(status := ApprovedEntry, current := read.current + 1)
            && Rev(id, read.current + 1) in outcome.value.log.revisions
            && Restores(outcome.value.log, Rev(id, read.current + 1), db.log.revisions[Rev(id, target)], id, target)
  {
    var read := RestoreRead(db.log, id, target);
    var s := State(db, map[], map[0 := read]);
    RestoreReads(c, db, id, target);
    ReadTargetIsValid(c, db, id, target);
    hide ReadTarget, TargetValid, RevisionFits;
    hide Restores;
    RollbackWritesIffStillCurrent(c, s, 0);
    RollbackKeepsInv(c, s, 0);
    RolledBackStores(c, db, read);
  }

  /** What a restored revision keeps, and what it says of itself: everything but where it came from. */
  ghost predicate Restores(log: Log, r: Rev, was: Revision, id: string, target: int)
    requires r in log.revisions
  {
    var row := log.revisions[r];
    && row.title == was.title && row.content == was.content && row.contentHash == was.contentHash
    && row.refs == was.refs && row.authority == was.authority && row.flagged == was.flagged
    && InOrdinalOrder(log.evidence, r) == was.refs
    && row.sourceType == "rollback" && row.status == ApprovedEntry
    && (0 <= target ==> row.locator == id + "#" + Decimal.Print(target))
  }

  /** A written rollback appends the restored revision, approves the entry at it, and changes nothing else. */
  lemma RolledBackStores(c: Config, db: Db, read: RollbackRead)
    requires DbInv(c, db) && RolledBack(c, db, read).Ok?
    ensures var later := RolledBack(c, db, read).value;
            var id, r := read.target.id, Rev(read.target.id, read.current + 1);
            && r !in db.log.revisions && r in later.log.revisions
            && Restores(later.log, r, read.target.row, id, read.target.revision)
            && later.log.revisions == db.log.revisions[r := later.log.revisions[r]]
            && id in db.log.entries && id in later.log.entries
            && later.log.entries == db.log.entries[id := later.log.entries[id]]
            && later.log.entries[id].title == db.log.entries[id].title
            && later.log.entries[id].category == db.log.entries[id].category
            && later.log.entries[id].authority == db.log.entries[id].authority
            && later.log.entries[id].status == ApprovedEntry && later.log.entries[id].current == read.current + 1
            && later == db.(log := later.log)
  {
    var id, r := read.target.id, Rev(read.target.id, read.current + 1);
    hide Appended, InOrdinalOrder;
    AppendedReads(c.env, db.log, r, db.log.entries[id].(status := ApprovedEntry, current := r.revision),
                  RollbackRow(read.target));
    hide KnowledgeLog.Inv, TextsClean, RefsValid;
  }

  lemma RestoredFits(log: Log, r: Rev, was: Revision, target: int)
    requires r in log.revisions && Restores(log, r, was, r.id, target) && RevisionFits(r.id, was) && 0 <= target
    ensures RevisionFits(r.id, log.revisions[r]) <==> |log.revisions[r].locator| <= MAX_LOCATOR
  {
    hide OpaqueId, AllOpaque;
  }

  // ---- The repository ----

  class KnowledgeRepository {
    const c: Config
    var db: Db

    constructor (c: Config, evidenceRefs: set<string>, sources: set<string>, artifacts: set<string>)
      ensures this.c == c && db == EmptyDb(evidenceRefs, sources, artifacts) && DbInv(c, db)
    {
      this.c := c;
      db := EmptyDb(evidenceRefs, sources, artifacts);
    }

    /** Revision row, evidence rows, then the index of the new revision. */
    method Append(r: Rev, entry: Entry, row: Revision, known: set<string>) returns (ok: bool)
      requires NoStrayRows(db.log)
      modifies this
      ensures ok == Appendable(old(db.log), known, r, row)
      ensures db == if ok then old(db).(log := Appended(c.env, old(db.log), r, entry, row)) else old(db)
    {
      var log := db.log;
      if r in log.revisions || exists ref :: ref in row.refs && ref !in known { return false; }
      var owners := set k | k in log.evidence :: k.owner;
      var evidence;
      ok, evidence := StageChildren(log.evidence, owners, r, row.refs);
      if !ok { return; }
      var chunks := ReplaceChunks(log.chunks, r, row.content);
      db := db.(log := Log(log.entries[r.id := entry], log.revisions[r := row], evidence, chunks));
    }

    method ReplaceChunks(chunks: Children<Rev, string>, r: Rev, content: string) returns (rows: Children<Rev, string>)
      ensures rows == Replaced(chunks, r, c.env.chunks(content))
    {
      rows := InsertNumbered(Without(chunks, r), r, c.env.chunks(content));
    }

    method ImportDocument(d: Document) returns (r: Result<Revision, Error>)
      requires DbInv(c, db)
      modifies this
      ensures db == OrElse(Imported(c, old(db), d), old(db)) && DbInv(c, db)
      ensures match Imported(c, old(db), d)
              case Ok(_) =>
                && d.id in db.log.entries && Rev(d.id, db.log.entries[d.id].current) in db.log.revisions
                && r == GetRevision(db.log, Rev(d.id, db.log.entries[d.id].current))
                && (r.Ok? <==> RevisionFits(d.id, db.log.revisions[Rev(d.id, db.log.entries[d.id].current)]))
              case Err(e) => r == Err(e)
    {
      CallKeepsInv(c, db, Import(d));
      match CleanContent(d.text) {
        case Err(_) => return Err(BadContent);
        case Ok(text) =>
          if d.id in db.log.entries {
            RevisionIsReadIffFits(c, db, Rev(d.id, db.log.entries[d.id].current));
            return GetRevision(db.log, Rev(d.id, db.log.entries[d.id].current));
          }
          if !EvidenceAccepted(db, d) { return Err(ConstraintViolated); }
          var found := WithEvidence(db, d);
          var row := ImportRow(c, d, text);
          var ok := Append(Rev(d.id, 1), Entry(d.title, ProposedEntry, d.category, d.authority, 1), row,
                           found.evidenceRefs);
          if !ok { return Err(ConstraintViolated); }
          db := found.(log := db.log);
          RevisionIsReadIffFits(c, db, Rev(d.id, 1));
          r := GetRevision(db.log, Rev(d.id, 1));
      }
    }

    method ReviewProposal(id: string, decision: ReviewStatus) returns (r: Result<Proposal, Error>)
      requires DbInv(c, db)
      modifies this
      ensures db == OrElse(Reviewed(c, old(db), id, decision), old(db)) && DbInv(c, db)
      ensures match Reviewed(c, old(db), id, decision)
              case Ok(_) => id in db.proposals && r == GetProposal(db, id)
              case Err(e) => r == Err(e)
    {
      CallKeepsInv(c, db, Review(id, decision));
      if decision == PendingReview { return Err(BadDecision); }
      if id !in db.proposals { return Err(Missing); }
      var p := db.proposals[id];
      if p.status != PendingReview { return Err(AlreadyReviewed); }
      if decision == ApprovedReview {
        var target := TargetOf(id, p);
        var ok := Append(Rev(target, NextRevision(db.log, target)), ApprovedEntryOf(db.log, target, p),
                         ApprovedRow(id, p), db.evidenceRefs);
        if !ok { return Err(ConstraintViolated); }
      }
      db := db.(proposals := db.proposals[id := p.(status := decision)]);
      r := GetProposal(db, id);
    }

    method CreateProposal(id: string, p: Proposal) returns (r: Result<Proposal, Error>)
      requires DbInv(c, db)
      modifies this
      ensures db == OrElse(Proposed(c, old(db), id, p), old(db)) && DbInv(c, db)
      ensures match Proposed(c, old(db), id, p)
              case Ok(_) => id in db.proposals && r == GetProposal(db, id)
              case Err(e) => r == Err(e)
    {
      CallKeepsInv(c, db, Propose(id, p));
      match CleanContent(p.content) {
        case Err(_) => return Err(BadContent);
        case Ok(text) =>
          if id in db.proposals {
            var stored := db.proposals[id];
            if stored.category != p.category || stored.title != p.title || stored.content != text
               || stored.authority != p.authority || stored.createdBy != p.createdBy
            {
              return Err(DifferentContent);
            }
            return GetProposal(db, id);
          }
          var base := p.base;
          if p.target.Some? {
            if p.target.value !in db.log.entries { return Err(MissingTarget); }
            if base.None? { base := Some(db.log.entries[p.target.value].current); }
          }
          if exists ref :: ref in p.refs && ref !in db.evidenceRefs { return Err(UnknownEvidence); }
          var stored := p.(base := base, content := text, contentHash := c.env.hash(text), status := PendingReview);
          db := db.(proposals := db.proposals[id := stored]);
          r := GetProposal(db, id);
      }
    }

    /** Read and write with nothing in between: a stored revision is restored exactly when it and its
        entry can be read, and the restored one is returned when its locator fits as well. */
    method Rollback(id: string, target: int) returns (r: Result<Revision, Error>)
      requires DbInv(c, db)
      modifies this
      ensures DbInv(c, db) && Preserved(old(db).log, db.log)
      ensures !CanRestore(old(db).log, id, target) ==> r.Err? && db == old(db)
      ensures CanRestore(old(db).log, id, target) ==>
                && id in db.log.entries && id in old(db).log.entries
                && db.log.entries[id].current == old(db).log.entries[id].current + 1
                && Rev(id, db.log.entries[id].current) in db.log.revisions
                && db.log.entries[id].status == ApprovedEntry
                && db.log.entries[id].title == old(db).log.entries[id].title
                && var row := db.log.revisions[Rev(id, db.log.entries[id].current)];
                && Restores(db.log, Rev(id, db.log.entries[id].current), old(db).log.revisions[Rev(id, target)], id,
                            target)
                && r == if |row.locator| <= MAX_LOCATOR then Ok(row) else Err(InvalidRecord)
    {
      assert Rev(id, target) in db.log.revisions ==> 1 <= target;
      hide DbInv, RolledBack, ReadTarget, ReadEntry, RevisionFits;
      RestoreReads(c, db, id, target);
      var restored := ReadTarget(db.log, id, target);
      if restored.Err? { return Err(restored.error); }
      var read := ReadEntry(db.log, restored.value);
      if read.Err? { return Err(read.error); }
      RestoreWrites(c, db, id, target);
      hide Restores;
      r := WriteRollback(read.value);
      RevisionIsReadIffFits(c, db, Rev(id, read.value.current + 1));
      RestoredFits(db.log, Rev(id, read.value.current + 1), old(db).log.revisions[Rev(id, target)], target);
    }

    /** The writing half of a rollback, at whatever time it runs. */
    method WriteRollback(read: RollbackRead) returns (r: Result<Revision, Error>)
      requires DbInv(c, db)
      modifies this
      ensures db == OrElse(RolledBack(c, old(db), read), old(db))
      ensures match RolledBack(c, old(db), read)
              case Ok(_) =>
                && Rev(read.target.id, read.current + 1) in db.log.revisions
                && Restores(db.log, Rev(read.target.id, read.current + 1), read.target.row, read.target.id,
                            read.target.revision)
                && r == GetRevision(db.log, Rev(read.target.id, read.current + 1))
              case Err(e) => r == Err(e)
    {
      if RolledBack(c, db, read).Ok? { RolledBackStores(c, db, read); }
      hide Restores;
      var id := read.target.id;
      if id !in db.log.entries { return Err(ConstraintViolated); }
      var rev := Rev(id, read.current + 1);
      var entry := db.log.entries[id].(status := ApprovedEntry, current := rev.revision);
      var ok := Append(rev, entry, RollbackRow(read.target), db.evidenceRefs);
      r := if ok then GetRevision(db.log, rev) else Err(ConstraintViolated);
    }

    method EnsureWikiMetadata(id: string, title: string) returns (slug: string)
      requires DbInv(c, db)
      modifies this
      ensures db == WithPage(c, old(db), id, title) && DbInv(c, db)
      ensures id in db.pages && slug == db.pages[id].slug
    {
      WithPageKeepsInv(c, db, id, title);
      if id in db.pages { return db.pages[id].slug; }
      ghost var probes;
      slug, probes := Probe(c.slugOf(title), SlugsInUse(db.pages));
      db := db.(pages := db.pages[id := Page(slug, None)]);
    }

    /** A refusal after the page was made rolls the page back. */
    method ProposeWikiOperation(id: string, o: Operation, requester: string) returns (r: Result<(), Error>)
      requires DbInv(c, db)
      modifies this
      ensures DbInv(c, db) && Kept(old(db), db)
      ensures db == OrElse(Requested(c, old(db), id, o, requester), old(db))
      ensures match Requested(c, old(db), id, o, requester) case Ok(_) => r.Ok? case Err(e) => r == Err(e)
    {
      hide Strip;
      if Strip(requester) == "" { return Err(BlankText); }
      if o.kind == Rename && o.newTitle.GetOr("") == "" && o.newSlug.GetOr("") == "" { return Err(BadOperation); }
      if o.kind == Move && o.parent.GetOr("") == "" { return Err(BadOperation); }
      if o.target !in db.log.entries { return Err(MissingTarget); }
      if o.parent.Some? {
        if o.parent.value == o.target { return Err(SelfParent); }
        if o.parent.value !in db.log.entries { return Err(MissingParent); }
      }
      var begun := db;
      var pageSlug := EnsureWikiMetadata(o.target, db.log.entries[o.target].title);
      if id in db.operations {
        if SameRequest(db.operations[id], o) { return Ok(()); }
        db := begun;
        return Err(DifferentContent);
      }
      var slug: Option<string> := None;
      if o.newSlug.Some? {
        slug := Some(c.slugOf(o.newSlug.value));
        if SlugTakenByOther(db.pages, slug.value, o.target) {
          db := begun;
          return Err(SlugInUse);
        }
      }
      db := db.(operations := db.operations[id := o.(newSlug := slug, status := PendingReview)]);
      r := Ok(());
    }

    method ReviewWikiOperation(id: string, review: OperationReview) returns (r: Result<(), Error>)
      requires DbInv(c, db)
      modifies this
      ensures DbInv(c, db) && Kept(old(db), db)
      ensures db == OrElse(OperationReviewed(c, old(db), id, review), old(db))
      ensures match OperationReviewed(c, old(db), id, review) case Ok(_) => r.Ok? case Err(e) => r == Err(e)
    {
      hide Strip;
      var decision := review.decision;
      if decision == PendingReview { return Err(BadDecision); }
      if Strip(review.reviewer) == "" || Strip(review.reason) == "" { return Err(BlankText); }
      if id !in db.operations { return Err(Missing); }
      var o := db.operations[id];
      if o.status != PendingReview { return Err(AlreadyReviewed); }
      if o.target !in db.log.entries { return Err(MissingTarget); }
      DecidingKeepsInv(c, db, id, o.(status := decision));
      var begun := db;
      db := db.(operations := db.operations[id := o.(status := decision)]);
      r := Ok(());
      if decision == ApprovedReview {
        var slug := EnsureWikiMetadata(o.target, db.log.entries[o.target].title);
        r := ApplyOperation(o);
        if r.Err? { db := begun; }
      }
    }

    /** A move touches one page's parent, an archive one entry's status, a rename one slug and one
        new revision; a rename that fails after its slug is rolled back by its caller. */
    method ApplyOperation(o: Operation) returns (r: Result<(), Error>)
      requires DbInv(c, db) && o.target in db.pages && o.target in db.log.entries
      modifies this
      ensures DbInv(c, db) && Kept(old(db), db)
      ensures db.pages.Keys == old(db).pages.Keys
      ensures forall id :: id in db.pages && id != o.target ==> db.pages[id] == old(db).pages[id]
      ensures o.kind != Rename ==> r.Ok? && db.log.revisions == old(db).log.revisions
      ensures match Applied(c, old(db), o)
              case Ok(later) => r.Ok? && db == later
              case Err(e) => r == Err(e)
    {
      r := Ok(());
      match o.kind {
        case Move => db := db.(pages := db.pages[o.target := db.pages[o.target].(parent := o.parent)]);
        case Archive =>
          var entry := db.log.entries[o.target].(status := ArchivedEntry);
          EntryChangeKeepsInv(c.env, db.log, o.target, entry);
          db := db.(log := db.log.(entries := db.log.entries[o.target := entry]));
        case Rename => r := ApplyRename(o);
      }
    }

    /** The slug first, then the title; a slug in use by another page keeps the title as it was. */
    method ApplyRename(o: Operation) returns (r: Result<(), Error>)
      requires DbInv(c, db) && o.target in db.pages && o.target in db.log.entries
      modifies this
      ensures DbInv(c, db) && Kept(old(db), db) && db.pages.Keys == old(db).pages.Keys
      ensures forall id :: id in db.pages && id != o.target ==> db.pages[id] == old(db).pages[id]
      ensures match Renamed(c, old(db), o)
              case Ok(later) => r.Ok? && db == later
              case Err(e) => r == Err(e)
    {
      hide DbInv, Retitled;
      r := Ok(());
      if o.newSlug.Some? { r := SetSlug(o.target, o.newSlug.value); }
      if r.Ok? && o.newTitle.Some? { r := SetTitle(o.target, o.newTitle.value); }
    }

    /** Refused exactly when another page has the slug; then, or otherwise, slugs stay unique, and
        nothing but this page's slug changes. */
    method SetSlug(id: string, slug: string) returns (r: Result<(), Error>)
      requires DbInv(c, db) && id in db.pages
      modifies this
      ensures DbInv(c, db) && SlugsUnique(db.pages) && Kept(old(db), db)
      ensures db == old(db).(pages := db.pages) && db.pages.Keys == old(db).pages.Keys
      ensures forall other :: other in db.pages && other != id ==> db.pages[other] == old(db).pages[other]
      ensures db.pages[id].parent == old(db).pages[id].parent
      ensures db.pages[id].slug == if r.Ok? then slug else old(db).pages[id].slug
      ensures r.Ok? <==> forall other :: other in db.pages && other != id ==> db.pages[other].slug != slug
      ensures r.Err? ==> r.error == SlugInUse
      ensures Reslugged(old(db), id, slug) == match r case Ok(_) => Ok(db) case Err(e) => Err(e)
    {
      if SlugTakenByOther(db.pages, slug, id) { return Err(SlugInUse); }
      db := db.(pages := db.pages[id := db.pages[id].(slug := slug)]);
      r := Ok(());
    }

    /** A new title is a new revision with the current content. */
    method SetTitle(id: string, title: string) returns (r: Result<(), Error>)
      requires DbInv(c, db) && id in db.log.entries
      modifies this
      ensures DbInv(c, db) && Kept(old(db), db) && db.pages == old(db).pages
      ensures match Retitled(c, old(db), id, title)
              case Ok(later) => r.Ok? && db == later
              case Err(e) => r == Err(e)
    {
      if Retitled(c, db, id, title).Ok? { RetitleKeepsInv(c, db, id, title); }
      var entry := db.log.entries[id];
      var current := GetRevision(db.log, Rev(id, entry.current));
      if current.Err? { return Err(current.error); }
      var rev := Rev(id, entry.current + 1);
      var ok := Append(rev, entry.(title := title, current := rev.revision),
                       RenamedRow(current.value, id, entry.current, title), db.evidenceRefs);
      r := if ok then Ok(()) else Err(ConstraintViolated);
    }

    /** One pass over the stored revisions, replacing the chunks of each. */
    method RebuildIndex(rows: seq<Rev>) returns (count: nat)
      requires DbInv(c, db) && forall r :: r in rows ==> r in db.log.revisions
      modifies this
      ensures db == old(db) && count == |rows|
    {
      var chunks := db.log.chunks;
      for i := 0 to |rows|
        invariant chunks == db.log.chunks && db == old(db)
      {
        assert RevisionAgrees(c.env, db.log, rows[i]);
        ReplacingHeldList(chunks, rows[i], c.env.chunks(db.log.revisions[rows[i]].content));
        chunks := ReplaceChunks(chunks, rows[i], db.log.revisions[rows[i]].content);
      }
      db := db.(log := db.log.(chunks := chunks));
      count := |rows|;
    }
  }
}
