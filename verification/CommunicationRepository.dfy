/** Communication drafts: creation under a daily limit, review, and the states a
    user records afterwards.

    Review and transition read in one transaction, write in another, and read their
    answer back in a third, so calls of any number of callers interleave between the
    three. `Step` is the system of all those calls; the class holds the three calls as
    each runs on its own. */
module Communication {
  import opened Wrappers
  import Decimal

  datatype Status =
    | PendingReview | Approved | Rejected | Sent | Replied | FollowUp | Closed | Blocked

  datatype Channel = Email | PlatformMessage | FollowUpNote

  datatype Message = Message(opportunityId: string, stagingId: Option<string>, channel: Channel,
                             recipient: Option<string>, body: string, createdBy: string)

  /** The day stands for the date part of the creation time. */
  datatype Draft = Draft(message: Message, status: Status, provenance: map<string, string>, createdDay: int,
                         reviewedBy: Option<string>, reviewReason: Option<string>, reviewedAt: Option<int>)

  type Drafts = map<string, Draft>

  datatype Error = BadLimit | DifferentContent | BadDecision | Missing | AlreadyReviewed | NotAllowed

  // ---- Creation ----

  predicate SameButTimes(x: Draft, y: Draft) {
    x.(createdDay := 0, reviewedAt := None) == y.(createdDay := 0, reviewedAt := None)
  }

  function CreatedOn(drafts: Drafts, day: int): set<string> {
    set id | id in drafts && drafts[id].createdDay == day
  }

  predicate Sendable(status: Status) {
    status == PendingReview || status == Approved
  }

  function BlockedByLimit(draft: Draft, limit: nat): Draft {
    draft.(status := Blocked,
           provenance :=
             draft.provenance["blocked_reason" := "daily_communication_limit"]["daily_limit" := Decimal.Print(limit)])
  }

  function Persisted(drafts: Drafts, draft: Draft, limit: nat, today: int): Draft {
    if |CreatedOn(drafts, today)| >= limit && Sendable(draft.status) then BlockedByLimit(draft, limit) else draft
  }

  /** The insert names no review column, so those start empty. */
  function Unreviewed(draft: Draft): Draft {
    draft.(reviewedBy := None, reviewReason := None, reviewedAt := None)
  }

  function AfterCreate(drafts: Drafts, id: string, draft: Draft, limit: int, today: int): Drafts {
    if limit < 1 || id in drafts then drafts
    else drafts[id := Unreviewed(Persisted(drafts, draft, limit, today))]
  }

  // ---- Calls in flight ----

  /** A call that has read its draft, passed its checks and has yet to write. */
  datatype Call =
    | Reviewing(id: string, decision: Status, reason: string, at: int)
    | Transitioning(id: string, target: Status)

  /** `calls` have read and not yet written, `written` have written and not yet read back. */
  datatype State = State(drafts: Drafts, calls: map<nat, Call>, written: map<nat, Call>)

  datatype Event =
    | Create(id: string, draft: Draft, limit: int, today: int)
    | Read(caller: nat, call: Call)
    | Write(caller: nat)
    | ReadBack(caller: nat)

  predicate Allowed(source: Status, target: Status) {
    match source
    case Approved => target in {Sent, Blocked, Closed}
    case Sent => target in {Replied, FollowUp, Closed}
    case Replied => target in {FollowUp, Closed}
    case FollowUp => target in {Replied, Closed}
    case Blocked => target == Closed
    case _ => false
  }

  /** The checks made on the draft that was read. */
  predicate Proceeds(drafts: Drafts, call: Call) {
    && call.id in drafts
    && match call
       case Reviewing(id, decision, _, _) =>
         decision in {Approved, Rejected} && drafts[id].status == PendingReview
       case Transitioning(id, target) => Allowed(drafts[id].status, target)
  }

  /** The review update is guarded by the pending status, the transition update is not. */
  function Written(drafts: Drafts, call: Call): Drafts {
    if call.id !in drafts then drafts
    else match call
      case Reviewing(id, decision, reason, at) =>
        if drafts[id].status == PendingReview
        then drafts[id := drafts[id].(status := decision, reviewedBy := Some("user"),
                                      reviewReason := Some(reason), reviewedAt := Some(at))]
        else drafts
      case Transitioning(id, target) => drafts[id := drafts[id].(status := target)]
  }

  function Step(s: State, e: Event): State {
    match e
    case Create(id, draft, limit, today) => s.(drafts := AfterCreate(s.drafts, id, draft, limit, today))
    case Read(caller, call) =>
      if caller !in s.calls && caller !in s.written && Proceeds(s.drafts, call)
      then s.(calls := s.calls[caller := call]) else s
    case Write(caller) =>
      if caller in s.calls
      then State(Written(s.drafts, s.calls[caller]), s.calls - {caller}, s.written[caller := s.calls[caller]]) else s
    case ReadBack(caller) => s.(written := s.written - {caller})
  }

  /** What a caller that has written is answered if it reads back now. */
  function Answer(s: State, caller: nat): Option<Draft> {
    if caller in s.written && s.written[caller].id in s.drafts then Some(s.drafts[s.written[caller].id]) else None
  }

  function Run(s: State, events: seq<Event>): State
    decreases |events|
  {
    if events == [] then s else Run(Step(s, events[0]), events[1..])
  }

  // ---- What each step does to the drafts ----

  /** The states a user may record after one another. */
  const TRANSITIONS: set<(Status, Status)> :=
    {(Approved, Sent), (Approved, Blocked), (Approved, Closed), (Sent, Replied), (Sent, FollowUp), (Sent, Closed),
     (Replied, FollowUp), (Replied, Closed), (FollowUp, Replied), (FollowUp, Closed), (Blocked, Closed)}

  lemma AllowedIff(source: Status, target: Status)
    ensures Allowed(source, target) <==> (source, target) in TRANSITIONS
  {
  }

  /** A caller makes one call at a time, and goes on to write when it found its draft, and that pending for a
      review with a decision, or in a state that its transition may follow. */
  lemma ReadStores(s: State, caller: nat, call: Call)
    ensures var later := Step(s, Read(caller, call));
            && later == s.(calls := later.calls)
            && (later.calls == s.calls || later.calls == s.calls[caller := call])
            && (caller in s.calls ==> later == s)
            && (caller !in s.calls ==>
                  (caller in later.calls <==>
                     && caller !in s.written && call.id in s.drafts
                     && match call
                        case Reviewing(id, decision, _, _) =>
                          s.drafts[id].status == PendingReview && (decision == Approved || decision == Rejected)
                        case Transitioning(id, target) => (s.drafts[id].status, target) in TRANSITIONS))
  {
    if call.Transitioning? && call.id in s.drafts { AllowedIff(s.drafts[call.id].status, call.target); }
  }

  /** A review writes decision, reviewer, reason and time to a draft that is still pending, and nothing to
      another; a transition writes the status alone, whatever it is by then. */
  lemma WriteStores(s: State, caller: nat)
    requires caller in s.calls && s.calls[caller].id in s.drafts
    ensures var call, later := s.calls[caller], Step(s, Write(caller));
            var before := s.drafts[call.id];
            && later.calls == s.calls - {caller} && later.written == s.written[caller := call]
            && later.drafts.Keys == s.drafts.Keys
            && (forall id :: id in s.drafts && id != call.id ==> later.drafts[id] == s.drafts[id])
            && later.drafts[call.id]
               == match call
                  case Reviewing(_, decision, reason, at) =>
                    if before.status != PendingReview then before
                    else
                      Draft(before.message, decision, before.provenance, before.createdDay, Some("user"),
                            Some(reason), Some(at))
                  case Transitioning(_, target) =>
                    Draft(before.message, target, before.provenance, before.createdDay, before.reviewedBy,
                          before.reviewReason, before.reviewedAt)
  {
  }

  /** Reason and limit are added, and nothing is taken away. */
  predicate SaysWhyBlocked(provenance: map<string, string>, before: map<string, string>, limit: nat) {
    provenance == before + map["blocked_reason" := "daily_communication_limit", "daily_limit" := Decimal.Print(limit)]
  }

  lemma BlockedSaysWhy(draft: Draft, limit: nat)
    ensures SaysWhyBlocked(BlockedByLimit(draft, limit).provenance, draft.provenance, limit)
    ensures BlockedByLimit(draft, limit)
            == draft.(status := Blocked, provenance := BlockedByLimit(draft, limit).provenance)
  {
  }

  /** Reading back ends the call, and answers the draft as it is by then. */
  lemma ReadBackStores(s: State, caller: nat)
    ensures Step(s, ReadBack(caller)) == State(s.drafts, s.calls, s.written - {caller})
    ensures caller in s.written && s.written[caller].id in s.drafts ==>
              Answer(s, caller) == Some(s.drafts[s.written[caller].id])
  {
  }

  /** A new draft is stored without a review, and blocked with the reason and the limit in its provenance when
      it could be sent and the day has reached the limit; a used identity stores nothing. */
  lemma CreateStores(s: State, id: string, draft: Draft, limit: int, today: int)
    ensures var later := Step(s, Create(id, draft, limit, today));
            && later == s.(drafts := later.drafts)
            && (limit < 1 || id in s.drafts ==> later.drafts == s.drafts)
            && (1 <= limit && id !in s.drafts ==>
                  && id in later.drafts && later.drafts == s.drafts[id := later.drafts[id]]
                  && var stored := later.drafts[id];
                     && stored.message == draft.message && stored.createdDay == draft.createdDay
                     && stored.reviewedBy.None? && stored.reviewReason.None? && stored.reviewedAt.None?
                     && if && |set x | x in s.drafts && s.drafts[x].createdDay == today| >= limit
                           && (draft.status == PendingReview || draft.status == Approved)
                        then stored.status == Blocked && SaysWhyBlocked(stored.provenance, draft.provenance, limit)
                        else stored.status == draft.status && stored.provenance == draft.provenance)
  {
    assert CreatedOn(s.drafts, today) == set x | x in s.drafts && s.drafts[x].createdDay == today;
    if 1 <= limit { BlockedSaysWhy(draft, limit); }
    hide BlockedByLimit, SaysWhyBlocked, CreatedOn;
  }

  /** Two drafts are the same for a retry when all but the two times agree. */
  lemma SameButTimesIff(x: Draft, y: Draft)
    ensures SameButTimes(x, y) <==>
              && x.message == y.message && x.status == y.status && x.provenance == y.provenance
              && x.reviewedBy == y.reviewedBy && x.reviewReason == y.reviewReason
  {
  }

  // ---- The invariant over calls in flight ----

  /** No transition is in flight on a pending or rejected draft, and a pending draft
      carries no review. */
  ghost predicate Inv(s: State) {
    && (forall c :: c in s.calls ==> s.calls[c].id in s.drafts)
    && (forall c :: c in s.calls && s.calls[c].Reviewing? ==> s.calls[c].decision in {Approved, Rejected})
    && (forall c :: c in s.calls && s.calls[c].Transitioning? ==>
          && s.calls[c].target !in {PendingReview, Rejected, Approved}
          && s.drafts[s.calls[c].id].status != PendingReview
          && s.drafts[s.calls[c].id].status != Rejected)
    && (forall id :: id in s.drafts && s.drafts[id].status == PendingReview ==>
          Unreviewed(s.drafts[id]) == s.drafts[id])
  }

  /** What no step may take back from a draft. */
  ghost predicate Kept(before: Draft, after: Draft) {
    && before.message == after.message && before.provenance == after.provenance
    && before.createdDay == after.createdDay
    && (before.status != PendingReview ==> after.status != PendingReview)
    && (before.status == Rejected ==> after.status == Rejected)
    && (before.status != PendingReview ==>
          (before.reviewedBy, before.reviewReason, before.reviewedAt) ==
          (after.reviewedBy, after.reviewReason, after.reviewedAt))
  }

  lemma WriteKeeps(s: State, caller: nat, id: string)
    requires Inv(s) && caller in s.calls && id in s.drafts
    ensures id in Step(s, Write(caller)).drafts
    ensures Kept(s.drafts[id], Step(s, Write(caller)).drafts[id])
  {
  }

  lemma StepKeeps(s: State, e: Event)
    requires Inv(s)
    ensures forall id :: id in s.drafts ==> id in Step(s, e).drafts && Kept(s.drafts[id], Step(s, e).drafts[id])
  {
    forall id | id in s.drafts
      ensures id in Step(s, e).drafts && Kept(s.drafts[id], Step(s, e).drafts[id])
    {
      if e.Write? && e.caller in s.calls { WriteKeeps(s, e.caller, id); }
    }
  }

  lemma WriteKeepsInv(s: State, caller: nat)
    requires Inv(s) && caller in s.calls
    ensures Inv(Step(s, Write(caller)))
  {
    match s.calls[caller] {
      case Reviewing(id, _, _, _) =>
        if s.drafts[id].status == PendingReview {
          assert forall c :: c in s.calls && s.calls[c].Transitioning? ==> s.calls[c].id != id;
        }
      case Transitioning(id, target) =>
    }
  }

  lemma StepKeepsInv(s: State, e: Event)
    requires Inv(s)
    ensures Inv(Step(s, e))
    ensures forall id :: id in s.drafts ==> id in Step(s, e).drafts && Kept(s.drafts[id], Step(s, e).drafts[id])
  {
    StepKeeps(s, e);
    if e.Write? && e.caller in s.calls { WriteKeepsInv(s, e.caller); }
  }

  /** Under every interleaving: no draft vanishes or changes its message, none returns
      to pending, a rejected draft stays rejected, and a recorded review is never
      overwritten. */
  lemma {:induction false} RunKeepsReviews(s: State, events: seq<Event>)
    requires Inv(s)
    ensures Inv(Run(s, events))
    ensures forall id :: id in s.drafts ==> id in Run(s, events).drafts && Kept(s.drafts[id], Run(s, events).drafts[id])
    decreases |events|
  {
    if events != [] {
      StepKeepsInv(s, events[0]);
      RunKeepsReviews(Step(s, events[0]), events[1..]);
    }
  }

  predicate RecordsReview(s: State, e: Event, id: string) {
    && e.Write? && e.caller in s.calls && s.calls[e.caller].Reviewing? && s.calls[e.caller].id == id
    && id in s.drafts && s.drafts[id].status == PendingReview
  }

  /** How often a run writes the review columns of one draft. */
  function ReviewsRecorded(s: State, events: seq<Event>, id: string): nat
    decreases |events|
  {
    if events == [] then 0
    else (if RecordsReview(s, events[0], id) then 1 else 0) + ReviewsRecorded(Step(s, events[0]), events[1..], id)
  }

  /** However many reviewers race, a draft's review is written at most once, and only
      while it is pending. */
  lemma {:induction false} ReviewIsRecordedAtMostOnce(s: State, events: seq<Event>, id: string)
    requires Inv(s)
    ensures ReviewsRecorded(s, events, id) <= 1
    ensures id in s.drafts && s.drafts[id].status != PendingReview ==> ReviewsRecorded(s, events, id) == 0
    ensures id in s.drafts && s.drafts[id].status == PendingReview && ReviewsRecorded(s, events, id) == 0 ==>
              id in Run(s, events).drafts && Run(s, events).drafts[id] == s.drafts[id]
    decreases |events|
  {
    if events != [] {
      StepKeepsInv(s, events[0]);
      ReviewIsRecordedAtMostOnce(Step(s, events[0]), events[1..], id);
    }
  }

  // ---- What a reviewer is answered ----

  /** The status is the decision, or one that only follows it. */
  predicate Agrees(decision: Status, status: Status) {
    if decision == Rejected then status == Rejected else status != PendingReview && status != Rejected
  }

  lemma AgreesIff(decision: Status, status: Status)
    requires decision == Approved || decision == Rejected
    ensures Agrees(decision, status) <==>
              if decision == Rejected then status == Rejected
              else status in {Approved, Sent, Replied, FollowUp, Closed, Blocked}
  {
  }

  predicate MovesDraft(s: State, e: Event, id: string) {
    e.Write? && e.caller in s.calls && s.calls[e.caller].Transitioning? && s.calls[e.caller].id == id
  }

  predicate Undisturbed(s: State, events: seq<Event>, id: string)
    decreases |events|
  {
    events == [] || (!MovesDraft(s, events[0], id) && Undisturbed(Step(s, events[0]), events[1..], id))
  }

  lemma {:induction false} UndisturbedKeepsStatus(s: State, events: seq<Event>, id: string)
    requires Inv(s) && id in s.drafts && s.drafts[id].status != PendingReview && Undisturbed(s, events, id)
    ensures id in Run(s, events).drafts && Run(s, events).drafts[id].status == s.drafts[id].status
    decreases |events|
  {
    if events != [] {
      StepKeepsInv(s, events[0]);
      UndisturbedKeepsStatus(Step(s, events[0]), events[1..], id);
    }
  }

  lemma {:induction false} StaysWritten(s: State, events: seq<Event>, caller: nat)
    requires caller in s.written && caller !in s.calls && ReadBack(caller) !in events
    ensures caller in Run(s, events).written && Run(s, events).written[caller] == s.written[caller]
    decreases |events|
  {
    if events != [] {
      StaysWritten(Step(s, events[0]), events[1..], caller);
    }
  }

  /** Whatever happens between a reviewer's write and its read back: the answer agrees with the
      decision if and only if the write found the draft pending, or an earlier decision agreed; only
      in the first case are the reason and the time the reviewer's own. */
  lemma ReviewerIsAnswered(s: State, caller: nat, events: seq<Event>)
    requires Inv(s) && caller in s.calls && s.calls[caller].Reviewing? && ReadBack(caller) !in events
    ensures var call := s.calls[caller];
            var found, answer := s.drafts[call.id], Answer(Run(Step(s, Write(caller)), events), caller);
            && answer.Some?
            && (Agrees(call.decision, answer.value.status) <==>
                  found.status == PendingReview || Agrees(call.decision, found.status))
            && (answer.value.reviewedBy, answer.value.reviewReason, answer.value.reviewedAt)
               == (if found.status == PendingReview then (Some("user"), Some(call.reason), Some(call.at))
                   else (found.reviewedBy, found.reviewReason, found.reviewedAt))
            && (Undisturbed(Step(s, Write(caller)), events, call.id) ==>
                  (answer.value.status == call.decision <==>
                     found.status == PendingReview || found.status == call.decision))
  {
    var call, next := s.calls[caller], Step(s, Write(caller));
    StepKeepsInv(s, Write(caller));
    RunKeepsReviews(next, events);
    StaysWritten(next, events, caller);
    if Undisturbed(next, events, call.id) { UndisturbedKeepsStatus(next, events, call.id); }
    if next.drafts[call.id].status != Rejected { RejectedOnlyByReview(next, events, call.id); }
  }

  /** A draft that is decided and not rejected is never rejected. */
  lemma {:induction false} RejectedOnlyByReview(s: State, events: seq<Event>, id: string)
    requires Inv(s) && id in s.drafts && s.drafts[id].status != PendingReview && s.drafts[id].status != Rejected
    ensures id in Run(s, events).drafts && Run(s, events).drafts[id].status != Rejected
    decreases |events|
  {
    if events != [] {
      StepKeepsInv(s, events[0]);
      RejectedOnlyByReview(Step(s, events[0]), events[1..], id);
    }
  }

  /** Two reviewers of a pending draft: the one that writes last is answered with the other decision. */
  lemma LoserIsAnsweredWithOtherDecision(draft: Draft, reason: string, at: int)
    requires draft.status == PendingReview && Unreviewed(draft) == draft
    ensures var s := State(map["d" := draft], map[], map[]);
            var events := [Read(1, Reviewing("d", Rejected, reason, at)), Read(2, Reviewing("d", Approved, reason, at)),
                           Write(2), Write(1)];
            && Inv(s) && 1 in Run(s, events).written
            && Run(s, events).written[1] == Reviewing("d", Rejected, reason, at)
            && Answer(Run(s, events), 1).Some? && Answer(Run(s, events), 1).value.status == Approved
  {
    var s := State(map["d" := draft], map[], map[]);
    var e1, e2 := Read(1, Reviewing("d", Rejected, reason, at)), Read(2, Reviewing("d", Approved, reason, at));
    var events := [e1, e2, Write(2), Write(1)];
    var s1 := Step(s, e1);
    var s2 := Step(s1, e2);
    RunOne(s, events);
    RunOne(s1, events[1..]);
    RunOne(s2, events[2..]);
    RunOne(Step(s2, Write(2)), events[3..]);
  }

  // ---- When a closed draft is final ----

  ghost predicate Reopener(s: State, id: string, c: nat) {
    c in s.calls && s.calls[c].Transitioning? && s.calls[c].id == id && s.calls[c].target != Closed
  }

  ghost predicate ClosedForGood(s: State, id: string) {
    forall events :: id in Run(s, events).drafts && Run(s, events).drafts[id].status == Closed
  }

  lemma {:induction false} WithoutReopenerStaysClosed(s: State, id: string, events: seq<Event>)
    requires Inv(s) && id in s.drafts && s.drafts[id].status == Closed
    requires forall c :: !Reopener(s, id, c)
    ensures id in Run(s, events).drafts && Run(s, events).drafts[id].status == Closed
    decreases |events|
  {
    if events != [] {
      var next := Step(s, events[0]);
      StepKeepsInv(s, events[0]);
      assert events[0].Write? ==> !Reopener(s, id, events[0].caller);
      assert forall c :: Reopener(next, id, c) ==> Reopener(s, id, c);
      WithoutReopenerStaysClosed(next, id, events[1..]);
    }
  }

  /** Closing is not final by itself: a transition that read the draft earlier may still
      write over it. It is final exactly when no such call is in flight. */
  lemma ClosedIsFinalIffNoTransitionInFlight(s: State, id: string)
    requires Inv(s) && id in s.drafts && s.drafts[id].status == Closed
    ensures ClosedForGood(s, id) <==> forall c :: !Reopener(s, id, c)
  {
    if c :| Reopener(s, id, c) {
      assert Run(s, [Write(c)]) == Run(Step(s, Write(c)), []) == Step(s, Write(c));
      assert Run(s, [Write(c)]).drafts[id].status != Closed;
    } else {
      forall events
        ensures id in Run(s, events).drafts && Run(s, events).drafts[id].status == Closed
      {
        WithoutReopenerStaysClosed(s, id, events);
      }
    }
  }

  /** Two transitions of an approved draft that interleave take it from closed back to sent. */
  lemma ClosedDraftReopened(draft: Draft)
    requires draft.status == Approved
    ensures var s := State(map["d" := draft], map[], map[]);
            var events := [Read(1, Transitioning("d", Sent)), Read(2, Transitioning("d", Closed)), Write(2), Write(1)];
            && Inv(s)
            && Run(s, events[..3]).drafts == map["d" := draft.(status := Closed)]
            && Run(s, events).drafts == map["d" := draft.(status := Sent)]
  {
    var s := State(map["d" := draft], map[], map[]);
    var e1, e2 := Read(1, Transitioning("d", Sent)), Read(2, Transitioning("d", Closed));
    var events := [e1, e2, Write(2), Write(1)];
    var s1 := Step(s, e1);
    var s2 := Step(s1, e2);
    var s3 := Step(s2, Write(2));
    RunOne(s, events); RunOne(s1, events[1..]); RunOne(s2, events[2..]); RunOne(s3, events[3..]);
    RunOne(s, events[..3]); RunOne(s1, events[..3][1..]); RunOne(s2, events[..3][1..][1..]);
    assert events[..3][1..][1..][1..] == [];
  }

  lemma RunOne(s: State, events: seq<Event>)
    requires events != []
    ensures Run(s, events) == Run(Step(s, events[0]), events[1..])
  {
  }

  // ---- The daily limit ----

  predicate InsertsSendable(s: State, e: Event, day: int) {
    && e.Create? && e.today == day && e.id !in s.drafts && 1 <= e.limit
    && Sendable(Persisted(s.drafts, e.draft, e.limit, e.today).status)
  }

  function SendableInserted(s: State, events: seq<Event>, day: int): nat
    decreases |events|
  {
    if events == [] then 0
    else (if InsertsSendable(s, events[0], day) then 1 else 0) + SendableInserted(Step(s, events[0]), events[1..], day)
  }

  lemma StepKeepsCreated(s: State, e: Event, day: int)
    ensures CreatedOn(s.drafts, day) <= CreatedOn(Step(s, e).drafts, day)
  {
  }

  lemma InsertIsNewlyCreated(s: State, e: Event, day: int)
    requires InsertsSendable(s, e, day) && e.draft.createdDay == day
    ensures e.id !in CreatedOn(s.drafts, day)
    ensures CreatedOn(Step(s, e).drafts, day) == CreatedOn(s.drafts, day) + {e.id}
  {
  }

  lemma NewDraftIsCounted(s: State, e: Event, day: int)
    ensures CreatedOn(s.drafts, day) <= CreatedOn(Step(s, e).drafts, day)
    ensures |CreatedOn(s.drafts, day)| <= |CreatedOn(Step(s, e).drafts, day)|
    ensures InsertsSendable(s, e, day) && e.draft.createdDay == day ==>
              |CreatedOn(Step(s, e).drafts, day)| == |CreatedOn(s.drafts, day)| + 1
  {
    StepKeepsCreated(s, e, day);
    SubsetIsNoLarger(CreatedOn(s.drafts, day), CreatedOn(Step(s, e).drafts, day));
    if InsertsSendable(s, e, day) && e.draft.createdDay == day { InsertIsNewlyCreated(s, e, day); }
    hide CreatedOn, Step, InsertsSendable;
  }

  lemma SubsetIsNoLarger(a: set<string>, b: set<string>)
    ensures a <= b ==> |a| <= |b|
  {
    if a <= b { assert b == a + (b - a); }
  }

  /** With drafts stamped on the day of their creation and limits of at most `limit`, no
      interleaving inserts more than the day's remaining allowance as sendable. */
  lemma {:induction false} DailyLimitHolds(s: State, events: seq<Event>, day: int, limit: nat)
    requires forall i :: 0 <= i < |events| && events[i].Create? ==>
               events[i].limit <= limit && events[i].draft.createdDay == events[i].today
    ensures var used := |CreatedOn(s.drafts, day)|;
            SendableInserted(s, events, day) <= if used < limit then limit - used else 0
    decreases |events|
  {
    if events != [] {
      var next := Step(s, events[0]);
      NewDraftIsCounted(s, events[0], day);
      DailyLimitHolds(next, events[1..], day, limit);
    }
  }

  // ---- Retrying a creation ----

  predicate LimitReached(drafts: Drafts, draft: Draft, limit: int, today: int) {
    |CreatedOn(drafts, today)| >= limit && Sendable(draft.status)
  }

  lemma {:induction false} NeverApprovedAgain(s: State, events: seq<Event>, id: string)
    requires Inv(s) && id in s.drafts && s.drafts[id].status != PendingReview && s.drafts[id].status != Approved
    ensures id in Run(s, events).drafts && Run(s, events).drafts[id].status != Approved
    decreases |events|
  {
    if events != [] {
      StepKeepsInv(s, events[0]);
      NeverApprovedAgain(Step(s, events[0]), events[1..], id);
    }
  }

  /** Whatever has happened since, creating the same draft again returns the stored one if and only
      if the daily limit did not block it, it came without a review, and its status is again, or
      still, the one it was created with; otherwise the retry is refused as different. */
  lemma RetryIff(s: State, id: string, draft: Draft, limit: int, today: int, events: seq<Event>)
    requires Inv(s) && id !in s.drafts && 1 <= limit
    ensures var later := Run(Step(s, Create(id, draft, limit, today)), events).drafts;
            && id in later
            && (SameButTimes(later[id], draft) <==>
                  && !LimitReached(s.drafts, draft, limit, today)
                  && draft.reviewedBy.None? && draft.reviewReason.None? && later[id].status == draft.status)
  {
    var next := Step(s, Create(id, draft, limit, today));
    StepKeepsInv(s, Create(id, draft, limit, today));
    RunKeepsReviews(next, events);
    if LimitReached(s.drafts, draft, limit, today) {
      NeverApprovedAgain(next, events, id);
    } else {
      assert next.drafts[id] == Unreviewed(draft);
    }
  }

  // ---- The three calls, each on its own ----

  class CommunicationRepository {
    var drafts: Drafts

    constructor ()
      ensures drafts == map[]
    {
      drafts := map[];
    }

    /** A retry with the stored content returns it; anything else under a used id is refused. */
    method Create(id: string, draft: Draft, limit: int, today: int) returns (r: Result<Draft, Error>)
      modifies this
      ensures drafts == AfterCreate(old(drafts), id, draft, limit, today)
      ensures r == if limit < 1 then Err(BadLimit)
                   else if id !in old(drafts) then Ok(Persisted(old(drafts), draft, limit, today))
                   else if SameButTimes(old(drafts)[id], draft) then Ok(old(drafts)[id])
                   else Err(DifferentContent)
    {
      if limit < 1 { return Err(BadLimit); }
      if id in drafts {
        return if SameButTimes(drafts[id], draft) then Ok(drafts[id]) else Err(DifferentContent);
      }
      var createdToday := |CreatedOn(drafts, today)|;
      var persisted := draft;
      if createdToday >= limit && (draft.status == PendingReview || draft.status == Approved) {
        persisted := BlockedByLimit(draft, limit);
      }
      drafts := drafts[id := Unreviewed(persisted)];
      r := Ok(persisted);
    }

    method Review(id: string, decision: Status, reason: string, at: int) returns (r: Result<Draft, Error>)
      modifies this
      ensures var call := Reviewing(id, decision, reason, at);
              drafts == Run(State(old(drafts), map[], map[]), [Read(0, call), Write(0)]).drafts
      ensures r.Ok? ==> id in drafts && r.value == drafts[id]
                        && r.value.status == decision && r.value.reviewReason == Some(reason)
      ensures r.Ok? <==> && decision in {Approved, Rejected} && id in old(drafts)
                         && (old(drafts)[id].status == PendingReview
                             || (old(drafts)[id].status == decision && old(drafts)[id].reviewReason == Some(reason)))
      ensures r.Err? ==> drafts == old(drafts)
                         && r.error == if decision != Approved && decision != Rejected then BadDecision
                                       else if id !in old(drafts) then Missing else AlreadyReviewed
    {
      ghost var call := Reviewing(id, decision, reason, at);
      SequentialCall(drafts, call);
      if decision != Approved && decision != Rejected { return Err(BadDecision); }
      if id !in drafts { return Err(Missing); }
      var current := drafts[id];
      if current.status != PendingReview {
        if current.status == decision && current.reviewReason == Some(reason) { return Ok(current); }
        return Err(AlreadyReviewed);
      }
      drafts := drafts[id := current.(status := decision, reviewedBy := Some("user"),
                                      reviewReason := Some(reason), reviewedAt := Some(at))];
      r := Ok(drafts[id]);
    }

    method Transition(id: string, target: Status) returns (r: Result<Draft, Error>)
      modifies this
      ensures var call := Transitioning(id, target);
              drafts == Run(State(old(drafts), map[], map[]), [Read(0, call), Write(0)]).drafts
      ensures r.Ok? <==> id in old(drafts) && Allowed(old(drafts)[id].status, target)
      ensures r.Ok? ==> id in drafts && r.value == drafts[id] == old(drafts)[id].(status := target)
      ensures r.Err? ==> drafts == old(drafts) && r.error == if id !in old(drafts) then Missing else NotAllowed
    {
      SequentialCall(drafts, Transitioning(id, target));
      if id !in drafts { return Err(Missing); }
      if !Allowed(drafts[id].status, target) { return Err(NotAllowed); }
      drafts := drafts[id := drafts[id].(status := target)];
      r := Ok(drafts[id]);
    }
  }

  /** A call that nothing interrupts writes exactly when its checks pass. */
  lemma SequentialCall(drafts: Drafts, call: Call)
    ensures Run(State(drafts, map[], map[]), [Read(0, call), Write(0)]).drafts ==
              if Proceeds(drafts, call) then Written(drafts, call) else drafts
  {
    var s := State(drafts, map[], map[]);
    var events := [Read(0, call), Write(0)];
    RunOne(s, events);
    RunOne(Step(s, events[0]), events[1..]);
  }
}
