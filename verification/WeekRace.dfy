/** The freeze of a settled week when requests overlap: `assertWeekAdjustable`
    (src/admin/admin-rewards.service.ts) is checked before the transaction of an
    exclusion (src/admin/admin-surveys.service.ts), and `submit`
    (src/response/response.service.ts) takes its time stamp before its own. */
module WeekRace {
  import opened Options
  import opened KstWeek
  import opened FrozenWeek
  import Ledger
  import Settlement

  type Id = Ledger.Id

  /** Submissions that have their time stamp and exclusions that have passed
      their checks, still to commit. */
  datatype RaceState = RaceState(s: State, submits: map<nat, Ledger.SubmitRequest>, excludes: map<nat, Id>)

  datatype RaceEvent =
    | Whole(e: Event)
    | ReadSubmit(req: nat, sessionId: Id, answers: Ledger.Answers)
    | CommitSubmit(req: nat)
    | ReadExclude(req: nat, sessionId: Id)
    | CommitExclude(req: nat)

  predicate InProgress(db: Ledger.Db, id: Id) {
    id in db.sessions && db.sessions[id].status == Ledger.IN_PROGRESS
  }

  function ExcludeOf(s: State, id: Id): Ledger.Db {
    if id in s.db.sessions then Ledger.ExcludeTx(s.db, id, s.db.sessions[id].surveyId, s.clock) else s.db
  }

  function RaceNext(rs: RaceState, e: RaceEvent): RaceState {
    match e
    case Whole(whole) => rs.(s := Next(rs.s, whole))
    case ReadSubmit(req, id, answers) =>
      if InProgress(rs.s.db, id) then rs.(submits := rs.submits[req := RequestAt(rs.s, id, answers)]) else rs
    case CommitSubmit(req) =>
      if req in rs.submits
      then rs.(s := rs.s.(db := Ledger.SubmitTx(rs.s.db, rs.submits[req])), submits := rs.submits - {req}) else rs
    case ReadExclude(req, id) => if MayExclude(rs.s, id) then rs.(excludes := rs.excludes[req := id]) else rs
    case CommitExclude(req) =>
      if req in rs.excludes
      then rs.(s := rs.s.(db := ExcludeOf(rs.s, rs.excludes[req])), excludes := rs.excludes - {req}) else rs
  }

  function RaceRun(rs: RaceState, events: seq<RaceEvent>): RaceState
    decreases |events|
  {
    if events == [] then rs else RaceRun(RaceNext(rs, events[0]), events[1..])
  }

  ghost predicate WaitingMatch(rs: RaceState) {
    && (forall q :: q in rs.submits ==> Ledger.SubmitMatches(rs.s.db, rs.submits[q]))
    && (forall q :: q in rs.excludes ==> Ledger.IsSubmitted(rs.s.db, rs.excludes[q]))
  }

  ghost predicate RaceInv(rs: RaceState) {
    Inv(rs.s) && Ledger.Balanced(rs.s.db) && WaitingMatch(rs)
  }

  /** A request that nothing comes between is the whole one. */
  lemma UndisturbedIsWhole(rs: RaceState, req: nat, id: Id, answers: Ledger.Answers)
    requires req !in rs.submits && req !in rs.excludes
    ensures RaceNext(RaceNext(rs, ReadSubmit(req, id, answers)), CommitSubmit(req))
         == RaceNext(rs, Whole(Submit(id, answers)))
    ensures RaceNext(RaceNext(rs, ReadExclude(req, id)), CommitExclude(req)) == RaceNext(rs, Whole(Exclude(id)))
  {
    hide GetKstWeekStart, MayExclude, Ledger.ExcludeTx;
    if InProgress(rs.s.db, id) {
      assert rs.submits[req := RequestAt(rs.s, id, answers)] - {req} == rs.submits;
    }
    assert rs.excludes[req := id] - {req} == rs.excludes;
    assert MayExclude(rs.s, id) ==> id in rs.s.db.sessions by { MayExcludeIsThere(rs.s, id); }
  }

  lemma MayExcludeIsThere(s: State, id: Id)
    ensures MayExclude(s, id) ==> id in s.db.sessions
  {
  }

  // ---------------------------------------------------------------- the books stay balanced

  lemma SubmitKeepsBooks(db: Ledger.Db, r: Ledger.SubmitRequest)
    requires Ledger.Balanced(db) && Ledger.SubmitMatches(db, r)
    ensures Ledger.Balanced(Ledger.SubmitTx(db, r)) && Ledger.Grows(db, Ledger.SubmitTx(db, r))
  {
    hide Ledger.AllAgree, Ledger.Grows, Ledger.SubmitTx;
    Ledger.SubmitBalances(db, r);
    Ledger.SubmitGrows(db, r);
  }

  lemma ExcludeKeepsBooks(s: State, id: Id)
    requires Ledger.Balanced(s.db) && Ledger.IsSubmitted(s.db, id)
    ensures Ledger.Balanced(ExcludeOf(s, id)) && Ledger.Grows(s.db, ExcludeOf(s, id))
  {
    hide Ledger.AllAgree, Ledger.Grows, Ledger.ExcludeTx;
    Ledger.ExcludeBalances(s.db, id, s.db.sessions[id].surveyId, s.clock);
    Ledger.ExcludeGrows(s.db, id, s.db.sessions[id].surveyId, s.clock);
  }

  lemma WholeKeepsBooks(s: State, e: Event)
    requires Ledger.Balanced(s.db)
    ensures Ledger.Balanced(Next(s, e).db) && Ledger.Grows(s.db, Next(s, e).db)
  {
    hide Ledger.Balanced, Ledger.SubmitTx, Ledger.ExcludeTx, Ledger.StartTx, ParseWeek, WeekHasEnded;
    match e
    case NewSurvey(surveyId) => if surveyId !in s.db.responseCount { Ledger.NewSurveyBalances(s.db, surveyId); }
    case Start(sessionId, surveyId, userId) =>
      Ledger.StartBalances(s.db, sessionId, surveyId, userId);
      StartGrows(s.db, sessionId, surveyId, userId);
    case Submit(sessionId, answers) =>
      if sessionId in s.db.sessions { SubmitKeepsBooks(s.db, RequestAt(s, sessionId, answers)); }
    case Exclude(sessionId) => if MayExclude(s, sessionId) { ExcludeKeepsBooks(s, sessionId); }
    case _ =>
  }

  lemma StartGrows(db: Ledger.Db, sessionId: Id, surveyId: Id, userId: Id)
    ensures Ledger.Grows(db, Ledger.StartTx(db, sessionId, surveyId, userId))
  {
    hide Ledger.HasSession;
  }

  lemma SubmitStaysMatched(before: Ledger.Db, after: Ledger.Db, r: Ledger.SubmitRequest)
    requires Ledger.Grows(before, after) && Ledger.SubmitMatches(before, r)
    ensures Ledger.SubmitMatches(after, r)
  {
  }

  lemma StaysSubmitted(before: Ledger.Db, after: Ledger.Db, id: Id)
    requires Ledger.Grows(before, after) && Ledger.IsSubmitted(before, id)
    ensures Ledger.IsSubmitted(after, id)
  {
  }

  lemma BooksStep(rs: RaceState, e: RaceEvent)
    requires RaceInv(rs)
    ensures Ledger.Balanced(RaceNext(rs, e).s.db) && Ledger.Grows(rs.s.db, RaceNext(rs, e).s.db)
  {
    hide Ledger.Balanced, Ledger.Grows, Ledger.SubmitTx, ExcludeOf, Next;
    GrowsItself(rs.s.db);
    match e
    case Whole(whole) => WholeKeepsBooks(rs.s, whole);
    case CommitSubmit(req) => if req in rs.submits { SubmitKeepsBooks(rs.s.db, rs.submits[req]); }
    case CommitExclude(req) => if req in rs.excludes { ExcludeKeepsBooks(rs.s, rs.excludes[req]); }
    case _ =>
  }

  lemma GrowsItself(db: Ledger.Db)
    ensures Ledger.Grows(db, db)
  {
  }

  lemma RaceStepKeepsInv(rs: RaceState, e: RaceEvent)
    requires RaceInv(rs)
    ensures RaceInv(RaceNext(rs, e))
    ensures forall w :: StepOf(rs.s, w) <= StepOf(RaceNext(rs, e).s, w)
  {
    BooksStep(rs, e);
    hide Ledger.Balanced, Ledger.Grows, Ledger.SubmitTx, ExcludeOf, Next, Inv, Ledger.SubmitMatches, Ledger.IsSubmitted;
    if e.Whole? {
      StepKeepsInvariant(rs.s, e.e);
    } else {
      OnlyBooksChange(rs, e);
    }
    hide RaceNext, WaitingMatch;
    StillMatch(rs, e);
  }

  lemma StillMatch(rs: RaceState, e: RaceEvent)
    requires WaitingMatch(rs) && Ledger.Grows(rs.s.db, RaceNext(rs, e).s.db)
    ensures WaitingMatch(RaceNext(rs, e))
  {
    ReadMatches(rs, e);
    hide RaceNext, Ledger.Grows, Ledger.SubmitMatches, Ledger.IsSubmitted;
    var after := RaceNext(rs, e);
    forall q | q in after.submits
      ensures Ledger.SubmitMatches(after.s.db, after.submits[q])
    {
      SubmitStaysMatched(rs.s.db, after.s.db, after.submits[q]);
    }
    forall q | q in after.excludes
      ensures Ledger.IsSubmitted(after.s.db, after.excludes[q])
    {
      StaysSubmitted(rs.s.db, after.s.db, after.excludes[q]);
    }
  }

  /** Every request waiting after an event matched the rows before it. */
  lemma ReadMatches(rs: RaceState, e: RaceEvent)
    requires WaitingMatch(rs)
    ensures var after := RaceNext(rs, e);
            && (forall q :: q in after.submits ==> Ledger.SubmitMatches(rs.s.db, after.submits[q]))
            && (forall q :: q in after.excludes ==> Ledger.IsSubmitted(rs.s.db, after.excludes[q]))
  {
    hide Next, Ledger.SubmitTx, ExcludeOf, Adjustable;
  }

  lemma OnlyBooksChange(rs: RaceState, e: RaceEvent)
    requires !e.Whole? && Inv(rs.s)
    ensures Inv(RaceNext(rs, e).s) && RaceNext(rs, e).s.steps == rs.s.steps
  {
    hide Ledger.SubmitTx, ExcludeOf, MayExclude, MondayKey, GetKstWeekEnd;
  }

  // ---------------------------------------------------------------- late requests

  /** A submission stamped within the week that is still to go through. */
  ghost predicate LateSubmit(rs: RaceState, q: nat, week: int) {
    && q in rs.submits && GetKstWeekStart(rs.submits[q].now) == week
    && InProgress(rs.s.db, rs.submits[q].sessionId)
  }

  /** An exclusion of a score of the week that is still to go through. */
  ghost predicate LateExclude(rs: RaceState, q: nat, week: int) {
    && q in rs.excludes && rs.excludes[q] in rs.s.db.scores && rs.s.db.scores[rs.excludes[q]].weekStart == week
    && rs.excludes[q] in rs.s.db.sessions && rs.s.db.sessions[rs.excludes[q]].excludedAt == None
  }

  ghost predicate NothingLate(rs: RaceState, week: int) {
    forall q :: !LateSubmit(rs, q, week) && !LateExclude(rs, q, week)
  }

  /** What a late request changes, and any other leaves as it is. */
  lemma LateSubmitAddsScore(rs: RaceState, req: nat, week: int)
    requires RaceInv(rs)
    ensures WeekScores(RaceNext(rs, CommitSubmit(req)).s.db, week) == WeekScores(rs.s.db, week)
       <==> !LateSubmit(rs, req, week)
  {
    hide GetKstWeekStart, Inv, Ledger.OnePerUser, Ledger.Counted;
    if req in rs.submits {
      var r := rs.submits[req];
      assert Ledger.Agrees(rs.s.db, r.sessionId);
      if LateSubmit(rs, req, week) {
        assert r.sessionId in WeekScores(RaceNext(rs, CommitSubmit(req)).s.db, week);
        assert r.sessionId !in WeekScores(rs.s.db, week);
      }
    }
  }

  lemma LateExcludeRevokesScore(rs: RaceState, req: nat, week: int)
    requires RaceInv(rs)
    ensures WeekScores(RaceNext(rs, CommitExclude(req)).s.db, week) == WeekScores(rs.s.db, week)
       <==> !LateExclude(rs, req, week)
  {
    CommittedExclude(rs, req);
    if req in rs.excludes {
      WaitingExcludeAgrees(rs, req);
      hide RaceInv, RaceNext, WeekScores, ExcludeOf, Ledger.Agrees;
      ExcludeRevokes(rs.s, rs.excludes[req], week);
    }
  }

  lemma CommittedExclude(rs: RaceState, req: nat)
    ensures RaceNext(rs, CommitExclude(req)).s.db
         == if req in rs.excludes then ExcludeOf(rs.s, rs.excludes[req]) else rs.s.db
  {
    hide ExcludeOf;
  }

  lemma WaitingExcludeAgrees(rs: RaceState, req: nat)
    requires RaceInv(rs) && req in rs.excludes
    ensures Ledger.IsSubmitted(rs.s.db, rs.excludes[req]) && Ledger.Agrees(rs.s.db, rs.excludes[req])
    ensures rs.excludes[req] in rs.s.db.scores
  {
    hide Inv, GetKstWeekStart, Ledger.OnePerUser, Ledger.Counted;
    assert Ledger.IsSubmitted(rs.s.db, rs.excludes[req]);
    assert Ledger.Agrees(rs.s.db, rs.excludes[req]);
  }

  lemma ExcludeRevokes(s: State, id: Id, week: int)
    requires Ledger.IsSubmitted(s.db, id) && Ledger.Agrees(s.db, id)
    ensures WeekScores(ExcludeOf(s, id), week) == WeekScores(s.db, week)
       <==> s.db.scores[id].weekStart != week || s.db.sessions[id].excludedAt != None
  {
    hide GetKstWeekStart;
    var after := ExcludeOf(s, id);
    if s.db.scores[id].weekStart == week && s.db.sessions[id].excludedAt == None {
      assert WeekScores(after, week)[id] != WeekScores(s.db, week)[id];
    } else {
      assert forall k :: k in after.scores <==> k in s.db.scores;
    }
  }

  lemma ScoresStep(rs: RaceState, e: RaceEvent, week: int)
    requires RaceInv(rs) && StepOf(rs.s, week) >= Settlement.STEP_RANK_CONFIRMED && NothingLate(rs, week)
    ensures WeekScores(RaceNext(rs, e).s.db, week) == WeekScores(rs.s.db, week)
  {
    hide WeekScores, Next, Ledger.Balanced, Ledger.SubmitTx, ExcludeOf, LateSubmit, LateExclude, Inv, WaitingMatch;
    match e
    case Whole(whole) => ConfirmedWeekKeepsScores(rs.s, whole, week);
    case CommitSubmit(req) => LateSubmitAddsScore(rs, req, week);
    case CommitExclude(req) => LateExcludeRevokesScore(rs, req, week);
    case _ =>
  }

  lemma NothingComesLate(rs: RaceState, e: RaceEvent, week: int)
    requires RaceInv(rs) && StepOf(rs.s, week) >= Settlement.STEP_RANK_CONFIRMED && NothingLate(rs, week)
    ensures NothingLate(RaceNext(rs, e), week)
  {
    BooksStep(rs, e);
    assert MondayKey(week) && WeekHasEnded(rs.s, week);
    EndedWeekGetsNoScore(rs.s, week);
    var after := RaceNext(rs, e);
    forall q
      ensures !LateSubmit(after, q, week) && !LateExclude(after, q, week)
    {
      NoNewLateSubmit(rs, e, week, q);
      NoNewLateExclude(rs, e, week, q);
    }
  }

  lemma NoNewLateSubmit(rs: RaceState, e: RaceEvent, week: int, q: nat)
    requires Ledger.Grows(rs.s.db, RaceNext(rs, e).s.db) && WaitingMatch(rs)
    requires GetKstWeekStart(rs.s.clock) != week && !LateSubmit(rs, q, week)
    ensures !LateSubmit(RaceNext(rs, e), q, week)
  {
    hide GetKstWeekStart, Next, Ledger.SubmitTx, ExcludeOf, MayExclude;
  }

  lemma NoNewLateExclude(rs: RaceState, e: RaceEvent, week: int, q: nat)
    requires Ledger.Grows(rs.s.db, RaceNext(rs, e).s.db) && WaitingMatch(rs) && Ledger.Balanced(rs.s.db)
    requires StepOf(rs.s, week) >= Settlement.STEP_RANK_CONFIRMED && !LateExclude(rs, q, week)
    ensures !LateExclude(RaceNext(rs, e), q, week)
  {
    hide GetKstWeekStart, Next, Ledger.SubmitTx, ExcludeOf, Ledger.OnePerUser, Ledger.Counted;
    var after := RaceNext(rs, e);
    if q in after.excludes {
      var id := after.excludes[q];
      ReadMatches(rs, e);
      assert Ledger.Agrees(rs.s.db, id);
    }
  }

  // ---------------------------------------------------------------- the exact condition

  lemma {:induction false} FrozenWithoutLateRequests(rs: RaceState, events: seq<RaceEvent>, week: int)
    requires RaceInv(rs) && StepOf(rs.s, week) >= Settlement.STEP_RANK_CONFIRMED && NothingLate(rs, week)
    ensures WeekScores(RaceRun(rs, events).s.db, week) == WeekScores(rs.s.db, week)
    decreases |events|
  {
    hide RaceNext, WeekScores, RaceInv, NothingLate;
    if events != [] {
      RaceStepKeepsInv(rs, events[0]);
      ScoresStep(rs, events[0], week);
      NothingComesLate(rs, events[0], week);
      FrozenWithoutLateRequests(RaceNext(rs, events[0]), events[1..], week);
    }
  }

  lemma RunOfOne(rs: RaceState, e: RaceEvent)
    ensures RaceRun(rs, [e]) == RaceNext(rs, e)
  {
    hide RaceNext;
    assert [e][1..] == [];
    assert RaceRun(RaceNext(rs, e), []) == RaceNext(rs, e);
  }

  /** Overlapping requests: once a week is at step 3, none of its scores changes
      over any run exactly when no submission stamped in it and no exclusion of
      one of its scores was under way. */
  lemma ConfirmedWeekIsFrozenExactly(rs: RaceState, week: int)
    requires RaceInv(rs) && StepOf(rs.s, week) >= Settlement.STEP_RANK_CONFIRMED
    ensures (forall events :: WeekScores(RaceRun(rs, events).s.db, week) == WeekScores(rs.s.db, week))
       <==> NothingLate(rs, week)
  {
    hide RaceNext, RaceRun, WeekScores, RaceInv, LateSubmit, LateExclude;
    if NothingLate(rs, week) {
      forall events
        ensures WeekScores(RaceRun(rs, events).s.db, week) == WeekScores(rs.s.db, week)
      {
        FrozenWithoutLateRequests(rs, events, week);
      }
    } else {
      var q :| LateSubmit(rs, q, week) || LateExclude(rs, q, week);
      LateSubmitAddsScore(rs, q, week);
      LateExcludeRevokesScore(rs, q, week);
      RunOfOne(rs, CommitSubmit(q));
      RunOfOne(rs, CommitExclude(q));
    }
  }

  /** The race: an exclusion passes its check while the week is at step 2, the
      week is moved on to step 3, and then the exclusion revokes one of its scores. */
  lemma RacingExclusionChangesConfirmedWeek(s: State, id: Id, weekKey: string, week: int)
    requires Inv(s) && Ledger.Balanced(s.db) && MayExclude(s, id) && id in s.db.scores
             && s.db.scores[id].weekStart == week
    requires ParseWeek(weekKey) == WeekKey(week) && WeekHasEnded(s, week)
    requires StepOf(s, week) == Settlement.STEP_RANK_CONFIRMED - 1
    ensures var confirmed :=
              RaceNext(RaceNext(RaceState(s, map[], map[]), ReadExclude(0, id)), Whole(Advance(weekKey, true)));
            && StepOf(confirmed.s, week) == Settlement.STEP_RANK_CONFIRMED && LateExclude(confirmed, 0, week)
            && WeekScores(RaceNext(confirmed, CommitExclude(0)).s.db, week) != WeekScores(confirmed.s.db, week)
  {
    hide ParseWeek, WeekHasEnded, WeekScores, Ledger.Balanced, MondayKey;
    var checked := RaceNext(RaceState(s, map[], map[]), ReadExclude(0, id));
    assert checked == RaceState(s, map[], map[0 := id]);
    assert RaceInv(checked);
    RaceStepKeepsInv(checked, Whole(Advance(weekKey, true)));
    LateExcludeRevokesScore(RaceNext(checked, Whole(Advance(weekKey, true))), 0, week);
  }
}
