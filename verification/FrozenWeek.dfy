/** Scores of a week whose ranking was confirmed no longer change.  Requests are
    whole here: the check of `assertWeekAdjustable`
    (src/admin/admin-rewards.service.ts) and the exclusion it guards
    (src/admin/admin-surveys.service.ts) see the same rows, and the clock never
    runs backwards. */
module FrozenWeek {
  import opened Options
  import opened Calendar
  import opened KstDate
  import opened KstWeek
  import Ledger
  import Settlement

  datatype State = State(db: Ledger.Db, steps: map<int, nat>, clock: int)

  datatype Event =
    | Tick(to: int)
    | NewSurvey(surveyId: Ledger.Id)
    | Start(sessionId: Ledger.Id, surveyId: Ledger.Id, userId: Ledger.Id)
    | Submit(sessionId: Ledger.Id, answers: Ledger.Answers)
    | Exclude(sessionId: Ledger.Id)
    | Advance(weekKey: string, commits: bool)

  function StepOf(s: State, week: int): nat {
    if week in s.steps then s.steps[week] else 1
  }

  /** Whether `advance` lets the week through to its transaction. */
  predicate WeekHasEnded(s: State, week: int) {
    !(GetKstWeekEnd(week) > s.clock)
  }

  /** assertWeekAdjustable passes. */
  predicate Adjustable(s: State, week: int) {
    !(week in s.steps && s.steps[week] >= Settlement.STEP_RANK_CONFIRMED)
  }

  function ParseWeek(weekKey: string): ParsedWeek {
    ShippedTableIsGood();
    ParseWeekKey(EXTENDED_WEEKS, weekKey)
  }

  function RequestAt(s: State, sessionId: Ledger.Id, answers: Ledger.Answers): Ledger.SubmitRequest
    requires sessionId in s.db.sessions
  {
    var session := s.db.sessions[sessionId];
    Ledger.SubmitRequest(sessionId, session.surveyId, session.userId, s.clock, answers)
  }

  predicate MayExclude(s: State, sessionId: Ledger.Id) {
    && sessionId in s.db.sessions && s.db.sessions[sessionId].status == Ledger.SUBMITTED
    && s.db.sessions[sessionId].excludedAt == None
    && (sessionId in s.db.scores ==> Adjustable(s, s.db.scores[sessionId].weekStart))
  }

  function Next(s: State, e: Event): State {
    match e
    case Tick(to) => if to >= s.clock then s.(clock := to) else s
    case NewSurvey(surveyId) =>
      if surveyId in s.db.responseCount then s
      else s.(db := s.db.(responseCount := s.db.responseCount[surveyId := 0]))
    case Start(sessionId, surveyId, userId) => s.(db := Ledger.StartTx(s.db, sessionId, surveyId, userId))
    case Submit(sessionId, answers) =>
      if sessionId in s.db.sessions then s.(db := Ledger.SubmitTx(s.db, RequestAt(s, sessionId, answers))) else s
    case Exclude(sessionId) =>
      if MayExclude(s, sessionId)
      then s.(db := Ledger.ExcludeTx(s.db, sessionId, s.db.sessions[sessionId].surveyId, s.clock)) else s
    case Advance(weekKey, commits) =>
      var parsed := ParseWeek(weekKey);
      if parsed.WeekKey? && WeekHasEnded(s, parsed.start) && commits && StepOf(s, parsed.start) < Settlement.STEP_FINAL
      then s.(steps := s.steps[parsed.start := StepOf(s, parsed.start) + 1]) else s
  }

  function Run(s: State, events: seq<Event>): State
    decreases |events|
  {
    if events == [] then s else Run(Next(s, events[0]), events[1..])
  }

  /** Only weeks that have ended were ever advanced. */
  ghost predicate Inv(s: State) {
    s.clock >= 0 && forall w :: w in s.steps ==> MondayKey(w) && WeekHasEnded(s, w)
  }

  lemma ParsedWeekIsMonday(weekKey: string)
    ensures var w := ParseWeek(weekKey); w.WeekKey? ==> MondayKey(w.start)
  {
    hide GoodTable, WeekStart, FromDay, UtcDay, IsoDate, MondayKey;
    ShippedTableIsGood();
    if IsValidKstDateString(weekKey) {
      DayBounds(weekKey);
      ValidityIsRealDate(weekKey);
      DayOfStart(weekKey);
      WeekStartIsMondayKey(EXTENDED_WEEKS, StartOfDay(weekKey));
    }
  }

  lemma DayOfStart(s: string)
    requires IsValidKstDateString(s)
    ensures FromDay(KstDay(StartOfDay(s))) == Parts(s)
  {
    hide FromDay, UtcDay;
    assert KstDay(StartOfDay(s)) == UtcDayOf(s);
  }

  lemma StepKeepsInvariant(s: State, e: Event)
    requires Inv(s)
    ensures Inv(Next(s, e))
    ensures forall w :: StepOf(s, w) <= StepOf(Next(s, e), w)
  {
    hide MondayKey, GetKstWeekEnd, ParseWeek;
    if e.Advance? {
      ParsedWeekIsMonday(e.weekKey);
    }
  }

  /** A week without a row is at its first step; the clock only moves forward; a
      survey starts with no response; a submission is stamped with the present
      time. */
  lemma WholeRequests(s: State, to: int, week: int, id: Ledger.Id, surveyId: Ledger.Id, userId: Ledger.Id,
                      answers: Ledger.Answers)
    ensures StepOf(s, week) == if week in s.steps then s.steps[week] else 1
    ensures Next(s, Tick(to)).clock == (if to > s.clock then to else s.clock)
    ensures Next(s, Tick(to)).db == s.db && Next(s, Tick(to)).steps == s.steps
    ensures Next(s, NewSurvey(surveyId))
         == if surveyId in s.db.responseCount then s
            else s.(db := s.db.(responseCount := s.db.responseCount[surveyId := 0]))
    ensures Next(s, Start(id, surveyId, userId)) == s.(db := Ledger.StartTx(s.db, id, surveyId, userId))
    ensures id in s.db.sessions ==>
              var session := s.db.sessions[id];
              Next(s, Submit(id, answers))
              == s.(db := Ledger.SubmitTx(s.db, Ledger.SubmitRequest(id, session.surveyId, session.userId, s.clock,
                                                                     answers)))
  {
    hide GetKstWeekStart;
  }

  lemma RunInTurn(s: State, e: Event, rest: seq<Event>)
    ensures Run(s, [e] + rest) == Run(Next(s, e), rest) && Run(s, []) == s
  {
    hide Next;
    assert ([e] + rest)[1..] == rest;
  }

  /** An exclusion goes through exactly when the session is submitted, not excluded
      yet, and the week of its score is at step 1 or 2. */
  lemma ExcludeExactly(s: State, sessionId: Ledger.Id)
    requires Ledger.Balanced(s.db)
    ensures Next(s, Exclude(sessionId)) != s
       <==> && sessionId in s.db.sessions && s.db.sessions[sessionId].status == Ledger.SUBMITTED
            && s.db.sessions[sessionId].excludedAt == None && sessionId in s.db.scores
            && StepOf(s, s.db.scores[sessionId].weekStart) <= 2
    ensures Next(s, Exclude(sessionId)) != s ==>
              sessionId in Next(s, Exclude(sessionId)).db.sessions
              && Next(s, Exclude(sessionId)).db.sessions[sessionId].excludedAt == Some(s.clock)
  {
    hide GetKstWeekStart;
    if sessionId in s.db.sessions {
      assert Ledger.Agrees(s.db, sessionId);
    }
  }

  /** A week is advanced by one step exactly when its name is a date, its range has
      passed, the transaction commits and the step is at most 4. */
  lemma AdvanceExactly(s: State, weekKey: string, commits: bool)
    ensures var after := Next(s, Advance(weekKey, commits));
            if IsValidKstDateString(weekKey) && commits then
              var week := GetKstWeekStart(StartOfDay(weekKey));
              after == if GetKstWeekEnd(week) <= s.clock && StepOf(s, week) <= 4
                       then s.(steps := s.steps[week := StepOf(s, week) + 1]) else s
            else after == s
  {
    hide WeekStart, WeekRangeEnd, GoodTable, IsValidKstDateString, StartOfDay, EXTENDED_WEEKS;
  }

  /** No submission of this moment is counted in a week that has ended. */
  lemma EndedWeekGetsNoScore(s: State, week: int)
    requires s.clock >= 0 && MondayKey(week) && WeekHasEnded(s, week)
    ensures GetKstWeekStart(s.clock) != week
  {
    hide MondayKey, WeekRangeStart, WeekStart, GoodTable, FromDay;
    ShippedTableIsGood();
    ModernYearsArePlain(s.clock);
    WeekRangesPartitionTime(EXTENDED_WEEKS, week, s.clock);
  }

  /** The scores counted in a week. */
  function WeekScores(db: Ledger.Db, week: int): map<Ledger.Id, Ledger.Score> {
    map id | id in db.scores && db.scores[id].weekStart == week :: db.scores[id]
  }

  lemma ConfirmedWeekKeepsScores(s: State, e: Event, week: int)
    requires Inv(s) && StepOf(s, week) >= Settlement.STEP_RANK_CONFIRMED
    ensures WeekScores(Next(s, e).db, week) == WeekScores(s.db, week)
  {
    hide MondayKey, GetKstWeekStart, GetKstWeekEnd, ParseWeek, WeekHasEnded;
    assert WeekHasEnded(s, week) && MondayKey(week);
    EndedWeekGetsNoScore(s, week);
  }

  /** Once a week reaches step 3 no run of submissions and exclusions changes
      any of its scores. */
  lemma {:induction false} ConfirmedWeekIsFrozen(s: State, events: seq<Event>, week: int)
    requires Inv(s) && StepOf(s, week) >= Settlement.STEP_RANK_CONFIRMED
    ensures WeekScores(Run(s, events).db, week) == WeekScores(s.db, week)
    ensures StepOf(Run(s, events), week) >= Settlement.STEP_RANK_CONFIRMED
    decreases |events|
  {
    hide Next, WeekScores, Inv;
    if events != [] {
      StepKeepsInvariant(s, events[0]);
      ConfirmedWeekKeepsScores(s, events[0], week);
      ConfirmedWeekIsFrozen(Next(s, events[0]), events[1..], week);
    }
  }
}
