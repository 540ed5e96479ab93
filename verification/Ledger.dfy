/** The submission ledger: `submit` and `saveAnswers` of
    src/response/response.service.ts and `excludeSubmission` of
    src/admin/admin-surveys.service.ts keep sessions, scores, answers and the
    response counter of a survey in step.  Each request reads first and commits
    one transaction later; between the two, anything may commit. */
module Ledger {
  import opened Options
  import opened KstWeek

  type Id = string
  type Key = string
  type Json = string
  type Answers = map<Key, Json>

  datatype Status = IN_PROGRESS | SUBMITTED

  datatype Session = Session(
    surveyId: Id, userId: Id, status: Status, submittedAt: Option<int>, excludedAt: Option<int>)

  datatype Score = Score(userId: Id, weekStart: int, points: int, revokedAt: Option<int>)

  /** Sessions, scores by their unique submission, response counters by survey,
      and stored answers by session and question. */
  datatype Db = Db(
    sessions: map<Id, Session>, scores: map<Id, Score>, responseCount: map<Id, int>, answers: map<Id, Answers>)

  datatype SubmitRequest = SubmitRequest(sessionId: Id, surveyId: Id, userId: Id, now: int, answers: Answers)

  // ---------------------------------------------------------------- the transactions

  function StoredAnswers(db: Db, sessionId: Id): Answers {
    if sessionId in db.answers then db.answers[sessionId] else map[]
  }

  /** The unique constraint on (survey, user). */
  predicate HasSession(db: Db, surveyId: Id, userId: Id) {
    exists id :: id in db.sessions && db.sessions[id].surveyId == surveyId && db.sessions[id].userId == userId
  }

  function StartTx(db: Db, sessionId: Id, surveyId: Id, userId: Id): Db {
    if sessionId in db.sessions || surveyId !in db.responseCount || HasSession(db, surveyId, userId) then db
    else db.(sessions := db.sessions[sessionId := Session(surveyId, userId, IN_PROGRESS, None, None)])
  }

  predicate SubmitCommits(db: Db, r: SubmitRequest) {
    && r.sessionId in db.sessions && db.sessions[r.sessionId].status == IN_PROGRESS
    && r.surveyId in db.responseCount && r.sessionId !in db.scores
  }

  function SubmitTx(db: Db, r: SubmitRequest): Db {
    if !SubmitCommits(db, r) then db
    else
      Db(db.sessions[r.sessionId := db.sessions[r.sessionId].(status := SUBMITTED, submittedAt := Some(r.now))],
         db.scores[r.sessionId := Score(r.userId, GetKstWeekStart(r.now), 1, None)],
         db.responseCount[r.surveyId := db.responseCount[r.surveyId] + 1],
         db.answers[r.sessionId := r.answers])
  }

  predicate ExcludeCommits(db: Db, sessionId: Id, surveyId: Id) {
    sessionId in db.sessions && db.sessions[sessionId].excludedAt == None && surveyId in db.responseCount
  }

  function ExcludeTx(db: Db, sessionId: Id, surveyId: Id, now: int): Db {
    if !ExcludeCommits(db, sessionId, surveyId) then db
    else
      db.(sessions := db.sessions[sessionId := db.sessions[sessionId].(excludedAt := Some(now))],
          scores := if sessionId in db.scores && db.scores[sessionId].revokedAt == None
                    then db.scores[sessionId := db.scores[sessionId].(revokedAt := Some(now))] else db.scores,
          responseCount := db.responseCount[surveyId := db.responseCount[surveyId] - 1])
  }

  function SaveTx(db: Db, sessionId: Id, answers: Answers): Db {
    if sessionId !in db.sessions then db else db.(answers := db.answers[sessionId := answers])
  }

  // ---------------------------------------------------------------- the tables

  class Tables {
    var sessions: map<Id, Session>
    var scores: map<Id, Score>
    var responseCount: map<Id, int>
    var answers: map<Id, Answers>

    constructor ()
      ensures Contents() == Db(map[], map[], map[], map[])
    {
      sessions, scores, responseCount, answers := map[], map[], map[], map[];
    }

    function Contents(): Db
      reads this
    {
      Db(sessions, scores, responseCount, answers)
    }

    /** Deletes the answers the request leaves out and upserts the ones it has:
        what is stored afterwards is the request's snapshot, whatever was there. */
    method ReplaceAnswers(sessionId: Id, snapshot: Answers)
      modifies this`answers
      ensures answers == old(answers)[sessionId := snapshot]
    {
      var stored := if sessionId in answers then answers[sessionId] else map[];
      stored := map key | key in stored && key in snapshot :: stored[key];
      var todo := snapshot.Keys;
      while todo != {}
        invariant todo <= snapshot.Keys
        invariant stored.Keys <= snapshot.Keys && snapshot.Keys - todo <= stored.Keys
        invariant forall key :: key in snapshot.Keys - todo ==> stored[key] == snapshot[key]
        decreases todo
      {
        var key :| key in todo;
        stored := stored[key := snapshot[key]];
        todo := todo - {key};
      }
      assert stored == snapshot;
      answers := answers[sessionId := stored];
    }

    /** The transaction of `submit`. */
    method Submit(r: SubmitRequest) returns (committed: bool)
      modifies this
      ensures Contents() == SubmitTx(old(Contents()), r)
      ensures committed <==> old(SubmitCommits(Contents(), r))
      ensures committed ==>
                && StoredAnswers(Contents(), r.sessionId) == r.answers
                && sessions[r.sessionId].submittedAt == Some(r.now) && sessions[r.sessionId].status == SUBMITTED
                && scores[r.sessionId] == Score(r.userId, GetKstWeekStart(r.now), 1, None)
                && responseCount[r.surveyId] == old(responseCount)[r.surveyId] + 1
      ensures !committed ==> Contents() == old(Contents())
      ensures forall id :: id != r.sessionId ==> StoredAnswers(Contents(), id) == old(StoredAnswers(Contents(), id))
    {
      hide GetKstWeekStart;
      if r.sessionId !in sessions || sessions[r.sessionId].status != IN_PROGRESS {
        return false;
      }
      if r.surveyId !in responseCount || r.sessionId in scores {
        return false;
      }
      sessions := sessions[r.sessionId := sessions[r.sessionId].(status := SUBMITTED, submittedAt := Some(r.now))];
      ReplaceAnswers(r.sessionId, r.answers);
      responseCount := responseCount[r.surveyId := responseCount[r.surveyId] + 1];
      scores := scores[r.sessionId := Score(r.userId, GetKstWeekStart(r.now), 1, None)];
      committed := true;
    }

    /** The transaction of `excludeSubmission`. */
    method Exclude(sessionId: Id, surveyId: Id, now: int) returns (committed: bool)
      modifies this
      ensures Contents() == ExcludeTx(old(Contents()), sessionId, surveyId, now)
      ensures committed <==> old(ExcludeCommits(Contents(), sessionId, surveyId))
      ensures committed ==>
                && sessions[sessionId].excludedAt == Some(now)
                && responseCount[surveyId] == old(responseCount)[surveyId] - 1
                && (sessionId in old(scores) ==>
                      && sessionId in scores
                      && scores[sessionId].revokedAt == Some(old(scores)[sessionId].revokedAt.GetOr(now)))
      ensures answers == old(answers) && (!committed ==> Contents() == old(Contents()))
    {
      if sessionId !in sessions || sessions[sessionId].excludedAt != None || surveyId !in responseCount {
        return false;
      }
      sessions := sessions[sessionId := sessions[sessionId].(excludedAt := Some(now))];
      if sessionId in scores && scores[sessionId].revokedAt == None {
        scores := scores[sessionId := scores[sessionId].(revokedAt := Some(now))];
      }
      responseCount := responseCount[surveyId := responseCount[surveyId] - 1];
      committed := true;
    }

    /** The transaction of `saveAnswers`. */
    method SaveAnswers(sessionId: Id, snapshot: Answers)
      modifies this
      ensures Contents() == SaveTx(old(Contents()), sessionId, snapshot)
      ensures sessionId in sessions ==> StoredAnswers(Contents(), sessionId) == snapshot
      ensures forall id :: id != sessionId ==> StoredAnswers(Contents(), id) == old(StoredAnswers(Contents(), id))
    {
      if sessionId in sessions {
        ReplaceAnswers(sessionId, snapshot);
      }
    }
  }

  // ---------------------------------------------------------------- the ledger

  /** The sessions a survey's results are computed from. */
  function Included(sessions: map<Id, Session>, surveyId: Id): set<Id> {
    set id | id in sessions && sessions[id].surveyId == surveyId
             && sessions[id].status == SUBMITTED && sessions[id].excludedAt == None
  }

  /** A session and the score of its submission agree. */
  ghost predicate Agrees(db: Db, id: Id)
    requires id in db.sessions
  {
    var session := db.sessions[id];
    && session.surveyId in db.responseCount
    && (session.status == SUBMITTED <==> session.submittedAt != None)
    && (session.status == SUBMITTED <==> id in db.scores)
    && (session.excludedAt != None ==> session.status == SUBMITTED)
    && (id in db.scores ==>
          var score := db.scores[id];
          && score.userId == session.userId && score.points == 1
          && score.weekStart == GetKstWeekStart(session.submittedAt.value)
          && (score.revokedAt != None <==> session.excludedAt != None))
  }

  ghost predicate AllAgree(db: Db) {
    db.scores.Keys <= db.sessions.Keys && forall id :: id in db.sessions ==> Agrees(db, id)
  }

  ghost predicate OnePerUser(db: Db) {
    forall a, b :: a in db.sessions && b in db.sessions && a != b ==>
      !(db.sessions[a].surveyId == db.sessions[b].surveyId && db.sessions[a].userId == db.sessions[b].userId)
  }

  ghost predicate Counted(db: Db) {
    forall s :: s in db.responseCount ==> db.responseCount[s] == |Included(db.sessions, s)|
  }

  ghost predicate Balanced(db: Db) {
    AllAgree(db) && OnePerUser(db) && Counted(db)
  }

  ghost predicate SubmitMatches(db: Db, r: SubmitRequest) {
    && r.sessionId in db.sessions && db.sessions[r.sessionId].surveyId == r.surveyId
    && db.sessions[r.sessionId].userId == r.userId
  }

  ghost predicate ExcludeMatches(db: Db, sessionId: Id, surveyId: Id) {
    && sessionId in db.sessions && db.sessions[sessionId].surveyId == surveyId
    && db.sessions[sessionId].status == SUBMITTED
  }

  lemma SameIncluded(before: Db, after: Db)
    requires Counted(before) && after.responseCount == before.responseCount
    requires forall s :: Included(after.sessions, s) == Included(before.sessions, s)
    ensures Counted(after)
  {
  }

  lemma StartIsUnique(db: Db, sessionId: Id, surveyId: Id, userId: Id)
    requires OnePerUser(db)
    ensures OnePerUser(StartTx(db, sessionId, surveyId, userId))
  {
    if !HasSession(db, surveyId, userId) {
      assert forall id :: id in db.sessions ==>
        !(db.sessions[id].surveyId == surveyId && db.sessions[id].userId == userId);
    }
  }

  lemma StartBalances(db: Db, sessionId: Id, surveyId: Id, userId: Id)
    requires Balanced(db)
    ensures Balanced(StartTx(db, sessionId, surveyId, userId))
  {
    hide GetKstWeekStart, Counted, OnePerUser, HasSession;
    StartIsUnique(db, sessionId, surveyId, userId);
    var after := StartTx(db, sessionId, surveyId, userId);
    forall id | id in after.sessions
      ensures Agrees(after, id)
    {
      assert id in db.sessions ==> Agrees(db, id);
    }
    forall s
      ensures Included(after.sessions, s) == Included(db.sessions, s)
    {
    }
    SameIncluded(db, after);
  }

  lemma SubmittedIsIncluded(sessions: map<Id, Session>, id: Id, now: int, s: Id)
    requires id in sessions && sessions[id].status == IN_PROGRESS && sessions[id].excludedAt == None
    ensures Included(sessions[id := sessions[id].(status := SUBMITTED, submittedAt := Some(now))], s)
         == Included(sessions, s) + (if s == sessions[id].surveyId then {id} else {})
    ensures id !in Included(sessions, s)
  {
  }

  lemma SubmitCounts(db: Db, r: SubmitRequest)
    requires Counted(db) && SubmitMatches(db, r) && SubmitCommits(db, r)
    requires db.sessions[r.sessionId].excludedAt == None
    ensures Counted(SubmitTx(db, r))
  {
    hide GetKstWeekStart, Included;
    var after := SubmitTx(db, r);
    forall s | s in db.responseCount
      ensures after.responseCount[s] == |Included(after.sessions, s)|
    {
      SubmittedIsIncluded(db.sessions, r.sessionId, r.now, s);
    }
  }

  lemma SubmitAgrees(db: Db, r: SubmitRequest)
    requires AllAgree(db) && SubmitMatches(db, r) && SubmitCommits(db, r)
    ensures AllAgree(SubmitTx(db, r)) && db.sessions[r.sessionId].excludedAt == None
  {
    hide GetKstWeekStart;
    var after := SubmitTx(db, r);
    assert Agrees(db, r.sessionId);
    forall id | id in after.sessions
      ensures Agrees(after, id)
    {
      assert Agrees(db, id);
    }
  }

  lemma SubmitBalances(db: Db, r: SubmitRequest)
    requires Balanced(db) && SubmitMatches(db, r)
    ensures Balanced(SubmitTx(db, r))
    ensures db.sessions[r.sessionId].status == IN_PROGRESS ==> SubmitCommits(db, r)
  {
    hide GetKstWeekStart, Counted;
    assert Agrees(db, r.sessionId);
    if SubmitCommits(db, r) {
      SubmitAgrees(db, r);
      SubmitCounts(db, r);
    }
  }

  lemma ExcludedIsNotIncluded(sessions: map<Id, Session>, id: Id, now: int, s: Id)
    requires id in sessions && sessions[id].status == SUBMITTED && sessions[id].excludedAt == None
    ensures Included(sessions[id := sessions[id].(excludedAt := Some(now))], s) == Included(sessions, s) - {id}
    ensures id in Included(sessions, s) <==> s == sessions[id].surveyId
  {
  }

  lemma ExcludeCounts(db: Db, sessionId: Id, surveyId: Id, now: int)
    requires Counted(db) && ExcludeMatches(db, sessionId, surveyId) && ExcludeCommits(db, sessionId, surveyId)
    ensures Counted(ExcludeTx(db, sessionId, surveyId, now))
  {
    hide Included;
    var after := ExcludeTx(db, sessionId, surveyId, now);
    forall s | s in db.responseCount
      ensures after.responseCount[s] == |Included(after.sessions, s)|
    {
      ExcludedIsNotIncluded(db.sessions, sessionId, now, s);
    }
  }

  lemma ExcludeAgrees(db: Db, sessionId: Id, surveyId: Id, now: int)
    requires AllAgree(db) && ExcludeMatches(db, sessionId, surveyId) && ExcludeCommits(db, sessionId, surveyId)
    ensures AllAgree(ExcludeTx(db, sessionId, surveyId, now))
  {
    hide GetKstWeekStart;
    var after := ExcludeTx(db, sessionId, surveyId, now);
    assert Agrees(db, sessionId);
    forall id | id in after.sessions
      ensures Agrees(after, id)
    {
      assert Agrees(db, id);
    }
  }

  lemma ExcludeBalances(db: Db, sessionId: Id, surveyId: Id, now: int)
    requires Balanced(db) && ExcludeMatches(db, sessionId, surveyId)
    ensures Balanced(ExcludeTx(db, sessionId, surveyId, now))
  {
    hide AllAgree, Counted;
    if ExcludeCommits(db, sessionId, surveyId) {
      ExcludeAgrees(db, sessionId, surveyId, now);
      ExcludeCounts(db, sessionId, surveyId, now);
    }
  }

  lemma NewSurveyBalances(db: Db, surveyId: Id)
    requires Balanced(db) && surveyId !in db.responseCount
    ensures Balanced(db.(responseCount := db.responseCount[surveyId := 0]))
  {
    hide GetKstWeekStart;
    var after := db.(responseCount := db.responseCount[surveyId := 0]);
    assert forall id :: id in db.sessions ==> Agrees(db, id);
    forall s | s in after.responseCount
      ensures Included(after.sessions, s) == Included(db.sessions, s)
              && (s == surveyId ==> Included(db.sessions, s) == {})
    {
    }
    forall id | id in after.sessions
      ensures Agrees(after, id)
    {
      assert Agrees(db, id);
    }
  }

  lemma SaveBalances(db: Db, sessionId: Id, answers: Answers)
    requires Balanced(db)
    ensures Balanced(SaveTx(db, sessionId, answers))
  {
    hide GetKstWeekStart, Counted, Agrees;
    var after := SaveTx(db, sessionId, answers);
    SameCounted(db, after);
    forall id | id in after.sessions
      ensures Agrees(after, id)
    {
      SameAgrees(db, after, id);
    }
  }

  lemma SameCounted(before: Db, after: Db)
    requires Counted(before) && after.sessions == before.sessions && after.responseCount == before.responseCount
    ensures Counted(after)
  {
    hide Included;
  }

  lemma SameAgrees(before: Db, after: Db, id: Id)
    requires id in before.sessions && Agrees(before, id) && after == before.(answers := after.answers)
    ensures Agrees(after, id)
  {
    hide GetKstWeekStart;
  }

  // ---------------------------------------------------------------- interleavings

  datatype ExcludeRequest = ExcludeRequest(sessionId: Id, surveyId: Id)

  datatype State = State(
    db: Db, submits: map<nat, SubmitRequest>, excludes: map<nat, ExcludeRequest>, saves: map<nat, Id>)

  datatype Event =
    | NewSurvey(surveyId: Id)
    | Start(sessionId: Id, surveyId: Id, userId: Id)
    | ReadSubmit(req: nat, r: SubmitRequest)
    | CommitSubmit(req: nat)
    | ReadExclude(req: nat, sessionId: Id)
    | CommitExclude(req: nat, now: int)
    | ReadSave(req: nat, sessionId: Id)
    | CommitSave(req: nat, answers: Answers)

  function Next(s: State, e: Event): State {
    match e
    case NewSurvey(surveyId) =>
      if surveyId in s.db.responseCount then s
      else s.(db := s.db.(responseCount := s.db.responseCount[surveyId := 0]))
    case Start(sessionId, surveyId, userId) =>
      s.(db := StartTx(s.db, sessionId, surveyId, userId))
    case ReadSubmit(req, r) =>
      if r.sessionId in s.db.sessions && s.db.sessions[r.sessionId].surveyId == r.surveyId
         && s.db.sessions[r.sessionId].userId == r.userId && s.db.sessions[r.sessionId].status == IN_PROGRESS
      then s.(submits := s.submits[req := r]) else s
    case CommitSubmit(req) =>
      if req in s.submits then s.(db := SubmitTx(s.db, s.submits[req]), submits := s.submits - {req}) else s
    case ReadExclude(req, sessionId) =>
      if sessionId in s.db.sessions && s.db.sessions[sessionId].status == SUBMITTED
        && s.db.sessions[sessionId].excludedAt == None
      then s.(excludes := s.excludes[req := ExcludeRequest(sessionId, s.db.sessions[sessionId].surveyId)]) else s
    case CommitExclude(req, now) =>
      if req in s.excludes
      then s.(db := ExcludeTx(s.db, s.excludes[req].sessionId, s.excludes[req].surveyId, now),
              excludes := s.excludes - {req})
      else s
    case ReadSave(req, sessionId) =>
      if sessionId in s.db.sessions && s.db.sessions[sessionId].status == IN_PROGRESS
      then s.(saves := s.saves[req := sessionId]) else s
    case CommitSave(req, answers) =>
      if req in s.saves then s.(db := SaveTx(s.db, s.saves[req], answers), saves := s.saves - {req}) else s
  }

  function Run(s: State, events: seq<Event>): State
    decreases |events|
  {
    if events == [] then s else Run(Next(s, events[0]), events[1..])
  }

  /** A survey starts with no response, and a session by its transaction. */
  lemma WholeRequests(s: State, sessionId: Id, surveyId: Id, userId: Id)
    ensures Next(s, NewSurvey(surveyId))
         == if surveyId in s.db.responseCount then s
            else s.(db := Db(s.db.sessions, s.db.scores, s.db.responseCount[surveyId := 0], s.db.answers))
    ensures Next(s, Start(sessionId, surveyId, userId)) == s.(db := StartTx(s.db, sessionId, surveyId, userId))
  {
  }

  /** With nothing in between, a request whose checks pass is its transaction, and
      any other does nothing. */
  lemma UndisturbedSubmit(s: State, req: nat, r: SubmitRequest)
    requires req !in s.submits
    ensures Next(Next(s, ReadSubmit(req, r)), CommitSubmit(req))
         == if && r.sessionId in s.db.sessions && s.db.sessions[r.sessionId].status == IN_PROGRESS
               && s.db.sessions[r.sessionId].surveyId == r.surveyId && s.db.sessions[r.sessionId].userId == r.userId
            then s.(db := SubmitTx(s.db, r)) else s
  {
    hide SubmitTx;
    assert s.submits[req := r] - {req} == s.submits;
  }

  lemma UndisturbedExclude(s: State, req: nat, id: Id, now: int)
    requires req !in s.excludes
    ensures Next(Next(s, ReadExclude(req, id)), CommitExclude(req, now))
         == if id in s.db.sessions && s.db.sessions[id].status == SUBMITTED && s.db.sessions[id].excludedAt == None
            then s.(db := ExcludeTx(s.db, id, s.db.sessions[id].surveyId, now)) else s
  {
    hide ExcludeTx;
    if id in s.db.sessions {
      assert s.excludes[req := ExcludeRequest(id, s.db.sessions[id].surveyId)] - {req} == s.excludes;
    }
  }

  lemma UndisturbedSave(s: State, req: nat, id: Id, answers: Answers)
    requires req !in s.saves
    ensures Next(Next(s, ReadSave(req, id)), CommitSave(req, answers))
         == if id in s.db.sessions && s.db.sessions[id].status == IN_PROGRESS
            then s.(db := SaveTx(s.db, id, answers)) else s
  {
    hide SaveTx;
    assert s.saves[req := id] - {req} == s.saves;
  }

  ghost predicate Inv(s: State) {
    && Balanced(s.db)
    && (forall q :: q in s.submits ==> SubmitMatches(s.db, s.submits[q]))
    && (forall q :: q in s.excludes ==> ExcludeMatches(s.db, s.excludes[q].sessionId, s.excludes[q].surveyId))
  }

  /** Sessions never move to another survey or user, nor leave SUBMITTED, nor
      lose an exclusion. */
  ghost predicate SessionsGrow(before: map<Id, Session>, after: map<Id, Session>) {
    forall id :: id in before ==>
      && id in after
      && after[id].surveyId == before[id].surveyId && after[id].userId == before[id].userId
      && (before[id].status == SUBMITTED ==>
           after[id].status == SUBMITTED && after[id].submittedAt == before[id].submittedAt)
      && (before[id].excludedAt != None ==> after[id] == before[id])
  }

  /** A score, once granted, only ever gains its revocation. */
  ghost predicate ScoresGrow(before: map<Id, Score>, after: map<Id, Score>) {
    forall id :: id in before ==>
      && id in after
      && after[id].userId == before[id].userId && after[id].weekStart == before[id].weekStart
      && after[id].points == before[id].points
      && (before[id].revokedAt != None ==> after[id] == before[id])
  }

  ghost predicate Grows(before: Db, after: Db) {
    SessionsGrow(before.sessions, after.sessions) && ScoresGrow(before.scores, after.scores)
  }

  lemma SubmitGrows(db: Db, r: SubmitRequest)
    requires AllAgree(db)
    ensures Grows(db, SubmitTx(db, r))
  {
    hide GetKstWeekStart;
    assert r.sessionId in db.sessions ==> Agrees(db, r.sessionId);
  }

  lemma ExcludeGrows(db: Db, sessionId: Id, surveyId: Id, now: int)
    requires AllAgree(db)
    ensures Grows(db, ExcludeTx(db, sessionId, surveyId, now))
  {
    hide GetKstWeekStart;
    assert sessionId in db.sessions ==> Agrees(db, sessionId);
  }

  lemma NextGrows(s: State, e: Event)
    requires AllAgree(s.db)
    ensures Grows(s.db, Next(s, e).db)
  {
    hide AllAgree, SubmitTx, ExcludeTx;
    match e {
      case CommitSubmit(req) => if req in s.submits { SubmitGrows(s.db, s.submits[req]); }
      case CommitExclude(req, now) =>
        if req in s.excludes { ExcludeGrows(s.db, s.excludes[req].sessionId, s.excludes[req].surveyId, now); }
      case _ =>
    }
  }

  lemma NextBalances(s: State, e: Event)
    requires Inv(s)
    ensures Balanced(Next(s, e).db)
  {
    hide Balanced, SubmitTx, ExcludeTx, StartTx, SaveTx;
    match e {
      case NewSurvey(surveyId) => if surveyId !in s.db.responseCount { NewSurveyBalances(s.db, surveyId); }
      case Start(sessionId, surveyId, userId) => StartBalances(s.db, sessionId, surveyId, userId);
      case CommitSubmit(req) => if req in s.submits { SubmitBalances(s.db, s.submits[req]); }
      case CommitExclude(req, now) =>
        if req in s.excludes { ExcludeBalances(s.db, s.excludes[req].sessionId, s.excludes[req].surveyId, now); }
      case CommitSave(req, answers) => if req in s.saves { SaveBalances(s.db, s.saves[req], answers); }
      case _ =>
    }
  }

  /** Every request pending after an event matched the rows before it. */
  lemma PendingMatches(s: State, e: Event)
    requires Inv(s)
    ensures var t := Next(s, e);
            && (forall q :: q in t.submits ==> SubmitMatches(s.db, t.submits[q]))
            && (forall q :: q in t.excludes ==> ExcludeMatches(s.db, t.excludes[q].sessionId, t.excludes[q].surveyId))
  {
    hide Balanced, SubmitTx, ExcludeTx, StartTx, SaveTx;
  }

  lemma MatchesGrow(before: Db, after: Db, r: SubmitRequest)
    requires Grows(before, after) && SubmitMatches(before, r)
    ensures SubmitMatches(after, r)
  {
  }

  lemma ExcludeMatchesGrow(before: Db, after: Db, r: ExcludeRequest)
    requires Grows(before, after) && ExcludeMatches(before, r.sessionId, r.surveyId)
    ensures ExcludeMatches(after, r.sessionId, r.surveyId)
  {
  }

  lemma RequestsStayMatched(s: State, e: Event)
    requires Inv(s) && Grows(s.db, Next(s, e).db)
    ensures var t := Next(s, e);
            && (forall q :: q in t.submits ==> SubmitMatches(t.db, t.submits[q]))
            && (forall q :: q in t.excludes ==> ExcludeMatches(t.db, t.excludes[q].sessionId, t.excludes[q].surveyId))
  {
    PendingMatches(s, e);
    hide Inv, Next, Grows, SubmitMatches, ExcludeMatches;
    var t := Next(s, e);
    forall q | q in t.submits
      ensures SubmitMatches(t.db, t.submits[q])
    {
      MatchesGrow(s.db, t.db, t.submits[q]);
    }
    forall q | q in t.excludes
      ensures ExcludeMatches(t.db, t.excludes[q].sessionId, t.excludes[q].surveyId)
    {
      ExcludeMatchesGrow(s.db, t.db, t.excludes[q]);
    }
  }

  /** Every event keeps the books balanced. */
  lemma StepKeepsInvariant(s: State, e: Event)
    requires Inv(s)
    ensures Inv(Next(s, e)) && Grows(s.db, Next(s, e).db)
  {
    hide AllAgree, Counted, OnePerUser, Next, SubmitMatches, ExcludeMatches, Grows;
    NextGrows(s, e);
    NextBalances(s, e);
    RequestsStayMatched(s, e);
  }

  /** In every state that requests can reach, in whatever order they commit, the
      response counter is the number of included sessions, and sessions and
      scores agree one to one. */
  lemma {:induction false} LedgerStaysBalanced(s: State, events: seq<Event>)
    requires Inv(s)
    ensures Inv(Run(s, events))
    decreases |events|
  {
    hide Inv, Next;
    if events != [] {
      StepKeepsInvariant(s, events[0]);
      LedgerStaysBalanced(Next(s, events[0]), events[1..]);
    }
  }

  /** Starting stores a session in progress exactly when the survey is there and
      the user has none for it yet; it touches nothing else. */
  lemma StartStores(db: Db, sessionId: Id, surveyId: Id, userId: Id)
    requires sessionId !in db.sessions
    ensures var after := StartTx(db, sessionId, surveyId, userId);
            && (sessionId in after.sessions
                <==> && surveyId in db.responseCount
                     && forall id :: id in db.sessions ==>
                          !(db.sessions[id].surveyId == surveyId && db.sessions[id].userId == userId))
            && (sessionId in after.sessions ==>
                  && after.sessions == db.sessions[sessionId := Session(surveyId, userId, IN_PROGRESS, None, None)]
                  && after.answers == db.answers)
            && (sessionId !in after.sessions ==> after == db)
            && after.scores == db.scores && after.responseCount == db.responseCount
  {
  }

  /** Before the first survey. */
  const NOTHING_YET: State := State(Db(map[], map[], map[], map[]), map[], map[], map[])

  /** The scores that count, of one point each. */
  function LiveScores(db: Db): set<Id> {
    set id | id in db.scores && db.scores[id].revokedAt == None
  }

  ghost function TotalOver(counts: map<Id, int>, surveys: set<Id>): int
    requires surveys <= counts.Keys
  {
    if surveys == {} then 0
    else var s :| s in surveys; counts[s] + TotalOver(counts, surveys - {s})
  }

  function IncludedIn(db: Db, surveys: set<Id>): set<Id> {
    set id | id in db.sessions && db.sessions[id].surveyId in surveys && db.sessions[id].status == SUBMITTED
             && db.sessions[id].excludedAt == None
  }

  lemma IncludedSplits(db: Db, surveys: set<Id>, s: Id)
    requires s in surveys
    ensures IncludedIn(db, surveys) == IncludedIn(db, surveys - {s}) + Included(db.sessions, s)
    ensures |IncludedIn(db, surveys)| == |IncludedIn(db, surveys - {s})| + |Included(db.sessions, s)|
  {
    assert IncludedIn(db, surveys) == IncludedIn(db, surveys - {s}) + Included(db.sessions, s);
    assert IncludedIn(db, surveys - {s}) !! Included(db.sessions, s);
  }

  lemma {:induction false} TotalIsIncluded(db: Db, surveys: set<Id>)
    requires Counted(db) && surveys <= db.responseCount.Keys
    ensures TotalOver(db.responseCount, surveys) == |IncludedIn(db, surveys)|
  {
    if surveys == {} {
      assert IncludedIn(db, surveys) == {};
    } else {
      var s :| s in surveys
        && TotalOver(db.responseCount, surveys) == db.responseCount[s] + TotalOver(db.responseCount, surveys - {s});
      TotalIsIncluded(db, surveys - {s});
      IncludedSplits(db, surveys, s);
      hide IncludedIn, Included, TotalOver;
    }
  }

  lemma LiveScoresAreIncluded(db: Db)
    requires AllAgree(db)
    ensures LiveScores(db) == IncludedIn(db, db.responseCount.Keys)
  {
    forall id
      ensures id in LiveScores(db) <==> id in IncludedIn(db, db.responseCount.Keys)
    {
      if id in db.sessions {
        assert Agrees(db, id);
      }
    }
  }

  /** Whatever overlaps, from the first survey on: the books balance, and the
      points in circulation are as many as all surveys' response counts together. */
  lemma PointsMatchResponses(events: seq<Event>)
    ensures var db := Run(NOTHING_YET, events).db;
            Balanced(db) && |LiveScores(db)| == TotalOver(db.responseCount, db.responseCount.Keys)
  {
    assert Inv(NOTHING_YET);
    LedgerStaysBalanced(NOTHING_YET, events);
    hide Run, AllAgree, OnePerUser, Counted;
    var db := Run(NOTHING_YET, events).db;
    LiveScoresAreIncluded(db);
    TotalIsIncluded(db, db.responseCount.Keys);
  }

  // ---------------------------------------------------------------- repeated requests

  /** `submit` answers with the points of the stored score. */
  function SubmitPoints(db: Db, sessionId: Id): int {
    if sessionId in db.scores then db.scores[sessionId].points else 0
  }

  /** A submit that loses the race changes nothing and reports what the winner did. */
  lemma LosingSubmitChangesNothing(db: Db, r: SubmitRequest)
    requires Balanced(db) && SubmitMatches(db, r) && db.sessions[r.sessionId].status == SUBMITTED
    ensures SubmitTx(db, r) == db && SubmitPoints(db, r.sessionId) == 1
  {
    hide GetKstWeekStart;
    assert Agrees(db, r.sessionId);
  }

  function Submitted(db: Db): set<Id> {
    set id | id in db.sessions && db.sessions[id].status == SUBMITTED
  }

  function CommittedSubmits(s: State, events: seq<Event>): nat
    decreases |events|
  {
    if events == [] then 0
    else
      var e := events[0];
      (if e.CommitSubmit? && e.req in s.submits && SubmitCommits(s.db, s.submits[e.req]) then 1 else 0)
      + CommittedSubmits(Next(s, e), events[1..])
  }

  lemma SubmitAddsOne(db: Db, r: SubmitRequest)
    ensures |Submitted(SubmitTx(db, r))| == |Submitted(db)| + (if SubmitCommits(db, r) then 1 else 0)
  {
    hide GetKstWeekStart;
    if SubmitCommits(db, r) {
      assert Submitted(SubmitTx(db, r)) == Submitted(db) + {r.sessionId};
    }
  }

  lemma SameSubmitted(before: Db, after: Db)
    requires forall id :: (id in before.sessions && before.sessions[id].status == SUBMITTED)
                     <==> (id in after.sessions && after.sessions[id].status == SUBMITTED)
    ensures Submitted(before) == Submitted(after)
  {
  }

  lemma SubmittedGrows(s: State, e: Event)
    requires Inv(s)
    ensures |Submitted(Next(s, e).db)| == |Submitted(s.db)|
              + (if e.CommitSubmit? && e.req in s.submits && SubmitCommits(s.db, s.submits[e.req]) then 1 else 0)
  {
    hide Inv, Submitted, SubmitTx, SubmitCommits, HasSession, GetKstWeekStart;
    if e.CommitSubmit? {
      if e.req in s.submits {
        SubmitAddsOne(s.db, s.submits[e.req]);
      }
    } else {
      SameSubmitted(s.db, Next(s, e).db);
    }
  }

  /** However often it is repeated, a submission is granted once: as many submits
      commit as sessions become submitted. */
  lemma {:induction false} EachSessionIsSubmittedOnce(s: State, events: seq<Event>)
    requires Inv(s)
    ensures |Submitted(Run(s, events).db)| == |Submitted(s.db)| + CommittedSubmits(s, events)
    decreases |events|
  {
    hide Inv, Next, Submitted, SubmitCommits;
    if events != [] {
      StepKeepsInvariant(s, events[0]);
      SubmittedGrows(s, events[0]);
      EachSessionIsSubmittedOnce(Next(s, events[0]), events[1..]);
    }
  }

  // ---------------------------------------------------------------- stored answers

  predicate IsSubmitted(db: Db, id: Id) {
    id in db.sessions && db.sessions[id].status == SUBMITTED
  }

  /** No save of the session has read it and is still to commit. */
  predicate NoSaveUnderWay(s: State, id: Id) {
    forall q :: q in s.saves ==> s.saves[q] != id
  }

  /** Once a session is submitted, no event but a save under way changes its
      answers, and no new save gets under way. */
  lemma SubmittedStep(s: State, e: Event, id: Id)
    requires IsSubmitted(s.db, id)
    ensures IsSubmitted(Next(s, e).db, id)
    ensures !(e.CommitSave? && e.req in s.saves && s.saves[e.req] == id) ==>
              StoredAnswers(Next(s, e).db, id) == StoredAnswers(s.db, id)
    ensures NoSaveUnderWay(s, id) ==> NoSaveUnderWay(Next(s, e), id)
  {
    hide GetKstWeekStart, HasSession;
  }

  lemma {:induction false} AnswersStandWithoutSaves(s: State, events: seq<Event>, id: Id)
    requires IsSubmitted(s.db, id) && NoSaveUnderWay(s, id)
    ensures StoredAnswers(Run(s, events).db, id) == StoredAnswers(s.db, id)
    decreases |events|
  {
    hide Next, StoredAnswers, IsSubmitted;
    if events != [] {
      SubmittedStep(s, events[0], id);
      AnswersStandWithoutSaves(Next(s, events[0]), events[1..], id);
    }
  }

  lemma SaveUnderWayReplaces(s: State, req: nat, id: Id, late: Answers)
    requires id in s.db.sessions && req in s.saves && s.saves[req] == id
    ensures StoredAnswers(Run(s, [CommitSave(req, late)]).db, id) == late
  {
    hide GetKstWeekStart;
    assert [CommitSave(req, late)][1..] == [];
    assert Run(Next(s, CommitSave(req, late)), []) == Next(s, CommitSave(req, late));
  }

  /** Submitted answers stand over every run exactly when no save of the session
      was under way when it was submitted. */
  lemma SubmittedAnswersStand(s: State, id: Id)
    requires IsSubmitted(s.db, id)
    ensures (forall events :: StoredAnswers(Run(s, events).db, id) == StoredAnswers(s.db, id))
       <==> NoSaveUnderWay(s, id)
  {
    hide Next, Run, StoredAnswers;
    if NoSaveUnderWay(s, id) {
      forall events
        ensures StoredAnswers(Run(s, events).db, id) == StoredAnswers(s.db, id)
      {
        AnswersStandWithoutSaves(s, events, id);
      }
    } else {
      var q :| q in s.saves && s.saves[q] == id;
      var other: Answers := if StoredAnswers(s.db, id) == map[] then map["" := ""] else map[];
      assert "" in map["" := ""];
      SaveUnderWayReplaces(s, q, id, other);
    }
  }

  /** The answers a committing event stores for a session. */
  function WrittenBy(s: State, e: Event, id: Id): Option<Answers> {
    if e.CommitSubmit? && e.req in s.submits && s.submits[e.req].sessionId == id
      && SubmitCommits(s.db, s.submits[e.req])
    then Some(s.submits[e.req].answers)
    else if e.CommitSave? && e.req in s.saves && s.saves[e.req] == id && id in s.db.sessions then Some(e.answers)
    else None
  }

  function LastWritten(s: State, events: seq<Event>, id: Id): Option<Answers>
    decreases |events|
  {
    if events == [] then None
    else
      var later := LastWritten(Next(s, events[0]), events[1..], id);
      if later == None then WrittenBy(s, events[0], id) else later
  }

  lemma StepWritesAnswers(s: State, e: Event, id: Id)
    ensures StoredAnswers(Next(s, e).db, id) == WrittenBy(s, e, id).GetOr(StoredAnswers(s.db, id))
  {
    hide GetKstWeekStart, HasSession;
  }

  /** Whatever overlaps, a session holds the answers of the last submit or save
      of it that committed, and of no other request. */
  lemma {:induction false} AnswersAreLastWritten(s: State, events: seq<Event>, id: Id)
    ensures StoredAnswers(Run(s, events).db, id) == LastWritten(s, events, id).GetOr(StoredAnswers(s.db, id))
    decreases |events|
  {
    hide Next, StoredAnswers, WrittenBy;
    if events != [] {
      StepWritesAnswers(s, events[0], id);
      AnswersAreLastWritten(Next(s, events[0]), events[1..], id);
    }
  }

  /** Only saves that read the session before it was submitted write to it later. */
  lemma {:induction false} LateWritesAreSaves(s: State, events: seq<Event>, id: Id)
    requires IsSubmitted(s.db, id) && LastWritten(s, events, id) != None
    ensures exists q, answers ::
              q in s.saves && s.saves[q] == id && CommitSave(q, answers) in events
              && LastWritten(s, events, id) == Some(answers)
    decreases |events|
  {
    hide IsSubmitted, Next;
    var e, rest := events[0], events[1..];
    var t := Next(s, e);
    assert events == [e] + rest;
    SubmittedStep(s, e, id);
    if LastWritten(t, rest, id) != None {
      LateWritesAreSaves(t, rest, id);
      var q, answers :| q in t.saves && t.saves[q] == id && CommitSave(q, answers) in rest
                        && LastWritten(t, rest, id) == Some(answers);
      SavesOfSubmitted(s, e, id, q);
      assert CommitSave(q, answers) in events;
    } else {
      SubmittedTakesSavesOnly(s, e, id);
      assert e in events;
    }
  }

  lemma SavesOfSubmitted(s: State, e: Event, id: Id, q: nat)
    requires IsSubmitted(s.db, id) && q in Next(s, e).saves && Next(s, e).saves[q] == id
    ensures q in s.saves && s.saves[q] == id
  {
    hide GetKstWeekStart, HasSession;
  }

  lemma SubmittedTakesSavesOnly(s: State, e: Event, id: Id)
    requires IsSubmitted(s.db, id) && WrittenBy(s, e, id) != None
    ensures e.CommitSave? && e.req in s.saves && s.saves[e.req] == id && WrittenBy(s, e, id) == Some(e.answers)
  {
  }

  /** A session holds the answers of the submit that committed it, until a save
      that read it before that commits: over every run if no such save is there,
      and only then. */
  lemma SubmissionKeepsItsAnswers(s: State, req: nat)
    requires req in s.submits && SubmitCommits(s.db, s.submits[req])
    ensures var r, t := s.submits[req], Next(s, CommitSubmit(req));
            && IsSubmitted(t.db, r.sessionId) && StoredAnswers(t.db, r.sessionId) == r.answers
            && ((forall events :: StoredAnswers(Run(t, events).db, r.sessionId) == r.answers)
                <==> NoSaveUnderWay(s, r.sessionId))
            && (forall events ::
                  StoredAnswers(Run(t, events).db, r.sessionId)
                  == LastWritten(t, events, r.sessionId).GetOr(r.answers))
  {
    hide Next, Run, LastWritten;
    var r, t := s.submits[req], Next(s, CommitSubmit(req));
    SubmitStores(s, req);
    SubmittedAnswersStand(t, r.sessionId);
    forall events
      ensures StoredAnswers(Run(t, events).db, r.sessionId) == LastWritten(t, events, r.sessionId).GetOr(r.answers)
    {
      AnswersAreLastWritten(t, events, r.sessionId);
    }
  }

  lemma SubmitStores(s: State, req: nat)
    requires req in s.submits && SubmitCommits(s.db, s.submits[req])
    ensures var r, t := s.submits[req], Next(s, CommitSubmit(req));
            && IsSubmitted(t.db, r.sessionId) && StoredAnswers(t.db, r.sessionId) == r.answers && t.saves == s.saves
  {
    hide GetKstWeekStart;
  }

  /** A save that read its session before the submission commits after it, and
      replaces the submitted answers: the check is made outside the transaction. */
  lemma RacingSaveReplacesSubmittedAnswers(s: State, r: SubmitRequest, late: Answers)
    requires Balanced(s.db) && SubmitMatches(s.db, r) && s.db.sessions[r.sessionId].status == IN_PROGRESS
    ensures var read := Next(Next(s, ReadSave(0, r.sessionId)), ReadSubmit(0, r));
            var t := Next(Next(read, CommitSubmit(0)), CommitSave(0, late));
            && r.sessionId in t.db.sessions && t.db.sessions[r.sessionId].status == SUBMITTED
            && StoredAnswers(t.db, r.sessionId) == late
  {
    hide GetKstWeekStart, Balanced;
    SubmitBalances(s.db, r);
    var read := Next(Next(s, ReadSave(0, r.sessionId)), ReadSubmit(0, r));
    assert read.db == s.db && read.submits[0] == r && read.saves[0] == r.sessionId;
    var submitted := Next(read, CommitSubmit(0));
    assert submitted.db == SubmitTx(s.db, r) && submitted.saves == read.saves;
  }
}
