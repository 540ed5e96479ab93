/** Joins that race (src/team/team.service.ts): a join first checks and counts
    and then inserts, and other requests may come in between. */
module JoinRace {
  import opened Options
  import opened Teams

  /** A join that has passed its checks and is still to insert. */
  datatype Joining = Joining(user: UserId, team: TeamId)

  datatype RaceState = RaceState(db: State, waiting: map<nat, Joining>)

  datatype Event =
    | Count(req: nat, user: UserId, invited: Option<TeamId>)
    | Insert(req: nat, now: int)

  /** The checks before the insert, the member count included. */
  predicate CountPasses(s: State, user: UserId, invited: Option<TeamId>) {
    && IsActiveUser(s, user)
    && invited != None && IsActiveTeam(s, invited.value)
    && UnderTeamLimit(s, user)
    && |s.teams[invited.value].members| < MAX_TEAM_MEMBERS
  }

  /** The insert; it is turned down where its team is gone or has the member. */
  function InsertMember(s: State, j: Joining, now: int): State {
    if j.team !in s.teams || j.user in s.teams[j.team].members then s
    else SetTeam(s, j.team, s.teams[j.team].(members := s.teams[j.team].members[j.user := now]))
  }

  function Next(rs: RaceState, e: Event): RaceState {
    match e
    case Count(req, user, invited) =>
      if req !in rs.waiting && CountPasses(rs.db, user, invited)
      then rs.(waiting := rs.waiting[req := Joining(user, invited.value)]) else rs
    case Insert(req, now) =>
      if req in rs.waiting then RaceState(InsertMember(rs.db, rs.waiting[req], now), rs.waiting - {req}) else rs
  }

  function Run(rs: RaceState, events: seq<Event>): RaceState
    decreases |events|
  {
    if events == [] then rs else Run(Next(rs, events[0]), events[1..])
  }

  ghost predicate AllInserts(events: seq<Event>) {
    forall e :: e in events ==> e.Insert?
  }

  /** Every waiting join is of a team that is there. */
  ghost predicate TeamsAreThere(rs: RaceState) {
    forall q :: q in rs.waiting ==> rs.waiting[q].team in rs.db.teams
  }

  // ---------------------------------------------------------------- who is in, and who is about to be

  function Members(s: State, t: TeamId): set<UserId> {
    if t in s.teams then s.teams[t].members.Keys else {}
  }

  /** The members of a team once every waiting join has been inserted. */
  function MembersToBe(rs: RaceState, t: TeamId): set<UserId> {
    Members(rs.db, t) + set q | q in rs.waiting && rs.waiting[q].team == t :: rs.waiting[q].user
  }

  /** The active teams of a user once every waiting join has been inserted. */
  function TeamsToBe(rs: RaceState, u: UserId): set<TeamId> {
    ActiveTeamsOf(rs.db, u)
    + set q | q in rs.waiting && rs.waiting[q].user == u
      && IsActiveTeam(rs.db, rs.waiting[q].team) :: rs.waiting[q].team
  }

  lemma InsertKeepsMembersToBe(rs: RaceState, req: nat, now: int, t: TeamId)
    requires TeamsAreThere(rs)
    ensures TeamsAreThere(Next(rs, Insert(req, now)))
    ensures MembersToBe(Next(rs, Insert(req, now)), t) == MembersToBe(rs, t)
  {
    if req in rs.waiting {
      var after := Next(rs, Insert(req, now));
      forall u
        ensures u in MembersToBe(after, t) <==> u in MembersToBe(rs, t)
      {
        if q :| q in rs.waiting && rs.waiting[q].team == t && rs.waiting[q].user == u {
          assert q in after.waiting || (q == req && u in Members(after.db, t));
        }
      }
    }
  }

  lemma InsertKeepsTeamsToBe(rs: RaceState, req: nat, now: int, u: UserId)
    requires TeamsAreThere(rs)
    ensures TeamsToBe(Next(rs, Insert(req, now)), u) == TeamsToBe(rs, u)
  {
    if req in rs.waiting {
      var after := Next(rs, Insert(req, now));
      assert forall t :: IsActiveTeam(after.db, t) <==> IsActiveTeam(rs.db, t);
      forall t
        ensures t in TeamsToBe(after, u) <==> t in TeamsToBe(rs, u)
      {
        if q :| q in rs.waiting && rs.waiting[q].user == u && rs.waiting[q].team == t && IsActiveTeam(rs.db, t) {
          assert q in after.waiting || (q == req && t in ActiveTeamsOf(after.db, u));
        }
      }
    }
  }

  lemma {:induction false} InsertsKeepToBe(rs: RaceState, events: seq<Event>, t: TeamId, u: UserId)
    requires TeamsAreThere(rs) && AllInserts(events)
    ensures TeamsAreThere(Run(rs, events))
    ensures MembersToBe(Run(rs, events), t) == MembersToBe(rs, t)
    ensures TeamsToBe(Run(rs, events), u) == TeamsToBe(rs, u)
    decreases |events|
  {
    hide Next, MembersToBe, TeamsToBe, TeamsAreThere;
    if events != [] {
      assert events[0] in events;
      InsertKeepsMembersToBe(rs, events[0].req, events[0].now, t);
      InsertKeepsTeamsToBe(rs, events[0].req, events[0].now, u);
      InsertsKeepToBe(Next(rs, events[0]), events[1..], t, u);
    }
  }

  /** A run that inserts whatever waits. */
  lemma {:induction false} InsertAll(rs: RaceState) returns (events: seq<Event>)
    ensures AllInserts(events) && Run(rs, events).waiting == map[]
    decreases rs.waiting.Keys
  {
    if rs.waiting == map[] {
      events := [];
    } else {
      var q :| q in rs.waiting;
      var e := Insert(q, 0);
      var after := Next(rs, e);
      assert after.waiting.Keys == rs.waiting.Keys - {q};
      var rest := InsertAll(after);
      events := [e] + rest;
      assert events[1..] == rest;
    }
  }

  // ---------------------------------------------------------------- the exact condition

  /** A team keeps its limit over every run of inserts exactly when its members
      and the users about to join it are at most six. */
  lemma MemberLimitKeptExactly(rs: RaceState, t: TeamId)
    requires TeamsAreThere(rs)
    ensures (forall events :: AllInserts(events) ==> |Members(Run(rs, events).db, t)| <= MAX_TEAM_MEMBERS)
       <==> |MembersToBe(rs, t)| <= MAX_TEAM_MEMBERS
  {
    hide Next, AllInserts, TeamsAreThere, Run, TeamsToBe;
    if |MembersToBe(rs, t)| <= MAX_TEAM_MEMBERS {
      forall events | AllInserts(events)
        ensures |Members(Run(rs, events).db, t)| <= MAX_TEAM_MEMBERS
      {
        InsertsKeepToBe(rs, events, t, "");
        SubsetIsSmaller(Members(Run(rs, events).db, t), MembersToBe(rs, t));
      }
    } else {
      var events := InsertAll(rs);
      InsertsKeepToBe(rs, events, t, "");
      assert MembersToBe(Run(rs, events), t) == Members(Run(rs, events).db, t);
    }
  }

  /** A user keeps to three active teams over every run of inserts exactly when
      the user's teams and the ones about to be joined are at most three. */
  lemma TeamLimitKeptExactly(rs: RaceState, u: UserId)
    requires TeamsAreThere(rs)
    ensures (forall events :: AllInserts(events) ==> |ActiveTeamsOf(Run(rs, events).db, u)| <= MAX_TEAMS_PER_USER)
       <==> |TeamsToBe(rs, u)| <= MAX_TEAMS_PER_USER
  {
    hide Next, AllInserts, TeamsAreThere, Run, MembersToBe, ActiveTeamsOf;
    if |TeamsToBe(rs, u)| <= MAX_TEAMS_PER_USER {
      forall events | AllInserts(events)
        ensures |ActiveTeamsOf(Run(rs, events).db, u)| <= MAX_TEAMS_PER_USER
      {
        InsertsKeepToBe(rs, events, "", u);
        SubsetIsSmaller(ActiveTeamsOf(Run(rs, events).db, u), TeamsToBe(rs, u));
      }
    } else {
      var events := InsertAll(rs);
      InsertsKeepToBe(rs, events, "", u);
      assert TeamsToBe(Run(rs, events), u) == ActiveTeamsOf(Run(rs, events).db, u);
    }
  }

  // ---------------------------------------------------------------- joins in one piece, and in two

  /** A join that nothing comes between is the atomic join. */
  lemma UndisturbedJoinIsAtomic(s: State, user: UserId, invited: Option<TeamId>, now: int)
    ensures Run(RaceState(s, map[]), [Count(0, user, invited), Insert(0, now)]).db
            == JoinTeam(s, user, invited, now).state
  {
    hide ActiveTeamsOf;
    var start := RaceState(s, map[]);
    TwoEvents(start, Count(0, user, invited), Insert(0, now));
  }

  lemma TwoEvents(rs: RaceState, a: Event, b: Event)
    ensures Run(rs, [a, b]) == Next(Next(rs, a), b)
  {
    hide Next;
    assert [a, b][1..] == [b] && [b][1..] == [];
    assert Run(Next(rs, a), [b]) == Next(Next(rs, a), b);
  }

  lemma FourEvents(rs: RaceState, a: Event, b: Event, c: Event, d: Event)
    ensures Run(rs, [a, b, c, d]) == Next(Next(Next(Next(rs, a), b), c), d)
  {
    hide Next;
    assert [a, b, c, d][1..] == [b, c, d] && [b, c, d][1..] == [c, d];
    assert Run(Next(rs, a), [b, c, d]) == Run(Next(Next(rs, a), b), [c, d]);
    TwoEvents(Next(Next(rs, a), b), c, d);
  }

  /** Both joins count before either inserts. */
  function Race(a: Joining, b: Joining, now: int): seq<Event> {
    [Count(0, a.user, Some(a.team)), Count(1, b.user, Some(b.team)), Insert(0, now), Insert(1, now)]
  }

  lemma RaceInsertsBoth(s: State, a: Joining, b: Joining, now: int)
    requires CountPasses(s, a.user, Some(a.team)) && CountPasses(s, b.user, Some(b.team))
    ensures Run(RaceState(s, map[]), Race(a, b, now)).db == InsertMember(InsertMember(s, a, now), b, now)
  {
    hide CountPasses, InsertMember, Run;
    var start := RaceState(s, map[]);
    FourEvents(start, Count(0, a.user, Some(a.team)), Count(1, b.user, Some(b.team)), Insert(0, now), Insert(1, now));
    assert Next(Next(start, Count(0, a.user, Some(a.team))), Count(1, b.user, Some(b.team)))
      == RaceState(s, map[0 := a, 1 := b]);
    assert map[0 := a, 1 := b] - {0} == map[1 := b];
  }

  lemma LetInAlone(s: State, j: Joining, now: int)
    ensures JoinTeam(s, j.user, Some(j.team), now).error == None
       <==> CountPasses(s, j.user, Some(j.team)) && j.user !in Members(s, j.team)
  {
    hide ActiveTeamsOf;
  }

  lemma MembersAfterInsert(s: State, j: Joining, now: int)
    requires j.team in s.teams
    ensures Members(InsertMember(s, j, now), j.team) == Members(s, j.team) + {j.user}
    ensures j.team in InsertMember(s, j, now).teams
  {
  }

  /** Two joins that count before either inserts: each of them would be let in
      alone, to the last place of a team, and together they fill it to seven. */
  lemma RacingJoinsOverfill(s: State, t: TeamId, first: UserId, second: UserId, now: int)
    requires first != second && JoinTeam(s, first, Some(t), now).error == None
    requires JoinTeam(s, second, Some(t), now).error == None && |Members(s, t)| == MAX_TEAM_MEMBERS - 1
    ensures |Members(Run(RaceState(s, map[]), Race(Joining(first, t), Joining(second, t), now)).db, t)|
            == MAX_TEAM_MEMBERS + 1
  {
    hide JoinTeam, Members, InsertMember, Run, Race;
    var a, b := Joining(first, t), Joining(second, t);
    LetInAlone(s, a, now);
    LetInAlone(s, b, now);
    RaceInsertsBoth(s, a, b, now);
    MembersAfterInsert(s, a, now);
    MembersAfterInsert(InsertMember(s, a, now), b, now);
    assert |Members(s, t) + {first}| == |Members(s, t)| + 1;
  }

  lemma TeamsAfterInsert(s: State, j: Joining, now: int)
    requires IsActiveTeam(s, j.team)
    ensures ActiveTeamsOf(InsertMember(s, j, now), j.user) == ActiveTeamsOf(s, j.user) + {j.team}
    ensures forall t :: IsActiveTeam(InsertMember(s, j, now), t) <==> IsActiveTeam(s, t)
  {
  }

  lemma NotYetAmongTeams(s: State, j: Joining)
    ensures j.user !in Members(s, j.team) ==> j.team !in ActiveTeamsOf(s, j.user)
  {
  }

  /** A user in two teams who joins two more at once ends up in four. */
  lemma RacingJoinsExceedTeams(s: State, user: UserId, t: TeamId, v: TeamId, now: int)
    requires t != v && JoinTeam(s, user, Some(t), now).error == None
    requires JoinTeam(s, user, Some(v), now).error == None && |ActiveTeamsOf(s, user)| == MAX_TEAMS_PER_USER - 1
    ensures |ActiveTeamsOf(Run(RaceState(s, map[]), Race(Joining(user, t), Joining(user, v), now)).db, user)|
         == MAX_TEAMS_PER_USER + 1
  {
    hide JoinTeam, Members, InsertMember, Run, Race, ActiveTeamsOf, IsActiveTeam;
    var a, b := Joining(user, t), Joining(user, v);
    LetInAlone(s, a, now);
    LetInAlone(s, b, now);
    RaceInsertsBoth(s, a, b, now);
    NotYetAmongTeams(s, a);
    NotYetAmongTeams(s, b);
    TeamsAfterInsert(s, a, now);
    TeamsAfterInsert(InsertMember(s, a, now), b, now);
    assert |ActiveTeamsOf(s, user) + {t}| == |ActiveTeamsOf(s, user)| + 1;
  }
}
