/** Requests on teams that overlap (src/team/team.service.ts): removing a member,
    changing the leader, disbanding and joining check what they read and write
    later.  Withdrawing an account runs whole (src/user/user.service.ts). */
module LeaderRace {
  import opened Options
  import opened Teams
  import JoinRace

  /** A request that has passed its checks and is still to write. */
  datatype Pending =
    | ToRemove(team: TeamId, target: UserId)
    | ToTransfer(team: TeamId, newLeader: UserId)
    | ToDisband(team: TeamId)
    | ToJoin(team: TeamId, user: UserId)

  datatype RaceState = RaceState(db: State, waiting: map<nat, Pending>)

  datatype Event =
    | ReadRemove(req: nat, requester: UserId, id: TeamId, target: UserId)
    | ReadTransfer(req: nat, user: UserId, id: TeamId, newLeader: UserId)
    | ReadDisband(req: nat, user: UserId, id: TeamId)
    | CountJoin(req: nat, user: UserId, invited: Option<TeamId>)
    | Finish(req: nat, now: int)
    | Withdraw(user: UserId, after: State)

  /** What a request writes, whatever its team has become. */
  function Commit(s: State, p: Pending, now: int): State {
    if p.team !in s.teams then s
    else
      var team := s.teams[p.team];
      match p
      case ToRemove(id, target) => SetTeam(s, id, team.(members := team.members - {target}))
      case ToTransfer(id, newLeader) => SetTeam(s, id, team.(leader := newLeader))
      case ToDisband(id) => SetTeam(s, id, team.(disbanded := true, members := map[]))
      case ToJoin(id, user) => JoinRace.InsertMember(s, JoinRace.Joining(user, id), now)
  }

  /** What a request whose checks pass leaves waiting. */
  function Asked(s: State, e: Event): Option<Pending> {
    match e
    case ReadRemove(_, requester, id, target) =>
      if RemoveMember(s, requester, id, target).error == None then Some(ToRemove(id, target)) else None
    case ReadTransfer(_, user, id, newLeader) =>
      if TransferLeader(s, user, id, newLeader).error == None then Some(ToTransfer(id, newLeader)) else None
    case ReadDisband(_, user, id) =>
      if DisbandTeam(s, user, id).error == None then Some(ToDisband(id)) else None
    case CountJoin(_, user, invited) =>
      if JoinRace.CountPasses(s, user, invited) then Some(ToJoin(invited.value, user)) else None
    case _ => None
  }

  ghost predicate GoesThrough(s: State, e: Event) {
    e.Withdraw? && WithdrawError(s, e.user) == None && Withdraws(s, e.after, e.user)
  }

  ghost function Next(rs: RaceState, e: Event): RaceState {
    if e.Finish? then
      if e.req in rs.waiting
      then RaceState(Commit(rs.db, rs.waiting[e.req], e.now), rs.waiting - {e.req}) else rs
    else if e.Withdraw? then
      if GoesThrough(rs.db, e) then rs.(db := e.after) else rs
    else
      var p := Asked(rs.db, e);
      if p.Some? && e.req !in rs.waiting then rs.(waiting := rs.waiting[e.req := p.value]) else rs
  }

  ghost function Run(rs: RaceState, events: seq<Event>): RaceState
    decreases |events|
  {
    if events == [] then rs else Run(Next(rs, events[0]), events[1..])
  }

  ghost predicate AllFinishes(events: seq<Event>) {
    forall e :: e in events ==> e.Finish?
  }

  lemma OneEvent(rs: RaceState, e: Event)
    ensures Run(rs, [e]) == Next(rs, e)
  {
    hide Next;
    assert [e][1..] == [];
    assert Run(Next(rs, e), []) == Next(rs, e);
  }

  lemma TwoEvents(rs: RaceState, a: Event, b: Event)
    ensures Run(rs, [a, b]) == Next(Next(rs, a), b)
  {
    hide Next;
    assert [a, b][1..] == [b];
    OneEvent(Next(rs, a), b);
  }

  lemma FourEvents(rs: RaceState, a: Event, b: Event, c: Event, d: Event)
    ensures Run(rs, [a, b, c, d]) == Next(Next(Next(Next(rs, a), b), c), d)
  {
    hide Next;
    assert [a, b, c, d][1..] == [b, c, d] && [b, c, d][1..] == [c, d];
    assert Run(Next(rs, a), [b, c, d]) == Run(Next(Next(rs, a), b), [c, d]);
    TwoEvents(Next(Next(rs, a), b), c, d);
  }

  /** A request that nothing comes between is the atomic one. */
  lemma UndisturbedIsAtomic(s: State, user: UserId, id: TeamId, other: UserId, now: int)
    ensures Run(RaceState(s, map[]), [ReadRemove(0, user, id, other), Finish(0, now)]).db
         == RemoveMember(s, user, id, other).state
    ensures Run(RaceState(s, map[]), [ReadTransfer(0, user, id, other), Finish(0, now)]).db
         == TransferLeader(s, user, id, other).state
    ensures Run(RaceState(s, map[]), [ReadDisband(0, user, id), Finish(0, now)]).db == DisbandTeam(s, user, id).state
  {
    hide Run;
    var rs := RaceState(s, map[]);
    TwoEvents(rs, ReadRemove(0, user, id, other), Finish(0, now));
    TwoEvents(rs, ReadTransfer(0, user, id, other), Finish(0, now));
    TwoEvents(rs, ReadDisband(0, user, id), Finish(0, now));
  }

  lemma UndisturbedJoinIsAtomic(s: State, user: UserId, invited: Option<TeamId>, now: int)
    ensures Run(RaceState(s, map[]), [CountJoin(0, user, invited), Finish(0, now)]).db
         == JoinTeam(s, user, invited, now).state
  {
    hide Run, ActiveTeamsOf;
    TwoEvents(RaceState(s, map[]), CountJoin(0, user, invited), Finish(0, now));
  }

  /** A withdrawal is whole, and none happens of an account that is not there or is
      withdrawn already. */
  lemma WithdrawalIsWhole(rs: RaceState, user: UserId, after: State)
    ensures Next(rs, Event.Withdraw(user, after))
         == if user in rs.db.users && rs.db.users[user] != WITHDRAWN && Withdraws(rs.db, after, user)
            then rs.(db := after) else rs
  {
  }

  // ---------------------------------------------------------------- the leader is a member

  predicate LeaderIsMember(s: State, t: TeamId) {
    IsActiveTeam(s, t) ==> s.teams[t].leader in s.teams[t].members
  }

  /** Users about to lose their place in a team, and to become its leader. */
  function Leaving(rs: RaceState, t: TeamId): set<UserId> {
    set q | q in rs.waiting && rs.waiting[q].ToRemove? && rs.waiting[q].team == t :: rs.waiting[q].target
  }

  function Succeeding(rs: RaceState, t: TeamId): set<UserId> {
    set q | q in rs.waiting && rs.waiting[q].ToTransfer? && rs.waiting[q].team == t :: rs.waiting[q].newLeader
  }

  /** The leader and everyone about to lead are members, and none of them is
      about to leave. */
  ghost predicate Safe(rs: RaceState, t: TeamId) {
    IsActiveTeam(rs.db, t) ==>
      var leaders := {rs.db.teams[t].leader} + Succeeding(rs, t);
      leaders <= rs.db.teams[t].members.Keys && leaders !! Leaving(rs, t)
  }

  lemma FinishLeavesFewer(rs: RaceState, req: nat, now: int, t: TeamId)
    ensures Leaving(Next(rs, Finish(req, now)), t) <= Leaving(rs, t)
    ensures Succeeding(Next(rs, Finish(req, now)), t) <= Succeeding(rs, t)
  {
    hide Commit;
  }

  lemma FinishKeepsSafe(rs: RaceState, req: nat, now: int, t: TeamId)
    requires Safe(rs, t)
    ensures Safe(Next(rs, Finish(req, now)), t)
  {
    FinishLeavesFewer(rs, req, now, t);
    if req in rs.waiting {
      var p := rs.waiting[req];
      assert p.ToRemove? && p.team == t ==> p.target in Leaving(rs, t);
      assert p.ToTransfer? && p.team == t ==> p.newLeader in Succeeding(rs, t);
      hide Leaving, Succeeding;
    }
  }

  lemma {:induction false} FinishesKeepSafe(rs: RaceState, events: seq<Event>, t: TeamId)
    requires Safe(rs, t) && AllFinishes(events)
    ensures Safe(Run(rs, events), t)
    decreases |events|
  {
    hide Safe, Next;
    if events != [] {
      assert events[0] in events;
      FinishKeepsSafe(rs, events[0].req, events[0].now, t);
      FinishesKeepSafe(Next(rs, events[0]), events[1..], t);
    }
  }

  /** Without it, one or two writes leave the team with a leader outside it. */
  lemma UnsafeLosesLeader(rs: RaceState, t: TeamId) returns (events: seq<Event>)
    requires !Safe(rs, t)
    ensures AllFinishes(events) && !LeaderIsMember(Run(rs, events).db, t)
  {
    hide Run;
    var team := rs.db.teams[t];
    if team.leader !in team.members {
      events := [];
      RunOfNothing(rs);
    } else if !(Succeeding(rs, t) <= team.members.Keys) {
      var u :| u in Succeeding(rs, t) && u !in team.members;
      var q :| q in rs.waiting && rs.waiting[q] == ToTransfer(t, u);
      events := [Finish(q, 0)];
      OneEvent(rs, Finish(q, 0));
    } else if team.leader in Leaving(rs, t) {
      var q :| q in rs.waiting && rs.waiting[q] == ToRemove(t, team.leader);
      events := [Finish(q, 0)];
      OneEvent(rs, Finish(q, 0));
    } else {
      var u :| u in Succeeding(rs, t) && u in Leaving(rs, t);
      var q :| q in rs.waiting && rs.waiting[q] == ToTransfer(t, u);
      var p :| p in rs.waiting && rs.waiting[p] == ToRemove(t, u);
      events := [Finish(q, 0), Finish(p, 0)];
      TwoEvents(rs, Finish(q, 0), Finish(p, 0));
    }
  }

  lemma RunOfNothing(rs: RaceState)
    ensures Run(rs, []) == rs
  {
  }

  /** In whatever order the waiting requests write, the leader is a member
      exactly when the leader and everyone about to lead are members and none of
      them is about to leave. */
  lemma LeaderStaysExactly(rs: RaceState, t: TeamId)
    ensures (forall events :: AllFinishes(events) ==> LeaderIsMember(Run(rs, events).db, t)) <==> Safe(rs, t)
  {
    hide AllFinishes, Run, Next;
    if Safe(rs, t) {
      forall events | AllFinishes(events)
        ensures LeaderIsMember(Run(rs, events).db, t)
      {
        FinishesKeepSafe(rs, events, t);
        assert Safe(Run(rs, events), t);
      }
    } else {
      var events := UnsafeLosesLeader(rs, t);
    }
  }

  /** What puts the leader at risk: to remove or withdraw somebody about to lead,
      and to let somebody lead who is about to leave. */
  ghost predicate Conflicts(rs: RaceState, e: Event, t: TeamId) {
    match e
    case ReadRemove(req, _, id, target) =>
      id == t && req !in rs.waiting && Asked(rs.db, e).Some? && target in Succeeding(rs, t)
    case ReadTransfer(req, _, id, newLeader) =>
      id == t && req !in rs.waiting && Asked(rs.db, e).Some? && newLeader in Leaving(rs, t)
    case Withdraw(user, after) =>
      && GoesThrough(rs.db, e) && IsActiveTeam(after, t)
      && (user in Succeeding(rs, t) || after.teams[t].leader in Leaving(rs, t))
    case _ => false
  }

  lemma ReadAdds(rs: RaceState, e: Event, t: TeamId)
    requires !e.Finish? && !e.Withdraw? && Asked(rs.db, e).Some? && e.req !in rs.waiting
    ensures var p, after := Asked(rs.db, e).value, Next(rs, e);
            && after.db == rs.db
            && Leaving(after, t) == Leaving(rs, t) + (if p.ToRemove? && p.team == t then {p.target} else {})
            && Succeeding(after, t) == Succeeding(rs, t) + (if p.ToTransfer? && p.team == t then {p.newLeader} else {})
  {
    hide Asked;
    var p, after := Asked(rs.db, e).value, Next(rs, e);
    assert forall q :: q in rs.waiting ==> q in after.waiting && after.waiting[q] == rs.waiting[q];
    assert after.waiting[e.req] == p;
  }

  lemma WithdrawalLeavesLeader(s: State, after: State, user: UserId, t: TeamId)
    requires Withdraws(s, after, user) && IsActiveTeam(after, t) && LeaderIsMember(s, t)
    ensures IsActiveTeam(s, t) && after.teams[t].leader in after.teams[t].members
    ensures after.teams[t].members.Keys == s.teams[t].members.Keys - {user}
    ensures s.teams[t].leader != user ==> after.teams[t].leader == s.teams[t].leader
  {
    assert LeftBy(s.teams[t], after.teams[t], user);
  }

  lemma WithdrawalIsSafe(rs: RaceState, e: Event, t: TeamId)
    requires Safe(rs, t) && GoesThrough(rs.db, e)
    ensures Safe(Next(rs, e), t) <==> !Conflicts(rs, e, t)
  {
    hide Withdraws, Leaving, Succeeding;
    if IsActiveTeam(e.after, t) {
      assert t in rs.db.teams && IsActiveTeam(rs.db, t) by { WithdrawalKeepsTeams(rs.db, e.after, e.user, t); }
      WithdrawalLeavesLeader(rs.db, e.after, e.user, t);
      SameWaiting(rs, e.after, t);
    }
  }

  lemma WithdrawalKeepsTeams(s: State, after: State, user: UserId, t: TeamId)
    requires Withdraws(s, after, user) && IsActiveTeam(after, t)
    ensures IsActiveTeam(s, t)
  {
    assert LeftBy(s.teams[t], after.teams[t], user);
  }

  lemma SameWaiting(rs: RaceState, after: State, t: TeamId)
    ensures Leaving(rs.(db := after), t) == Leaving(rs, t) && Succeeding(rs.(db := after), t) == Succeeding(rs, t)
  {
  }

  lemma ReadIsSafe(rs: RaceState, e: Event, t: TeamId)
    requires Safe(rs, t) && !e.Finish? && !e.Withdraw?
    ensures Safe(Next(rs, e), t) <==> !Conflicts(rs, e, t)
  {
    hide Leaving, Succeeding, JoinRace.CountPasses;
    if Asked(rs.db, e).Some? && e.req !in rs.waiting {
      ReadAdds(rs, e, t);
    }
  }

  /** An event keeps the team safe exactly when it does not conflict. */
  lemma StepKeepsSafeExactly(rs: RaceState, e: Event, t: TeamId)
    requires Safe(rs, t)
    ensures Safe(Next(rs, e), t) <==> !Conflicts(rs, e, t)
  {
    hide Safe, Leaving, Succeeding, Commit, Asked, Withdraws;
    if e.Finish? {
      FinishKeepsSafe(rs, e.req, e.now, t);
    } else if !e.Withdraw? {
      ReadIsSafe(rs, e, t);
    } else if GoesThrough(rs.db, e) {
      WithdrawalIsSafe(rs, e, t);
    }
  }

  ghost predicate NeverConflicts(rs: RaceState, events: seq<Event>, t: TeamId)
    decreases |events|
  {
    events == [] || (!Conflicts(rs, events[0], t) && NeverConflicts(Next(rs, events[0]), events[1..], t))
  }

  /** Over every run without a conflict, reads and withdrawals included, a team
      that is not disbanded is led by a member. */
  lemma {:induction false} LeaderStaysOverRuns(rs: RaceState, events: seq<Event>, t: TeamId)
    requires Safe(rs, t) && NeverConflicts(rs, events, t)
    ensures Safe(Run(rs, events), t) && LeaderIsMember(Run(rs, events).db, t)
    decreases |events|
  {
    if events != [] {
      hide Safe, Conflicts, Next;
      StepKeepsSafeExactly(rs, events[0], t);
      LeaderStaysOverRuns(Next(rs, events[0]), events[1..], t);
    }
  }

  /** Leadership handed to a member who leaves meanwhile: each request alone goes
      through, and together they leave the team to somebody outside it. */
  lemma RacingLeaveLosesLeader(s: State, id: TeamId, leader: UserId, member: UserId, now: int)
    requires leader != member && TransferLeader(s, leader, id, member).error == None
    ensures RemoveMember(s, member, id, member).error == None
    ensures var after := Run(RaceState(s, map[]),
                             [ReadTransfer(0, leader, id, member), ReadRemove(1, member, id, member),
                              Finish(0, now), Finish(1, now)]).db;
            IsActiveTeam(after, id) && after.teams[id].leader == member && member !in after.teams[id].members
  {
    hide Run;
    FourEvents(RaceState(s, map[]), ReadTransfer(0, leader, id, member), ReadRemove(1, member, id, member),
               Finish(0, now), Finish(1, now));
  }

  // ---------------------------------------------------------------- disbanded teams are empty

  predicate EmptyIfDisbanded(s: State, t: TeamId) {
    t in s.teams && s.teams[t].disbanded ==> s.teams[t].members == map[]
  }

  predicate Disbanding(rs: RaceState, t: TeamId) {
    exists q :: q in rs.waiting && rs.waiting[q] == ToDisband(t)
  }

  ghost predicate Joining(rs: RaceState, t: TeamId) {
    exists q :: q in rs.waiting && rs.waiting[q].ToJoin? && rs.waiting[q].team == t
  }

  /** Nobody is about to join a team that is disbanded or about to be. */
  ghost predicate Closed(rs: RaceState, t: TeamId) {
    && EmptyIfDisbanded(rs.db, t)
    && (t in rs.db.teams && (rs.db.teams[t].disbanded || Disbanding(rs, t)) ==> !Joining(rs, t))
  }

  lemma FinishKeepsClosed(rs: RaceState, req: nat, now: int, t: TeamId)
    requires Closed(rs, t)
    ensures Closed(Next(rs, Finish(req, now)), t)
  {
    if req in rs.waiting {
      var p := rs.waiting[req];
      assert p == ToDisband(t) ==> Disbanding(rs, t);
      assert p.ToJoin? && p.team == t ==> Joining(rs, t);
      var after := Next(rs, Finish(req, now));
      assert Disbanding(after, t) ==> Disbanding(rs, t);
      assert Joining(after, t) ==> Joining(rs, t);
      hide Disbanding, Joining;
    }
  }

  lemma {:induction false} FinishesKeepClosed(rs: RaceState, events: seq<Event>, t: TeamId)
    requires Closed(rs, t) && AllFinishes(events)
    ensures Closed(Run(rs, events), t)
    decreases |events|
  {
    hide Closed, Next;
    if events != [] {
      assert events[0] in events;
      FinishKeepsClosed(rs, events[0].req, events[0].now, t);
      FinishesKeepClosed(Next(rs, events[0]), events[1..], t);
    }
  }

  lemma OpenFillsDisbanded(rs: RaceState, t: TeamId) returns (events: seq<Event>)
    requires !Closed(rs, t)
    ensures AllFinishes(events) && !EmptyIfDisbanded(Run(rs, events).db, t)
  {
    hide Run;
    var team := rs.db.teams[t];
    if !EmptyIfDisbanded(rs.db, t) {
      events := [];
      RunOfNothing(rs);
    } else {
      var q :| q in rs.waiting && rs.waiting[q].ToJoin? && rs.waiting[q].team == t;
      if team.disbanded {
        events := [Finish(q, 0)];
        OneEvent(rs, Finish(q, 0));
      } else {
        var p :| p in rs.waiting && rs.waiting[p] == ToDisband(t);
        events := [Finish(p, 0), Finish(q, 0)];
        TwoEvents(rs, Finish(p, 0), Finish(q, 0));
      }
    }
  }

  /** In whatever order the waiting requests write, a disbanded team has no
      members exactly when nobody is about to join one that is disbanded or about
      to be. */
  lemma DisbandedStaysEmptyExactly(rs: RaceState, t: TeamId)
    ensures (forall events :: AllFinishes(events) ==> EmptyIfDisbanded(Run(rs, events).db, t)) <==> Closed(rs, t)
  {
    hide AllFinishes, Run, Next;
    if Closed(rs, t) {
      forall events | AllFinishes(events)
        ensures EmptyIfDisbanded(Run(rs, events).db, t)
      {
        FinishesKeepClosed(rs, events, t);
        assert Closed(Run(rs, events), t);
      }
    } else {
      var events := OpenFillsDisbanded(rs, t);
    }
  }
}
