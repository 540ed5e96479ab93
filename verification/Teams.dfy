/** Team membership (src/team/team.service.ts) and what withdrawing an account
    does to it (src/user/user.service.ts).  A request is one atomic step. */
module Teams {
  import opened Options

  type UserId = string
  type TeamId = string

  const MAX_TEAM_MEMBERS := 6
  const MAX_TEAMS_PER_USER := 3

  datatype Status = PENDING_VERIFICATION | ACTIVE | RESTRICTED | WITHDRAWN

  /** `members` holds when each member joined. */
  datatype Team = Team(leader: UserId, disbanded: bool, members: map<UserId, int>)

  datatype State = State(users: map<UserId, Status>, teams: map<TeamId, Team>)

  datatype Error =
    | AccountNotActive
    | TeamJoinLimitExceeded
    | InvalidInviteToken
    | TeamFull
    | AlreadyTeamMember
    | TeamNotFound
    | MemberNotFound
    | NotTeamMember
    | NotTeamLeader
    | LeaderMustTransferBeforeLeaving
    | UserNotFound
    | AccountWithdrawn

  datatype Reply = Reply(state: State, error: Option<Error>)

  // ---------------------------------------------------------------- what each request does

  predicate IsActiveUser(s: State, user: UserId) {
    user in s.users && s.users[user] == ACTIVE
  }

  predicate IsActiveTeam(s: State, team: TeamId) {
    team in s.teams && !s.teams[team].disbanded
  }

  function ActiveTeamsOf(s: State, user: UserId): set<TeamId> {
    set t | t in s.teams && !s.teams[t].disbanded && user in s.teams[t].members
  }

  predicate UnderTeamLimit(s: State, user: UserId) {
    |ActiveTeamsOf(s, user)| < MAX_TEAMS_PER_USER
  }

  function SetTeam(s: State, id: TeamId, team: Team): State {
    s.(teams := s.teams[id := team])
  }

  function CreateTeam(s: State, user: UserId, id: TeamId, now: int): Reply {
    if !IsActiveUser(s, user) then Reply(s, Some(AccountNotActive))
    else if !UnderTeamLimit(s, user) then Reply(s, Some(TeamJoinLimitExceeded))
    else Reply(SetTeam(s, id, Team(user, false, map[user := now])), None)
  }

  /** `invited` is the team the invite token belongs to. */
  function JoinTeam(s: State, user: UserId, invited: Option<TeamId>, now: int): Reply {
    if !IsActiveUser(s, user) then Reply(s, Some(AccountNotActive))
    else if invited == None || !IsActiveTeam(s, invited.value) then Reply(s, Some(InvalidInviteToken))
    else if !UnderTeamLimit(s, user) then Reply(s, Some(TeamJoinLimitExceeded))
    else
      var team := s.teams[invited.value];
      if |team.members| >= MAX_TEAM_MEMBERS then Reply(s, Some(TeamFull))
      else if user in team.members then Reply(s, Some(AlreadyTeamMember))
      else Reply(SetTeam(s, invited.value, team.(members := team.members[user := now])), None)
  }

  function RemoveMember(s: State, requester: UserId, id: TeamId, target: UserId): Reply {
    if !IsActiveTeam(s, id) then Reply(s, Some(TeamNotFound))
    else
      var team := s.teams[id];
      if requester !in team.members then Reply(s, Some(NotTeamMember))
      else if target == requester && team.leader == requester then Reply(s, Some(LeaderMustTransferBeforeLeaving))
      else if target != requester && team.leader != requester then Reply(s, Some(NotTeamLeader))
      else if target !in team.members then Reply(s, Some(MemberNotFound))
      else Reply(SetTeam(s, id, team.(members := team.members - {target})), None)
  }

  function TransferLeader(s: State, user: UserId, id: TeamId, newLeader: UserId): Reply {
    if !IsActiveTeam(s, id) then Reply(s, Some(TeamNotFound))
    else if s.teams[id].leader != user then Reply(s, Some(NotTeamLeader))
    else if newLeader !in s.teams[id].members then Reply(s, Some(MemberNotFound))
    else Reply(SetTeam(s, id, s.teams[id].(leader := newLeader)), None)
  }

  function DisbandTeam(s: State, user: UserId, id: TeamId): Reply {
    if !IsActiveTeam(s, id) then Reply(s, Some(TeamNotFound))
    else if s.teams[id].leader != user then Reply(s, Some(NotTeamLeader))
    else Reply(SetTeam(s, id, s.teams[id].(disbanded := true, members := map[])), None)
  }

  /** The member who joined first, other than `user`. */
  ghost predicate IsEarliestOther(next: UserId, members: map<UserId, int>, user: UserId) {
    && next in members && next != user
    && forall m :: m in members && m != user ==> members[next] <= members[m]
  }

  /** What one round of the withdrawal loop makes of a team the user leads. */
  ghost predicate HandedOver(before: Team, after: Team, user: UserId) {
    if exists m :: m in before.members && m != user
    then after == before.(leader := after.leader) && IsEarliestOther(after.leader, before.members, user)
    else after == before.(disbanded := true)
  }

  predicate Leads(team: Team, user: UserId) {
    team.leader == user && !team.disbanded
  }

  /** What withdrawing leaves of a team. */
  ghost predicate LeftBy(before: Team, after: Team, user: UserId) {
    exists between: Team ::
      && (if Leads(before, user) then HandedOver(before, between, user) else between == before)
      && after == between.(members := between.members - {user})
  }

  /** A withdrawal that goes through: a tie in joining times may go either way. */
  ghost predicate Withdraws(before: State, after: State, user: UserId) {
    && after.users == before.users[user := WITHDRAWN]
    && after.teams.Keys == before.teams.Keys
    && forall t :: t in before.teams ==> LeftBy(before.teams[t], after.teams[t], user)
  }

  function WithdrawError(s: State, user: UserId): Option<Error> {
    if user !in s.users then Some(UserNotFound)
    else if s.users[user] == WITHDRAWN then Some(AccountWithdrawn)
    else None
  }

  // ---------------------------------------------------------------- the service

  class TeamTables {
    var users: map<UserId, Status>
    var teams: map<TeamId, Team>

    constructor (s: State)
      ensures Db() == s
    {
      users, teams := s.users, s.teams;
    }

    function Db(): State
      reads this
    {
      State(users, teams)
    }

    method Create(user: UserId, id: TeamId, now: int) returns (error: Option<Error>)
      modifies this`teams
      ensures Reply(Db(), error) == CreateTeam(old(Db()), user, id, now)
    {
      if !IsActiveUser(Db(), user) {
        return Some(AccountNotActive);
      }
      if |ActiveTeamsOf(Db(), user)| >= MAX_TEAMS_PER_USER {
        return Some(TeamJoinLimitExceeded);
      }
      teams := teams[id := Team(user, false, map[user := now])];
      error := None;
    }

    method Join(user: UserId, invited: Option<TeamId>, now: int) returns (error: Option<Error>)
      modifies this`teams
      ensures Reply(Db(), error) == JoinTeam(old(Db()), user, invited, now)
    {
      if !IsActiveUser(Db(), user) {
        return Some(AccountNotActive);
      }
      if invited == None || !IsActiveTeam(Db(), invited.value) {
        return Some(InvalidInviteToken);
      }
      if |ActiveTeamsOf(Db(), user)| >= MAX_TEAMS_PER_USER {
        return Some(TeamJoinLimitExceeded);
      }
      var team := teams[invited.value];
      if |team.members| >= MAX_TEAM_MEMBERS {
        return Some(TeamFull);
      }
      if user in team.members {
        return Some(AlreadyTeamMember);
      }
      teams := teams[invited.value := team.(members := team.members[user := now])];
      error := None;
    }

    method Remove(requester: UserId, id: TeamId, target: UserId) returns (error: Option<Error>)
      modifies this`teams
      ensures Reply(Db(), error) == RemoveMember(old(Db()), requester, id, target)
    {
      if !IsActiveTeam(Db(), id) {
        return Some(TeamNotFound);
      }
      var team := teams[id];
      if requester !in team.members {
        return Some(NotTeamMember);
      }
      if target == requester {
        if team.leader == requester {
          return Some(LeaderMustTransferBeforeLeaving);
        }
      } else if team.leader != requester {
        return Some(NotTeamLeader);
      }
      if target !in team.members {
        return Some(MemberNotFound);
      }
      teams := teams[id := team.(members := team.members - {target})];
      error := None;
    }

    method Transfer(user: UserId, id: TeamId, newLeader: UserId) returns (error: Option<Error>)
      modifies this`teams
      ensures Reply(Db(), error) == TransferLeader(old(Db()), user, id, newLeader)
    {
      if !IsActiveTeam(Db(), id) {
        return Some(TeamNotFound);
      }
      if teams[id].leader != user {
        return Some(NotTeamLeader);
      }
      if newLeader !in teams[id].members {
        return Some(MemberNotFound);
      }
      teams := teams[id := teams[id].(leader := newLeader)];
      error := None;
    }

    method Disband(user: UserId, id: TeamId) returns (error: Option<Error>)
      modifies this`teams
      ensures Reply(Db(), error) == DisbandTeam(old(Db()), user, id)
    {
      if !IsActiveTeam(Db(), id) {
        return Some(TeamNotFound);
      }
      if teams[id].leader != user {
        return Some(NotTeamLeader);
      }
      teams := teams[id := teams[id].(disbanded := true)];
      teams := teams[id := teams[id].(members := map[])];
      error := None;
    }

    /** withdraw: hand over or disband every team the user leads, then delete
        the user's memberships. */
    method Withdraw(user: UserId) returns (error: Option<Error>)
      modifies this
      ensures error == WithdrawError(old(Db()), user)
      ensures error != None ==> Db() == old(Db())
      ensures error == None ==> Withdraws(old(Db()), Db(), user)
    {
      error := WithdrawError(Db(), user);
      if error != None {
        return;
      }
      ghost var before := teams;
      HandOverTeams(user);
      ghost var between := teams;
      teams := map t | t in teams :: teams[t].(members := teams[t].members - {user});
      users := users[user := WITHDRAWN];
      forall t | t in before
        ensures LeftBy(before[t], teams[t], user)
      {
        assert teams[t] == between[t].(members := between[t].members - {user});
      }
    }

    method HandOverTeams(user: UserId)
      modifies this`teams
      ensures teams.Keys == old(teams).Keys
      ensures forall t :: t in teams ==>
                if Leads(old(teams)[t], user) then HandedOver(old(teams)[t], teams[t], user)
                  else teams[t] == old(teams)[t]
    {
      hide HandedOver, IsEarliestOther;
      var ledTeams := set t | t in teams && Leads(teams[t], user);
      while ledTeams != {}
        invariant teams.Keys == old(teams).Keys
        invariant forall t :: t in ledTeams ==> t in teams && Leads(old(teams)[t], user) && teams[t] == old(teams)[t]
        invariant forall t :: t in teams && t !in ledTeams ==>
                    if Leads(old(teams)[t], user) then HandedOver(old(teams)[t], teams[t], user)
                    else teams[t] == old(teams)[t]
        decreases |ledTeams|
      {
        var id :| id in ledTeams;
        var team := teams[id];
        var nextLeader := FirstOther(team.members, user);
        var changed := if nextLeader.Some? then team.(leader := nextLeader.value) else team.(disbanded := true);
        HandOver(team, nextLeader, user);
        teams := teams[id := changed];
        ledTeams := ledTeams - {id};
      }
    }
  }

  lemma HandOver(team: Team, next: Option<UserId>, user: UserId)
    requires if next.Some? then IsEarliestOther(next.value, team.members, user)
             else forall m :: m in team.members ==> m == user
    ensures HandedOver(team, if next.Some? then team.(leader := next.value) else team.(disbanded := true), user)
  {
  }

  /** findFirst over the other members, earliest joined first. */
  method FirstOther(members: map<UserId, int>, user: UserId) returns (first: Option<UserId>)
    ensures if first.Some? then IsEarliestOther(first.value, members, user)
            else forall m :: m in members ==> m == user
  {
    var left := members.Keys - {user};
    first := None;
    while left != {}
      invariant left <= members.Keys - {user}
      invariant if first.Some?
                then && first.value in members && first.value != user
                     && forall m :: m in members && m != user && m !in left ==> members[first.value] <= members[m]
                else left == members.Keys - {user}
      decreases |left|
    {
      var m :| m in left;
      if first == None || members[m] < members[first.value] {
        first := Some(m);
      }
      left := left - {m};
    }
  }

  // ---------------------------------------------------------------- the invariant

  ghost predicate TeamIsFine(team: Team) {
    if team.disbanded then team.members == map[]
    else team.leader in team.members && 1 <= |team.members| <= MAX_TEAM_MEMBERS
  }

  ghost predicate Inv(s: State) {
    && (forall t :: t in s.teams ==> TeamIsFine(s.teams[t]))
    && (forall u :: |ActiveTeamsOf(s, u)| <= MAX_TEAMS_PER_USER)
    && (forall u :: u in s.users && s.users[u] == WITHDRAWN ==> ActiveTeamsOf(s, u) == {})
  }

  datatype Request =
    | Create(user: UserId, id: TeamId, now: int)
    | Join(user: UserId, invited: Option<TeamId>, now: int)
    | Remove(user: UserId, id: TeamId, target: UserId)
    | Transfer(user: UserId, id: TeamId, newLeader: UserId)
    | Disband(user: UserId, id: TeamId)
    | Withdraw(user: UserId)
    | ChangeStatus(user: UserId, status: Status)

  /** One request.  A new team's id is fresh; signing up, verifying, restricting
      and releasing an account never touch a withdrawn one. */
  ghost predicate Step(s: State, r: Request, after: State) {
    match r
    case Create(user, id, now) => id !in s.teams && after == CreateTeam(s, user, id, now).state
    case Join(user, invited, now) => after == JoinTeam(s, user, invited, now).state
    case Remove(user, id, target) => after == RemoveMember(s, user, id, target).state
    case Transfer(user, id, newLeader) => after == TransferLeader(s, user, id, newLeader).state
    case Disband(user, id) => after == DisbandTeam(s, user, id).state
    case Withdraw(user) => if WithdrawError(s, user) == None then Withdraws(s, after, user) else after == s
    case ChangeStatus(user, status) =>
      && (user in s.users ==> s.users[user] != WITHDRAWN)
      && status != WITHDRAWN && after == s.(users := s.users[user := status])
  }

  ghost predicate IsRun(states: seq<State>, requests: seq<Request>) {
    && |states| == |requests| + 1
    && forall i :: 0 <= i < |requests| ==> Step(states[i], requests[i], states[i + 1])
  }

  /** A change of one team in which only `joined` may gain a membership. */
  lemma OneTeamChanged(s: State, id: TeamId, team: Team, joined: Option<UserId>)
    requires Inv(s) && TeamIsFine(team)
    requires forall u :: u in team.members && !(id in s.teams && !s.teams[id].disbanded && u in s.teams[id].members) ==>
                 joined == Some(u) && UnderTeamLimit(s, u) && IsActiveUser(s, u)
    ensures Inv(SetTeam(s, id, team))
  {
    hide TeamIsFine;
    var after := SetTeam(s, id, team);
    forall u
      ensures |ActiveTeamsOf(after, u)| <= MAX_TEAMS_PER_USER
      ensures u in s.users && s.users[u] == WITHDRAWN ==> ActiveTeamsOf(after, u) == {}
    {
      if joined == Some(u) && UnderTeamLimit(s, u) && IsActiveUser(s, u) {
        assert ActiveTeamsOf(after, u) <= ActiveTeamsOf(s, u) + {id};
        SubsetIsSmaller(ActiveTeamsOf(after, u), ActiveTeamsOf(s, u) + {id});
      } else {
        assert ActiveTeamsOf(after, u) <= ActiveTeamsOf(s, u);
        SubsetIsSmaller(ActiveTeamsOf(after, u), ActiveTeamsOf(s, u));
      }
    }
  }

  lemma SubsetIsSmaller<T>(a: set<T>, b: set<T>)
    requires a <= b
    ensures |a| <= |b|
  {
    assert b == a + (b - a);
  }

  lemma CreateKeepsInv(s: State, user: UserId, id: TeamId, now: int)
    requires Inv(s) && id !in s.teams
    ensures Inv(CreateTeam(s, user, id, now).state)
  {
    hide Inv, ActiveTeamsOf;
    if IsActiveUser(s, user) && UnderTeamLimit(s, user) {
      OneTeamChanged(s, id, Team(user, false, map[user := now]), Some(user));
    }
  }

  lemma JoinKeepsInv(s: State, user: UserId, invited: Option<TeamId>, now: int)
    requires Inv(s)
    ensures Inv(JoinTeam(s, user, invited, now).state)
  {
    var reply := JoinTeam(s, user, invited, now);
    if reply.error == None {
      var team := s.teams[invited.value];
      assert TeamIsFine(team);
      hide Inv, ActiveTeamsOf;
      OneTeamChanged(s, invited.value, team.(members := team.members[user := now]), Some(user));
    }
  }

  lemma RemoveKeepsInv(s: State, user: UserId, id: TeamId, target: UserId)
    requires Inv(s)
    ensures Inv(RemoveMember(s, user, id, target).state)
  {
    var reply := RemoveMember(s, user, id, target);
    if reply.error == None {
      var team := s.teams[id];
      assert TeamIsFine(team);
      hide Inv, ActiveTeamsOf;
      var left := team.members - {target};
      assert team.leader in left;
      SubsetIsSmaller(left.Keys, team.members.Keys);
      assert |left| == |left.Keys| && |team.members| == |team.members.Keys|;
      assert left.Keys != {};
      OneTeamChanged(s, id, team.(members := left), None);
    }
  }

  lemma TransferKeepsInv(s: State, user: UserId, id: TeamId, newLeader: UserId)
    requires Inv(s)
    ensures Inv(TransferLeader(s, user, id, newLeader).state)
  {
    var reply := TransferLeader(s, user, id, newLeader);
    if reply.error == None {
      assert TeamIsFine(s.teams[id]);
      hide Inv, ActiveTeamsOf;
      OneTeamChanged(s, id, s.teams[id].(leader := newLeader), None);
    }
  }

  lemma DisbandKeepsInv(s: State, user: UserId, id: TeamId)
    requires Inv(s)
    ensures Inv(DisbandTeam(s, user, id).state)
  {
    hide Inv, ActiveTeamsOf;
    if DisbandTeam(s, user, id).error == None {
      OneTeamChanged(s, id, s.teams[id].(disbanded := true, members := map[]), None);
    }
  }

  /** A team the user leaves stays fine, and nobody joins it. */
  lemma LeavingKeepsTeamFine(before: Team, after: Team, user: UserId)
    requires TeamIsFine(before) && LeftBy(before, after, user)
    ensures TeamIsFine(after)
    ensures user !in after.members
    ensures forall u :: u in after.members ==> u in before.members && !before.disbanded
    ensures !after.disbanded ==> after.leader != user
  {
    assert after.members.Keys == before.members.Keys - {user};
    SubsetIsSmaller(after.members.Keys, before.members.Keys);
    assert |after.members| == |after.members.Keys| && |before.members| == |before.members.Keys|;
    if !after.disbanded {
      assert after.leader in after.members.Keys;
    }
  }

  lemma WithdrawKeepsInv(s: State, after: State, user: UserId)
    requires Inv(s) && Withdraws(s, after, user)
    ensures Inv(after)
    ensures ActiveTeamsOf(after, user) == {}
    ensures forall t :: t in after.teams ==> !Leads(after.teams[t], user)
  {
    hide LeftBy, TeamIsFine;
    forall t | t in after.teams
      ensures TeamIsFine(after.teams[t]) && user !in after.teams[t].members && !Leads(after.teams[t], user)
      ensures forall u :: u in after.teams[t].members ==> u in s.teams[t].members && !s.teams[t].disbanded
    {
      LeavingKeepsTeamFine(s.teams[t], after.teams[t], user);
    }
    forall u
      ensures ActiveTeamsOf(after, u) <= ActiveTeamsOf(s, u)
      ensures |ActiveTeamsOf(after, u)| <= MAX_TEAMS_PER_USER
    {
      assert forall t :: t in ActiveTeamsOf(after, u) ==> t in ActiveTeamsOf(s, u);
      SubsetIsSmaller(ActiveTeamsOf(after, u), ActiveTeamsOf(s, u));
    }
  }

  lemma ChangeStatusKeepsInv(s: State, user: UserId, status: Status)
    requires Inv(s) && status != WITHDRAWN
    ensures Inv(s.(users := s.users[user := status]))
  {
    var after := s.(users := s.users[user := status]);
    assert forall u :: ActiveTeamsOf(after, u) == ActiveTeamsOf(s, u);
  }

  /** Every request keeps the invariant. */
  lemma StepKeepsInvariant(s: State, r: Request, after: State)
    requires Inv(s) && Step(s, r, after)
    ensures Inv(after)
  {
    hide Inv, Withdraws, CreateTeam, JoinTeam, RemoveMember, TransferLeader, DisbandTeam;
    match r
    case Create(user, id, now) => CreateKeepsInv(s, user, id, now);
    case Join(user, invited, now) => JoinKeepsInv(s, user, invited, now);
    case Remove(user, id, target) => RemoveKeepsInv(s, user, id, target);
    case Transfer(user, id, newLeader) => TransferKeepsInv(s, user, id, newLeader);
    case Disband(user, id) => DisbandKeepsInv(s, user, id);
    case Withdraw(user) => if WithdrawError(s, user) == None { WithdrawKeepsInv(s, after, user); }
    case ChangeStatus(user, status) => ChangeStatusKeepsInv(s, user, status);
  }

  /** Over every run: active teams hold 1 to 6 members and their leader,
      disbanded ones nobody, and nobody is in more than 3. */
  lemma {:induction false} RunKeepsInvariant(states: seq<State>, requests: seq<Request>, i: nat)
    requires IsRun(states, requests) && i < |states| && Inv(states[0])
    ensures Inv(states[i])
  {
    if i > 0 {
      RunKeepsInvariant(states, requests, i - 1);
      hide Inv, Step;
      StepKeepsInvariant(states[i - 1], requests[i - 1], states[i]);
    }
  }

  // ---------------------------------------------------------------- who is let in, and what is refused

  /** A new team is led by the user who creates it, its only member; the user is
      active and in two teams at most. */
  lemma CreateExactly(s: State, user: UserId, id: TeamId, now: int)
    ensures var r, active := CreateTeam(s, user, id, now), user in s.users && s.users[user] == ACTIVE;
            && (r.error == None <==> active && |ActiveTeamsOf(s, user)| <= 2)
            && (r.error == Some(AccountNotActive) <==> !active)
            && (r.error == Some(TeamJoinLimitExceeded) <==> active && |ActiveTeamsOf(s, user)| >= 3)
            && r.state == if r.error == None then s.(teams := s.teams[id := Team(user, false, map[user := now])]) else s
  {
  }

  /** Joining takes an active user in two teams at most, an invitation to a team
      that is not disbanded, a sixth place or an earlier one, and no membership yet. */
  lemma JoinExactly(s: State, user: UserId, invited: Option<TeamId>, now: int)
    ensures var r, active := JoinTeam(s, user, invited, now), user in s.users && s.users[user] == ACTIVE;
            var valid := invited.Some? && invited.value in s.teams && !s.teams[invited.value].disbanded;
            var room := |ActiveTeamsOf(s, user)| <= 2;
            && (r.error == Some(AccountNotActive) <==> !active)
            && (r.error == Some(InvalidInviteToken) <==> active && !valid)
            && (r.error == Some(TeamJoinLimitExceeded) <==> active && valid && !room)
            && (active && valid && room ==>
                  var team := s.teams[invited.value];
                  && (r.error == Some(TeamFull) <==> |team.members| >= 6)
                  && (r.error == Some(AlreadyTeamMember) <==> |team.members| <= 5 && user in team.members)
                  && (r.error == None <==> |team.members| <= 5 && user !in team.members)
                  && (r.error == None ==>
                        r.state == s.(teams := s.teams[invited.value :=
                          Team(team.leader, false, team.members[user := now])])))
            && (r.error != None ==> r.state == s)
  {
    hide ActiveTeamsOf;
  }

  /** Members leave by themselves, unless they lead, and the leader puts others out. */
  lemma RemoveExactly(s: State, requester: UserId, id: TeamId, target: UserId)
    ensures var r := RemoveMember(s, requester, id, target);
            if id !in s.teams || s.teams[id].disbanded then r == Reply(s, Some(TeamNotFound))
            else
              var leader, members := s.teams[id].leader, s.teams[id].members;
              && (r.error == Some(NotTeamMember) <==> requester !in members)
              && (r.error == Some(LeaderMustTransferBeforeLeaving) <==>
                    requester in members && requester == target == leader)
              && (r.error == Some(NotTeamLeader) <==>
                    requester in members && requester != target && requester != leader)
              && (r.error == Some(MemberNotFound) <==>
                    requester in members && requester != target && requester == leader && target !in members)
              && (r.error == None <==>
                    && requester in members && target in members
                    && (requester == target) != (requester == leader))
              && (r.error != None ==> r.state == s)
              && (r.error == None ==>
                    r.state == s.(teams := s.teams[id :=
                      Team(leader, false, map m | m in members && m != target :: members[m])]))
  {
    if id in s.teams {
      var members := s.teams[id].members;
      assert members - {target} == map m | m in members && m != target :: members[m];
    }
  }

  /** The leader hands the team to a member, or ends it. */
  lemma LeaderRequestsExactly(s: State, user: UserId, id: TeamId, newLeader: UserId)
    ensures var t, d := TransferLeader(s, user, id, newLeader), DisbandTeam(s, user, id);
            if id !in s.teams || s.teams[id].disbanded then t == d == Reply(s, Some(TeamNotFound))
            else if user != s.teams[id].leader then t == d == Reply(s, Some(NotTeamLeader))
            else
              var members := s.teams[id].members;
              && t == (if newLeader in members
                       then Reply(s.(teams := s.teams[id := Team(newLeader, false, members)]), None)
                       else Reply(s, Some(MemberNotFound)))
              && d == Reply(s.(teams := s.teams[id := Team(user, true, map[])]), None)
  {
  }

  /** Signing up, verifying, restricting and releasing change the status of one
      account that is not withdrawn, and no team. */
  lemma StatusChangesAlone(s: State, user: UserId, status: Status, after: State)
    requires Step(s, ChangeStatus(user, status), after)
    ensures user in after.users && after.users[user] == status && status != WITHDRAWN
    ensures user in s.users ==> s.users[user] != WITHDRAWN
    ensures after.teams == s.teams && forall u :: u != user ==> (u in after.users <==> u in s.users)
    ensures forall u :: u in s.users && u != user ==> after.users[u] == s.users[u]
  {
  }

  /** An account is withdrawn once. */
  lemma WithdrawRefusedExactly(s: State, user: UserId)
    ensures WithdrawError(s, user) == Some(UserNotFound) <==> user !in s.users
    ensures WithdrawError(s, user) == Some(AccountWithdrawn) <==> user in s.users && s.users[user] == WITHDRAWN
    ensures WithdrawError(s, user) == None <==> user in s.users && s.users[user] != WITHDRAWN
  {
  }

  /** Whoever is registered, from before the first team on. */
  lemma TeamsKeepTheirLimits(states: seq<State>, requests: seq<Request>, i: nat, user: UserId)
    requires IsRun(states, requests) && i < |states|
    requires states[0].teams == map[]
    ensures forall t :: t in states[i].teams && !states[i].teams[t].disbanded ==>
              && 1 <= |states[i].teams[t].members| <= 6
              && states[i].teams[t].leader in states[i].teams[t].members
    ensures |set t | t in states[i].teams && !states[i].teams[t].disbanded && user in states[i].teams[t].members| <= 3
    ensures forall t, u :: t in states[i].teams && u in states[i].teams[t].members && u in states[i].users ==>
              states[i].users[u] != WITHDRAWN
  {
    assert forall u :: ActiveTeamsOf(states[0], u) == {};
    RunKeepsInvariant(states, requests, i);
    assert ActiveTeamsOf(states[i], user)
        == set t | t in states[i].teams && !states[i].teams[t].disbanded && user in states[i].teams[t].members;
    forall t, u | t in states[i].teams && u in states[i].teams[t].members && u in states[i].users
      ensures states[i].users[u] != WITHDRAWN
    {
      assert TeamIsFine(states[i].teams[t]) && t in ActiveTeamsOf(states[i], u);
    }
  }

  lemma WithdrawnStays(s: State, r: Request, after: State, user: UserId)
    requires Step(s, r, after) && user in s.users && s.users[user] == WITHDRAWN
    ensures user in after.users && after.users[user] == WITHDRAWN
  {
    hide ActiveTeamsOf, LeftBy;
  }

  /** Whoever withdrew leads no team and is in none, ever after. */
  lemma {:induction false} WithdrawnNeverReturns(states: seq<State>, requests: seq<Request>, i: nat, j: nat,
                                                user: UserId)
    requires IsRun(states, requests) && i <= j < |states| && Inv(states[0])
    requires user in states[i].users && states[i].users[user] == WITHDRAWN
    ensures user in states[j].users && states[j].users[user] == WITHDRAWN
    ensures forall t :: t in states[j].teams ==>
              user !in states[j].teams[t].members && !Leads(states[j].teams[t], user)
    decreases j - i
  {
    hide Step;
    if i < j {
      WithdrawnNeverReturns(states, requests, i, j - 1, user);
      WithdrawnStays(states[j - 1], requests[j - 1], states[j], user);
    }
    RunKeepsInvariant(states, requests, j);
    forall t | t in states[j].teams
      ensures user !in states[j].teams[t].members && !Leads(states[j].teams[t], user)
    {
      assert TeamIsFine(states[j].teams[t]);
      assert t !in ActiveTeamsOf(states[j], user);
    }
  }

  /** A withdrawing leader is followed by the member who joined first; a team of
      one is disbanded; the other members, and other teams' leaders, stay. */
  lemma WithdrawalSuccession(s: State, after: State, user: UserId, t: TeamId)
    requires Inv(s) && Withdraws(s, after, user) && t in s.teams
    ensures after.teams[t].members == s.teams[t].members - {user}
    ensures Leads(s.teams[t], user) ==>
              if s.teams[t].members.Keys == {user} then after.teams[t].disbanded
              else
                var members, next := s.teams[t].members, after.teams[t].leader;
                && !after.teams[t].disbanded && next in members && next != user
                && forall m :: m in members && m != user ==> members[next] <= members[m]
    ensures !Leads(s.teams[t], user) ==>
              after.teams[t].leader == s.teams[t].leader && after.teams[t].disbanded == s.teams[t].disbanded
    ensures after.users == s.users[user := WITHDRAWN] && after.teams.Keys == s.teams.Keys
  {
    assert TeamIsFine(s.teams[t]) && LeftBy(s.teams[t], after.teams[t], user);
    hide Inv, Withdraws, ActiveTeamsOf, TeamIsFine, LeftBy;
    TeamSuccession(s.teams[t], after.teams[t], user);
  }

  lemma TeamSuccession(before: Team, after: Team, user: UserId)
    requires TeamIsFine(before) && LeftBy(before, after, user)
    ensures after.members == before.members - {user}
    ensures Leads(before, user) ==>
              if before.members.Keys == {user} then after.disbanded
              else !after.disbanded && IsEarliestOther(after.leader, before.members, user)
    ensures !Leads(before, user) ==> after.leader == before.leader && after.disbanded == before.disbanded
  {
    if Leads(before, user) && before.members.Keys != {user} {
      assert user in before.members.Keys;
      var m :| m in before.members.Keys && m != user;
    }
  }

  /** What a request may do to one membership: it begins by the user's own
      request and ends by the user's or the leader's. */
  ghost predicate ChangesByRight(s: State, r: Request, after: State, t: TeamId, u: UserId)
    requires t in after.teams
  {
    && (u in after.teams[t].members && !(t in s.teams && u in s.teams[t].members) ==>
          r.user == u && (r.Create? || r.Join?) && IsActiveUser(s, u))
    && (t in s.teams && u in s.teams[t].members && u !in after.teams[t].members ==>
          && (r.user == u || (r.user == s.teams[t].leader && !r.Withdraw?))
          && (u == s.teams[t].leader ==> r.Disband? || r.Withdraw?))
  }

  lemma WithdrawChangesByRight(s: State, user: UserId, after: State, t: TeamId, u: UserId)
    requires Inv(s) && Withdraws(s, after, user) && t in after.teams
    ensures ChangesByRight(s, Withdraw(user), after, t, u)
  {
    WithdrawalSuccession(s, after, user, t);
  }

  lemma JoinsByRight(s: State, r: Request, after: State, t: TeamId, u: UserId)
    requires Step(s, r, after) && t in after.teams && (r.Create? || r.Join?)
    ensures ChangesByRight(s, r, after, t, u)
  {
    hide ActiveTeamsOf, UnderTeamLimit;
  }

  lemma LeavesByRight(s: State, r: Request, after: State, t: TeamId, u: UserId)
    requires t in s.teams ==> TeamIsFine(s.teams[t])
    requires Step(s, r, after) && t in after.teams && (r.Remove? || r.Transfer? || r.Disband?)
    ensures ChangesByRight(s, r, after, t, u)
  {
    hide ActiveTeamsOf, UnderTeamLimit, CreateTeam, JoinTeam, Withdraws;
  }

  /** Nobody is made to join a team, and nobody is put out of one but by its leader. */
  lemma MembershipsChangeByRight(s: State, r: Request, after: State, t: TeamId, u: UserId)
    requires Inv(s) && Step(s, r, after) && t in after.teams
    ensures ChangesByRight(s, r, after, t, u)
  {
    assert t in s.teams ==> TeamIsFine(s.teams[t]);
    hide Inv, ActiveTeamsOf, Withdraws, JoinTeam, CreateTeam, RemoveMember, TransferLeader, DisbandTeam, TeamIsFine;
    match r
    case Withdraw(user) => if WithdrawError(s, user) == None { WithdrawChangesByRight(s, user, after, t, u); }
    case ChangeStatus(_, _) =>
    case Create(_, _, _) => JoinsByRight(s, r, after, t, u);
    case Join(_, _, _) => JoinsByRight(s, r, after, t, u);
    case _ => LeavesByRight(s, r, after, t, u);
  }

  /** Only a leader gives the leadership away, by transfer or by withdrawing. */
  lemma LeadershipChangesByRight(s: State, r: Request, after: State, t: TeamId)
    requires Inv(s) && Step(s, r, after) && t in s.teams
    ensures t in after.teams
    ensures after.teams[t].leader != s.teams[t].leader || after.teams[t].disbanded != s.teams[t].disbanded ==>
              r.user == s.teams[t].leader && (r.Transfer? || r.Disband? || r.Withdraw?)
  {
    if r.Withdraw? && WithdrawError(s, r.user) == None {
      WithdrawalSuccession(s, after, r.user, t);
    }
    hide Inv, ActiveTeamsOf, UnderTeamLimit, HandedOver, LeftBy, IsEarliestOther;
  }
}
