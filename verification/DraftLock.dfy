/** The optimistic lock on one survey row: `updateDraft`, `publish`, `moveToTeam`
    and `deleteDraft` of src/survey/survey.service.ts, FormMate's apply and title
    update (src/survey/formmate/formmate.service.ts), close and archive
    (src/mypage/mypage.service.ts), remove and restore
    (src/admin/admin-surveys.service.ts), team disbanding and withdrawal.
    `Q` is the stored question list, which the lock never looks into. */
module DraftLock {
  import opened Options

  datatype Status = DRAFT | RECRUITING | CLOSED | ARCHIVED | REMOVED

  datatype Owner = USER(id: string) | TEAM(id: string)

  datatype Row<Q> = Row(
    status: Status, version: int, owner: Owner, title: string, questions: Q, publishedAt: Option<int>)

  /** A request after its read: `seen` is the row it read, `sent` the version the
      client sent, and `compute` the new questions it derives from the ones it
      read (None when it rejects them inside its transaction). */
  datatype Request<!Q> =
    | Edit(sent: int, seen: Row<Q>, newTitle: Option<string>, compute: Q -> Option<Q>)
    | Retitle(seen: Row<Q>, title: string)
    | Publish(seen: Row<Q>)
    | MoveToTeam(seen: Row<Q>, teamId: string)
    | Delete(seen: Row<Q>)
    | Remove(seen: Row<Q>)
    | Restore(seen: Row<Q>, deadlinePassed: bool)

  function Bump<Q>(row: Row<Q>): Row<Q> {
    row.(version := row.version + 1)
  }

  /** The checks a request makes on the row it reads. */
  predicate Admits<Q>(r: Request<Q>) {
    match r
    case Remove(seen) => seen.status != REMOVED
    case Restore(seen, _) => seen.status == REMOVED
    case _ => r.seen.status == DRAFT
  }

  /** What committing a request does to the row. */
  function Commit<Q>(row: Option<Row<Q>>, r: Request<Q>, now: int): Option<Row<Q>> {
    if row == None then None
    else
      var current := row.value;
      match r
      case Edit(sent, seen, newTitle, compute) =>
        if current.version != sent || compute(seen.questions) == None then row
        else Some(Bump(current).(title := if newTitle == None then current.title else newTitle.value,
                                 questions := compute(seen.questions).value))
      case Retitle(seen, title) =>
        if current.version != seen.version then row else Some(Bump(current).(title := title))
      case Publish(_) =>
        if current.status != DRAFT then row else Some(Bump(current).(status := RECRUITING, publishedAt := Some(now)))
      case MoveToTeam(_, teamId) => Some(Bump(current).(owner := TEAM(teamId)))
      case Delete(_) => None
      case Remove(seen) =>
        if current.status != seen.status then row else Some(Bump(current).(status := REMOVED))
      case Restore(_, deadlinePassed) =>
        if current.status != REMOVED then row
        else Some(Bump(current).(status := if deadlinePassed then CLOSED else RECRUITING))
  }

  /** Updates guarded by the status alone, in one statement. */
  datatype Update =
    | Close
    | Archive
    | Unarchive
    | Disband(teamId: string, leaderId: string)
    | Withdraw(userId: string)
    | DropTeamDraft(teamId: string)

  function Apply<Q>(row: Option<Row<Q>>, u: Update): Option<Row<Q>> {
    if row == None then None
    else
      var current := row.value;
      match u
      case Close => if current.status == RECRUITING then Some(Bump(current).(status := CLOSED)) else row
      case Archive => if current.status == CLOSED then Some(Bump(current).(status := ARCHIVED)) else row
      case Unarchive => if current.status == ARCHIVED then Some(Bump(current).(status := CLOSED)) else row
      case Disband(teamId, leaderId) =>
        if current.owner == TEAM(teamId) && current.status == DRAFT
        then Some(Bump(current).(owner := USER(leaderId))) else row
      case Withdraw(userId) =>
        if current.owner != USER(userId) then row
        else if current.status == RECRUITING then Some(Bump(current).(status := CLOSED))
        else if current.status == DRAFT then None
        else row
      case DropTeamDraft(teamId) => if current.owner == TEAM(teamId) && current.status == DRAFT then None else row
  }

  /** The row, written column by column. */
  class SurveyRow<Q> {
    var exists_: bool
    var status: Status
    var version: int
    var owner: Owner
    var title: string
    var questions: Q
    var publishedAt: Option<int>

    constructor (row: Row<Q>)
      ensures Stored() == Some(row)
    {
      exists_, status, version, owner := true, row.status, row.version, row.owner;
      title, questions, publishedAt := row.title, row.questions, row.publishedAt;
    }

    ghost function Stored(): Option<Row<Q>>
      reads this
    {
      if exists_ then Some(Row(status, version, owner, title, questions, publishedAt)) else None
    }

    /** The transaction of `updateDraft` and of FormMate's apply: the version
        guard comes first, and a rejected question list rolls it back. */
    method CommitEdit(sent: int, seen: Row<Q>, newTitle: Option<string>, compute: Q -> Option<Q>)
      returns (committed: bool)
      modifies this
      ensures Stored() == Commit(old(Stored()), Edit(sent, seen, newTitle, compute), 0)
      ensures committed <==> old(exists_ && version == sent) && compute(seen.questions).Some?
      ensures committed ==>
                && title == newTitle.GetOr(old(title)) && questions == compute(seen.questions).value
                && version == old(version) + 1 && status == old(status) && owner == old(owner)
                && publishedAt == old(publishedAt)
    {
      if !exists_ || version != sent {
        return false;
      }
      var titleBefore := title;
      version := version + 1;
      if newTitle.Some? {
        title := newTitle.value;
      }
      match compute(seen.questions) {
        case None =>
          version, title := version - 1, titleBefore;
          return false;
        case Some(replaced) =>
          questions := replaced;
      }
      committed := true;
    }

    method CommitPublish(seen: Row<Q>, now: int) returns (committed: bool)
      modifies this
      ensures Stored() == Commit(old(Stored()), Publish(seen), now)
      ensures committed <==> old(exists_ && status == DRAFT)
    {
      committed := exists_ && status == DRAFT;
      if committed {
        status, publishedAt, version := RECRUITING, Some(now), version + 1;
      }
    }

    method CommitMoveToTeam(seen: Row<Q>, teamId: string)
      modifies this
      ensures Stored() == Commit(old(Stored()), MoveToTeam(seen, teamId), 0)
    {
      if exists_ {
        owner, version := TEAM(teamId), version + 1;
      }
    }

    method CloseSurvey() returns (closed: bool)
      modifies this
      ensures Stored() == Apply(old(Stored()), Close)
      ensures closed <==> old(exists_ && status == RECRUITING)
    {
      closed := exists_ && status == RECRUITING;
      if closed {
        status, version := CLOSED, version + 1;
      }
    }

    method ArchiveSurvey(archived: bool) returns (changed: bool)
      modifies this
      ensures Stored() == Apply(old(Stored()), if archived then Archive else Unarchive)
    {
      var fromStatus := if archived then CLOSED else ARCHIVED;
      var toStatus := if archived then ARCHIVED else CLOSED;
      changed := exists_ && status == fromStatus;
      if changed {
        status, version := toStatus, version + 1;
      }
    }
  }

  // ---------------------------------------------------------------- interleavings

  /** Requests get numbers of their own, in the order they read. */
  datatype State<!Q> = State(row: Option<Row<Q>>, pending: map<nat, Request<Q>>, next: nat)

  datatype Event<!Q> =
    | Read(r: Request<Q>)
    | Finish(id: nat, now: int)
    | Direct(u: Update)

  ghost function Next<Q(!new)>(s: State<Q>, e: Event<Q>): State<Q> {
    match e
    case Read(r) =>
      if s.row == Some(r.seen) && Admits(r) then State(s.row, s.pending[s.next := r], s.next + 1) else s
    case Finish(id, now) =>
      if id in s.pending then State(Commit(s.row, s.pending[id], now), s.pending - {id}, s.next) else s
    case Direct(u) => s.(row := Apply(s.row, u))
  }

  ghost function Run<Q(!new)>(s: State<Q>, events: seq<Event<Q>>): State<Q>
    decreases |events|
  {
    if events == [] then s else Run(Next(s, events[0]), events[1..])
  }

  /** The client sends only versions it has observed, none from the future. */
  ghost predicate Observed<Q(!new)>(e: Event<Q>) {
    e.Read? && e.r.Edit? ==> e.r.sent <= e.r.seen.version
  }

  /** What a request read is the present row, or an older version of it. */
  ghost predicate Fresh<Q(!new)>(row: Option<Row<Q>>, r: Request<Q>) {
    && Admits(r)
    && (row != None ==>
         r.seen.version <= row.value.version && (r.seen.version == row.value.version ==> row.value == r.seen))
  }

  ghost predicate Inv<Q(!new)>(s: State<Q>) {
    forall id :: id in s.pending ==> id < s.next && Fresh(s.row, s.pending[id])
  }

  ghost predicate AllObserved<Q(!new)>(s: State<Q>) {
    forall id :: id in s.pending && s.pending[id].Edit? ==> s.pending[id].sent <= s.pending[id].seen.version
  }

  /** Every write moves the version on by one; a deleted row stays deleted. */
  lemma EveryWriteBumps<Q(!new)>(s: State<Q>, e: Event<Q>)
    ensures var t := Next(s, e);
            t.row == s.row || t.row == None || (s.row != None && t.row.value.version == s.row.value.version + 1)
  {
  }

  lemma StepKeepsInvariant<Q(!new)>(s: State<Q>, e: Event<Q>)
    requires Inv(s)
    ensures Inv(Next(s, e))
    ensures AllObserved(s) && Observed(e) ==> AllObserved(Next(s, e))
  {
    hide Commit, Apply;
    EveryWriteBumps(s, e);
    var t := Next(s, e);
    forall id | id in t.pending
      ensures id < t.next && Fresh(t.row, t.pending[id])
    {
      assert id in s.pending && t.pending[id] == s.pending[id] ==> Fresh(s.row, s.pending[id]);
    }
  }

  lemma {:induction false} RunKeepsInvariant<Q(!new)>(s: State<Q>, events: seq<Event<Q>>)
    requires Inv(s) && AllObserved(s) && forall e :: e in events ==> Observed(e)
    ensures Inv(Run(s, events)) && AllObserved(Run(s, events))
    decreases |events|
  {
    hide Inv, AllObserved, Observed, Next;
    if events != [] {
      StepKeepsInvariant(s, events[0]);
      RunKeepsInvariant(Next(s, events[0]), events[1..]);
    }
  }

  // ---------------------------------------------------------------- what a write leaves

  /** An edit goes through exactly when the version is the one its client sent and
      its questions are accepted; it stores the new title, if there is one, and
      these questions, and nothing else. */
  lemma EditWritesExactly<Q(!new)>(s: State<Q>, id: nat, now: int)
    requires id in s.pending && s.pending[id].Edit? && s.row != None
    ensures var r, row, after := s.pending[id], s.row.value, Next(s, Finish(id, now)).row;
            && (after != s.row <==> row.version == r.sent && r.compute(r.seen.questions) != None)
            && (after != s.row ==>
                  after == Some(Row(row.status, row.version + 1, row.owner,
                                    match r.newTitle case Some(title) => title case None => row.title,
                                    r.compute(r.seen.questions).value, row.publishedAt)))
  {
    var r, row := s.pending[id], s.row.value;
    if row.version == r.sent && r.compute(r.seen.questions) != None {
      assert Next(s, Finish(id, now)).row.value.version == row.version + 1;
    }
  }

  /** A new title from FormMate is stored exactly when nothing was written since. */
  lemma RetitleWritesExactly<Q(!new)>(s: State<Q>, id: nat, now: int)
    requires id in s.pending && s.pending[id].Retitle? && s.row != None
    ensures var r, row, after := s.pending[id], s.row.value, Next(s, Finish(id, now)).row;
            after == if row.version == r.seen.version
                     then Some(Row(row.status, row.version + 1, row.owner, r.title, row.questions, row.publishedAt))
                     else s.row
  {
  }

  /** What the other requests leave: publishing dates a draft, moving changes its
      owner, deleting leaves nothing, removing and restoring change the status. */
  lemma StatusRequestsWrite<Q(!new)>(s: State<Q>, id: nat, now: int)
    requires id in s.pending && s.row != None && !s.pending[id].Edit? && !s.pending[id].Retitle?
    ensures var r, row, after := s.pending[id], s.row.value, Next(s, Finish(id, now)).row;
            match r
            case Publish(_) =>
              after == if row.status == DRAFT
                       then Some(Row(RECRUITING, row.version + 1, row.owner, row.title, row.questions, Some(now)))
                       else s.row
            case MoveToTeam(_, teamId) =>
              after == Some(Row(row.status, row.version + 1, TEAM(teamId), row.title, row.questions, row.publishedAt))
            case Delete(_) => after == None
            case Remove(seen) =>
              after == if row.status == seen.status
                       then Some(Row(REMOVED, row.version + 1, row.owner, row.title, row.questions, row.publishedAt))
                       else s.row
            case Restore(_, deadlinePassed) =>
              after == if row.status != REMOVED then s.row
                       else if deadlinePassed
                       then Some(Row(CLOSED, row.version + 1, row.owner, row.title, row.questions, row.publishedAt))
                       else Some(Row(RECRUITING, row.version + 1, row.owner, row.title, row.questions, row.publishedAt))
            case _ => true
  {
  }

  /** A request gets under way exactly when it reads the present row in the status
      it asks for: a draft, or for an admin any survey not removed, or one removed. */
  lemma ReadsAreAdmitted<Q(!new)>(s: State<Q>, r: Request<Q>)
    ensures var fits := s.row == Some(r.seen)
                        && (if r.Remove? then r.seen.status != REMOVED
                            else if r.Restore? then r.seen.status == REMOVED
                            else r.seen.status == DRAFT);
            Next(s, Read(r)) == if fits then State(s.row, s.pending[s.next := r], s.next + 1) else s
  {
  }

  /** The status each direct update leaves; None is a deleted row. */
  lemma UpdatesLeaveStatus<Q(!new)>(s: State<Q>, u: Update)
    requires s.row != None
    ensures var row, after := s.row.value, Next(s, Direct(u)).row;
            match u
            case Close =>
              after.Some? && after.value.status == (if row.status == RECRUITING then CLOSED else row.status)
            case Archive =>
              after.Some? && after.value.status == (if row.status == CLOSED then ARCHIVED else row.status)
            case Unarchive =>
              after.Some? && after.value.status == (if row.status == ARCHIVED then CLOSED else row.status)
            case Disband(teamId, leaderId) =>
              && after.Some? && after.value.status == row.status
              && after.value.owner
                 == (if row.owner == TEAM(teamId) && row.status == DRAFT then USER(leaderId) else row.owner)
            case Withdraw(userId) =>
              if row.owner == USER(userId) && row.status == DRAFT then after == None
              else
                && after.Some?
                && after.value.status
                   == (if row.owner == USER(userId) && row.status == RECRUITING then CLOSED else row.status)
            case DropTeamDraft(teamId) =>
              after == if row.owner == TEAM(teamId) && row.status == DRAFT then None else s.row
    ensures var after := Next(s, Direct(u)).row;
            after != None ==>
              && after.value.title == s.row.value.title && after.value.questions == s.row.value.questions
              && after.value.publishedAt == s.row.value.publishedAt
              && (!u.Disband? ==> after.value.owner == s.row.value.owner)
  {
  }

  /** So no recruiting survey and no draft is left to an account that withdrew. */
  lemma WithdrawalClosesSurveys<Q(!new)>(s: State<Q>, userId: string)
    ensures var after := Next(s, Direct(Withdraw(userId))).row;
            after != None && after.value.owner == USER(userId) ==>
              after.value.status != RECRUITING && after.value.status != DRAFT
  {
    if s.row != None {
      UpdatesLeaveStatus(s, Withdraw(userId));
    }
  }

  // ---------------------------------------------------------------- no lost update

  /** A committed edit was computed from exactly the row it overwrites: whatever
      else ran meanwhile, its client had the current draft before its eyes. */
  lemma NoLostUpdate<Q(!new)>(s: State<Q>, id: nat, now: int)
    requires Inv(s) && AllObserved(s)
    requires id in s.pending && (s.pending[id].Edit? || s.pending[id].Retitle?)
    requires Next(s, Finish(id, now)).row != s.row
    ensures s.row == Some(s.pending[id].seen) && s.pending[id].seen.status == DRAFT
    ensures s.pending[id].Edit? ==> s.pending[id].sent == s.pending[id].seen.version
  {
    assert Fresh(s.row, s.pending[id]);
  }

  /** A survey that is no longer a draft never becomes one again, and its title
      and questions never change. */
  ghost predicate Frozen<Q(!new)>(before: Option<Row<Q>>, after: Option<Row<Q>>) {
    after == None
    || (before != None && (before.value.status != DRAFT ==>
          && after.value.status != DRAFT
          && after.value.title == before.value.title && after.value.questions == before.value.questions))
  }

  lemma StepFreezes<Q(!new)>(s: State<Q>, e: Event<Q>)
    requires Inv(s) && AllObserved(s)
    ensures Frozen(s.row, Next(s, e).row)
  {
    if e.Finish? && e.id in s.pending {
      assert Fresh(s.row, s.pending[e.id]);
    }
  }

  lemma {:induction false} PublishedQuestionsAreFrozen<Q(!new)>(s: State<Q>, events: seq<Event<Q>>)
    requires Inv(s) && AllObserved(s) && forall e :: e in events ==> Observed(e)
    ensures Frozen(s.row, Run(s, events).row)
    decreases |events|
  {
    hide Inv, AllObserved, Observed, Next;
    if events != [] {
      StepKeepsInvariant(s, events[0]);
      StepFreezes(s, events[0]);
      PublishedQuestionsAreFrozen(Next(s, events[0]), events[1..]);
    }
  }

  // ---------------------------------------------------------------- the life of a survey

  /** The steps a survey's status may take; DRAFT is never entered again. */
  predicate Lifecycle(before: Status, after: Status) {
    before == after || after == REMOVED
    || match before
       case DRAFT => after == RECRUITING
       case RECRUITING => after == CLOSED
       case CLOSED => after == ARCHIVED
       case ARCHIVED => after == CLOSED
       case REMOVED => after == RECRUITING || after == CLOSED
  }

  /** Whatever requests do, even with guessed versions, the status moves along
      its life cycle, and only publishing a draft sets a publication time. */
  lemma StatusFollowsLifecycle<Q(!new)>(s: State<Q>, e: Event<Q>)
    ensures var row := Next(s, e).row;
            s.row != None && row != None ==>
              && Lifecycle(s.row.value.status, row.value.status)
              && (row.value.publishedAt != s.row.value.publishedAt ==>
                    && e.Finish? && s.row.value.status == DRAFT && row.value.status == RECRUITING
                    && row.value.publishedAt == Some(e.now))
              && (s.row.value.status == DRAFT && row.value.status == RECRUITING ==> row.value.publishedAt != None)
    ensures s.row == None ==> Next(s, e).row == None
  {
  }

  /** Once a survey is out of DRAFT its place in the list is fixed: no run
      changes its publication time. */
  lemma {:induction false} PublicationTimeStands<Q(!new)>(s: State<Q>, events: seq<Event<Q>>)
    requires s.row != None && s.row.value.status != DRAFT
    ensures var row := Run(s, events).row;
            row == None || (row.value.status != DRAFT && row.value.publishedAt == s.row.value.publishedAt)
    decreases |events|
  {
    hide Next;
    if events != [] {
      StatusFollowsLifecycle(s, events[0]);
      if Next(s, events[0]).row != None {
        PublicationTimeStands(Next(s, events[0]), events[1..]);
      } else {
        DeletedStays(Next(s, events[0]), events[1..]);
      }
    }
  }

  lemma {:induction false} DeletedStays<Q(!new)>(s: State<Q>, events: seq<Event<Q>>)
    requires s.row == None
    ensures Run(s, events).row == None
    decreases |events|
  {
    hide Next;
    if events != [] {
      StatusFollowsLifecycle(s, events[0]);
      DeletedStays(Next(s, events[0]), events[1..]);
    }
  }

  // ---------------------------------------------------------------- guessed versions

  /** Request `id` can now be committed although the survey has left DRAFT. */
  ghost predicate LandsOnPublished<Q(!new)>(s: State<Q>, id: nat) {
    && id in s.pending && s.pending[id].Edit?
    && s.row != None && s.row.value.status != DRAFT && s.row.value.version == s.pending[id].sent
  }

  lemma {:induction false} RunOfConcat<Q(!new)>(s: State<Q>, a: seq<Event<Q>>, b: seq<Event<Q>>)
    ensures Run(s, a + b) == Run(Run(s, a), b)
    decreases |a|
  {
    hide Next;
    if a == [] {
      assert a + b == b;
    } else {
      assert (a + b)[0] == a[0] && (a + b)[1..] == a[1..] + b;
      RunOfConcat(Next(s, a[0]), a[1..], b);
    }
  }

  lemma RunOfOne<Q(!new)>(s: State<Q>, e: Event<Q>)
    ensures Run(s, [e]) == Next(s, e)
  {
    hide Next;
    assert [e][1..] == [];
    assert Run(Next(s, e), []) == Next(s, e);
  }

  lemma OneMoreEvent<Q(!new)>(s: State<Q>, events: seq<Event<Q>>, e: Event<Q>)
    ensures Run(s, events + [e]) == Next(Run(s, events), e)
  {
    RunOfConcat(s, events, [e]);
    RunOfOne(Run(s, events), e);
  }

  lemma RemoveSteps<Q(!new)>(s: State<Q>, id: nat)
    requires id in s.pending && id < s.next && s.row != None && s.row.value.status == DRAFT
    ensures var t := Next(Next(s, Read(Remove(s.row.value))), Finish(s.next, 0));
            && id in t.pending && t.pending[id] == s.pending[id] && id < t.next
            && t.row == Some(Bump(s.row.value).(status := REMOVED))
  {
    var mid := Next(s, Read(Remove(s.row.value)));
    assert mid.pending[s.next] == Remove(s.row.value) && mid.row == s.row;
  }

  lemma RestoreSteps<Q(!new)>(s: State<Q>, id: nat)
    requires id in s.pending && id < s.next && s.row != None && s.row.value.status == REMOVED
    ensures var t := Next(Next(s, Read(Restore(s.row.value, true))), Finish(s.next, 0));
            && id in t.pending && t.pending[id] == s.pending[id] && id < t.next
            && t.row == Some(Bump(s.row.value).(status := CLOSED))
  {
    var mid := Next(s, Read(Restore(s.row.value, true)));
    assert mid.pending[s.next] == Restore(s.row.value, true) && mid.row == s.row;
  }

  /** A run that takes the row out of DRAFT and on by `ahead` versions. */
  lemma {:induction false} OutrunVersion<Q(!new)>(s: State<Q>, id: nat, ahead: nat) returns (events: seq<Event<Q>>)
    requires id in s.pending && id < s.next && s.row != None && s.row.value.status == DRAFT && ahead >= 1
    ensures var t := Run(s, events);
            && id in t.pending && t.pending[id] == s.pending[id] && id < t.next
            && t.row != None && t.row.value.version == s.row.value.version + ahead
            && t.row.value.status == (if ahead == 1 then REMOVED else if ahead % 2 == 0 then CLOSED else ARCHIVED)
    decreases ahead
  {
    hide Commit, Apply, Next;
    if ahead == 1 {
      RemoveSteps(s, id);
      events := TwoEvents(s, [], Read(Remove(s.row.value)), Finish(s.next, 0));
    } else {
      var before := OutrunVersion(s, id, ahead - 1);
      var t := Run(s, before);
      if ahead == 2 {
        RestoreSteps(t, id);
        events := TwoEvents(s, before, Read(Restore(t.row.value, true)), Finish(t.next, 0));
      } else {
        var u: Update := if ahead % 2 == 1 then Archive else Unarchive;
        ToggleBumps(t, u);
        OneMoreEvent(s, before, Direct(u));
        events := before + [Direct(u)];
      }
    }
  }

  lemma TwoEvents<Q(!new)>(s: State<Q>, before: seq<Event<Q>>, e: Event<Q>, f: Event<Q>) returns (events: seq<Event<Q>>)
    ensures Run(s, events) == Next(Next(Run(s, before), e), f)
  {
    hide Next;
    OneMoreEvent(s, before, e);
    OneMoreEvent(s, before + [e], f);
    events := before + [e] + [f];
  }

  lemma ToggleBumps<Q(!new)>(s: State<Q>, u: Update)
    requires s.row != None
    requires (u == Archive && s.row.value.status == CLOSED) || (u == Unarchive && s.row.value.status == ARCHIVED)
    ensures Next(s, Direct(u))
            == s.(row := Some(Bump(s.row.value).(status := if u == Archive then ARCHIVED else CLOSED)))
  {
  }

  /** The version guard does not look at the status, so the freeze rests on
      honest clients: an edit can land on a survey that has left DRAFT exactly
      when its client sent a version later than any it had read. */
  lemma GuessedVersionExactly<Q(!new)>(s: State<Q>, id: nat)
    requires id in s.pending && id < s.next
    requires s.pending[id].Edit? && s.row == Some(s.pending[id].seen) && Admits(s.pending[id])
    ensures (exists events :: LandsOnPublished(Run(s, events), id)) <==> s.pending[id].sent > s.pending[id].seen.version
  {
    hide Commit, Apply, Next;
    var r := s.pending[id];
    if r.sent > r.seen.version {
      var events := OutrunVersion(s, id, r.sent - r.seen.version);
      assert LandsOnPublished(Run(s, events), id);
    }
    forall events | LandsOnPublished(Run(s, events), id)
      ensures r.sent > r.seen.version
    {
      WaitingRequest(s, events, id);
    }
  }

  /** While a request waits, its reading is the present or an older version; once
      finished, it does not come back. */
  lemma {:induction false} WaitingRequest<Q(!new)>(s: State<Q>, events: seq<Event<Q>>, id: nat)
    requires id < s.next && (id in s.pending ==> Fresh(s.row, s.pending[id]))
    ensures var t := Run(s, events);
            id in t.pending ==> id in s.pending && t.pending[id] == s.pending[id] && Fresh(t.row, t.pending[id])
    decreases |events|
  {
    hide Commit, Apply;
    if events != [] {
      EveryWriteBumps(s, events[0]);
      WaitingRequest(Next(s, events[0]), events[1..], id);
    }
  }

  // ---------------------------------------------------------------- publishing

  /** The row `seen`, published at `now`. */
  function Published<Q>(seen: Row<Q>, now: int): Row<Q> {
    Bump(seen).(status := RECRUITING, publishedAt := Some(now))
  }

  /** `publish` is guarded by the status only: a publish that goes through makes
      public what it validated exactly when the row still has the version it
      read. */
  lemma PublishesWhatItValidated<Q(!new)>(s: State<Q>, id: nat, now: int)
    requires Inv(s) && id in s.pending && s.pending[id].Publish?
    requires s.row != None && s.row.value.status == DRAFT
    ensures Next(s, Finish(id, now)).row == Some(Published(s.pending[id].seen, now))
       <==> s.row.value.version == s.pending[id].seen.version
  {
    assert Fresh(s.row, s.pending[id]);
  }

  /** How many of the events write the row. */
  ghost function Writes<Q(!new)>(s: State<Q>, events: seq<Event<Q>>): nat
    decreases |events|
  {
    if events == [] then 0
    else (if Next(s, events[0]).row != s.row then 1 else 0) + Writes(Next(s, events[0]), events[1..])
  }

  /** The version counts the writes to the row. */
  lemma {:induction false} VersionCountsWrites<Q(!new)>(s: State<Q>, events: seq<Event<Q>>)
    requires s.row != None
    ensures var row := Run(s, events).row;
            && (row != None ==> row.value.version == s.row.value.version + Writes(s, events))
            && (Writes(s, events) == 0 ==> row == s.row)
    decreases |events|
  {
    hide Next;
    if events != [] {
      EveryWriteBumps(s, events[0]);
      if Next(s, events[0]).row != None {
        VersionCountsWrites(Next(s, events[0]), events[1..]);
      } else {
        DeletedStays(Next(s, events[0]), events[1..]);
      }
    }
  }

  /** From the reading of a publish to its finish: it goes through with what it
      validated exactly when no write landed in between, whatever ran. */
  lemma PublishIsCleanExactly<Q(!new)>(s: State<Q>, events: seq<Event<Q>>, now: int)
    requires Inv(s) && s.row != None && s.row.value.status == DRAFT
    requires var t := Next(s, Read(Publish(s.row.value))); s.next in Run(t, events).pending
    ensures var t := Next(s, Read(Publish(s.row.value)));
            var u := Run(t, events);
            (&& u.row != None && u.row.value.status == DRAFT
             && Next(u, Finish(s.next, now)).row == Some(Published(s.row.value, now)))
            <==> Writes(t, events) == 0
  {
    var r := Publish(s.row.value);
    var t := Next(s, Read(r));
    assert t.row == s.row && t.pending[s.next] == r && Fresh(t.row, r);
    hide Next, Run, Writes, Inv;
    WaitingRequest(t, events, s.next);
    VersionCountsWrites(t, events);
    var u := Run(t, events);
    FinishOfPublish(u, s.next, now);
  }

  lemma FinishOfPublish<Q(!new)>(s: State<Q>, id: nat, now: int)
    requires id in s.pending && s.pending[id].Publish? && Fresh(s.row, s.pending[id])
    ensures s.row != None && s.row.value.status == DRAFT ==>
              Next(s, Finish(id, now)).row == Some(Published(s.row.value, now))
  {
  }

  /** An edit that commits between its check and its update is published
      unchecked, whatever it wrote. */
  lemma RacingEditIsPublishedUnchecked<Q(!new)>(row: Row<Q>, written: Q, now: int)
    requires row.status == DRAFT
    ensures var edit := Edit(row.version, row, None, _ => Some(written));
            var s := State(Some(row), map[], 0);
            var t := Next(Next(Next(Next(s, Read(Publish(row))), Read(edit)), Finish(1, 0)), Finish(0, now));
            t.row != None && t.row.value.status == RECRUITING && t.row.value.questions == written
  {
    var edit := Edit(row.version, row, None, _ => Some(written));
    var s := State(Some(row), map[], 0);
    var read := Next(Next(s, Read(Publish(row))), Read(edit));
    assert read.row == Some(row) && read.pending == map[0 := Publish(row), 1 := edit];
    var edited := Next(read, Finish(1, 0));
    assert edited.row.value.status == DRAFT && edited.row.value.questions == written;
    assert 0 in edited.pending && edited.pending[0] == Publish(row);
  }

  // ---------------------------------------------------------------- removed drafts

  /** A restored survey recruits without a publication time exactly when the
      removed row had none and its deadline has not passed. */
  lemma RestoredDraftHasNoPublicationTime<Q(!new)>(s: State<Q>, id: nat, now: int)
    requires id in s.pending && s.pending[id].Restore? && s.row != None && s.row.value.status == REMOVED
    ensures var row := Next(s, Finish(id, now)).row;
            (row != None && row.value.status == RECRUITING && row.value.publishedAt == None)
            <==> (s.row.value.publishedAt == None && !s.pending[id].deadlinePassed)
  {
  }

  /** The run takes the row out of DRAFT by removing it. */
  ghost predicate RemovedAsDraft<Q(!new)>(s: State<Q>, events: seq<Event<Q>>)
    decreases |events|
  {
    && events != [] && s.row != None && s.row.value.status == DRAFT
    && var t := Next(s, events[0]);
       (t.row != None && t.row.value.status == REMOVED) || RemovedAsDraft(t, events[1..])
  }

  /** A survey that is no longer a draft has no publication time exactly when an
      admin removed it as a draft, whatever happened to it since. */
  lemma {:induction false} UnpublishedWasRemovedAsDraft<Q(!new)>(s: State<Q>, events: seq<Event<Q>>)
    requires s.row != None && s.row.value.status == DRAFT && s.row.value.publishedAt == None
    ensures var row := Run(s, events).row;
            row != None && row.value.status != DRAFT ==>
              (row.value.publishedAt == None <==> RemovedAsDraft(s, events))
    decreases |events|
  {
    hide Next;
    if events != [] {
      var t := Next(s, events[0]);
      StatusFollowsLifecycle(s, events[0]);
      if t.row == None {
        DeletedStays(t, events[1..]);
      } else if t.row.value.status == DRAFT {
        UnpublishedWasRemovedAsDraft(t, events[1..]);
      } else {
        PublicationTimeStands(t, events[1..]);
      }
    }
  }

  // ---------------------------------------------------------------- unguarded writes

  /** A request that deletes the row, or gives it to a team that does not own it,
      without looking at the status it has by then. */
  ghost predicate DeletesIt<Q(!new)>(s: State<Q>, id: nat) {
    id in s.pending && s.pending[id].Delete?
  }

  ghost predicate MovesIt<Q(!new)>(s: State<Q>, id: nat) {
    id in s.pending && s.pending[id].MoveToTeam? && s.row != None && s.row.value.owner != TEAM(s.pending[id].teamId)
  }

  /** A survey outside DRAFT disappears or changes hands only by such a request,
      and no such request can be made of it any more. */
  lemma OutsideDraftStep<Q(!new)>(s: State<Q>, e: Event<Q>)
    requires s.row != None && s.row.value.status != DRAFT
    ensures Next(s, e).row == None <==> e.Finish? && DeletesIt(s, e.id)
    ensures var row := Next(s, e).row;
            row != None ==> (row.value.owner != s.row.value.owner <==> e.Finish? && MovesIt(s, e.id))
    ensures forall id :: DeletesIt(Next(s, e), id) ==> DeletesIt(s, id)
    ensures Next(s, e).row != None && Next(s, e).row.value.owner == s.row.value.owner ==>
              forall id :: MovesIt(Next(s, e), id) ==> MovesIt(s, id)
  {
  }

  lemma {:induction false} KeptWithoutDeletes<Q(!new)>(s: State<Q>, events: seq<Event<Q>>)
    requires s.row != None && s.row.value.status != DRAFT && forall id :: !DeletesIt(s, id)
    ensures Run(s, events).row != None
    decreases |events|
  {
    hide Next, DeletesIt, MovesIt;
    if events != [] {
      OutsideDraftStep(s, events[0]);
      StatusFollowsLifecycle(s, events[0]);
      KeptWithoutDeletes(Next(s, events[0]), events[1..]);
    }
  }

  lemma {:induction false} OwnedWithoutMoves<Q(!new)>(s: State<Q>, events: seq<Event<Q>>)
    requires s.row != None && s.row.value.status != DRAFT && forall id :: !MovesIt(s, id)
    ensures Run(s, events).row != None ==> Run(s, events).row.value.owner == s.row.value.owner
    decreases |events|
  {
    hide Next, DeletesIt, MovesIt;
    if events != [] {
      OutsideDraftStep(s, events[0]);
      StatusFollowsLifecycle(s, events[0]);
      if Next(s, events[0]).row == None {
        DeletedStays(Next(s, events[0]), events[1..]);
      } else {
        OwnedWithoutMoves(Next(s, events[0]), events[1..]);
      }
    }
  }

  /** Over every run: a survey outside DRAFT is never deleted exactly when no
      deletion that saw it as a draft is still under way. */
  lemma PublishedIsKeptExactly<Q(!new)>(s: State<Q>)
    requires s.row != None && s.row.value.status != DRAFT
    ensures (forall events: seq<Event<Q>> :: Run(s, events).row != None) <==> forall id :: !DeletesIt(s, id)
  {
    hide Next, DeletesIt, MovesIt, Run;
    if forall id :: !DeletesIt(s, id) {
      forall events: seq<Event<Q>>
        ensures Run(s, events).row != None
      {
        KeptWithoutDeletes(s, events);
      }
    } else {
      var id :| DeletesIt(s, id);
      OutsideDraftStep(s, Finish(id, 0));
      RunOfOne(s, Finish(id, 0));
    }
  }

  /** Over every run: it keeps its owner exactly when no move that saw it as a
      draft is still under way. */
  lemma PublishedIsOwnedExactly<Q(!new)>(s: State<Q>)
    requires s.row != None && s.row.value.status != DRAFT
    ensures (forall events: seq<Event<Q>> ::
               Run(s, events).row == None || Run(s, events).row.value.owner == s.row.value.owner)
       <==> forall id :: !MovesIt(s, id)
  {
    hide Next, Run;
    if forall id :: !MovesIt(s, id) {
      forall events: seq<Event<Q>>
        ensures Run(s, events).row == None || Run(s, events).row.value.owner == s.row.value.owner
      {
        OwnedWithoutMoves(s, events);
      }
    } else {
      var id :| MovesIt(s, id);
      OutsideDraftStep(s, Finish(id, 0));
      RunOfOne(s, Finish(id, 0));
    }
  }

  /** The race: a deletion that read the draft before it was published deletes
      the published survey. */
  lemma RacingDeleteTakesPublished<Q(!new)>(row: Row<Q>, now: int)
    requires row.status == DRAFT
    ensures var s := State(Some(row), map[], 0);
            var t := Next(Next(Next(s, Read(Delete(row))), Read(Publish(row))), Finish(1, now));
            && t.row == Some(Published(row, now)) && DeletesIt(t, 0)
            && Next(t, Finish(0, now)).row == None
  {
    var s := State(Some(row), map[], 0);
    var read := Next(Next(s, Read(Delete(row))), Read(Publish(row)));
    assert read.row == Some(row) && read.pending == map[0 := Delete(row), 1 := Publish(row)];
  }
}
