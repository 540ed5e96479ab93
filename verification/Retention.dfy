/** The daily retention batch (src/retention/retention.service.ts) and the check
    on re-registration that reads what it purges (src/user/user.service.ts,
    src/auth/auth.service.ts). */
module Retention {
  import KstDate

  const WITHDRAWN_EMAIL_BLOCK_DAYS := 30

  datatype JobId =
    | SURVEY_PURGE
    | UNVERIFIED_ACCOUNTS
    | WITHDRAWN_EMAILS
    | ANSWERED_INQUIRIES
    | ADMIN_LOG_SCRUB
    | RESTRICTION_SCRUB
    | NOTIFICATION_PURGE

  /** RETENTION_JOB_IDS, in the order the batch runs them. */
  const JOB_IDS: seq<JobId> :=
    [SURVEY_PURGE, UNVERIFIED_ACCOUNTS, WITHDRAWN_EMAILS, ANSWERED_INQUIRIES, ADMIN_LOG_SCRUB, RESTRICTION_SCRUB,
      NOTIFICATION_PURGE]

  /** The days a job keeps a row after its time stamp. */
  function KeptDays(job: JobId): int {
    match job
    case SURVEY_PURGE => 0
    case UNVERIFIED_ACCOUNTS => 7
    case WITHDRAWN_EMAILS => WITHDRAWN_EMAIL_BLOCK_DAYS
    case _ => 365
  }

  function Cutoff(job: JobId, now: int): int {
    now - KeptDays(job) * KstDate.DAY_MS
  }

  /** The tables by the job that deals with them: survey-purge counts the surveys
      and deletes what belongs to them. */
  datatype TableId = ANSWERS | MESSAGES | CHANGES | RowsFor(job: JobId)

  const SURVEYS := RowsFor(SURVEY_PURGE)

  /** Row keys and their time stamps; answers, messages and proposed changes go by
      the purge date of their survey. */
  type Rows = map<string, int>
  type Tables = map<TableId, Rows>

  datatype Summary = Summary(before: nat, affected: nat, after: nat)
  datatype PurgeCounts = PurgeCounts(
    surveys: nat, answersBefore: nat, answersAfter: nat, messagesBefore: nat, messagesAfter: nat,
    changesBefore: nat, changesAfter: nat)
  datatype JobOutcome = Ran(summary: Summary) | RanPurge(counts: PurgeCounts) | Failed | Disabled
  datatype RunResult = Skipped | Completed(dryRun: bool, jobs: map<JobId, JobOutcome>)

  function TableRows(tables: Tables, table: TableId): Rows {
    if table in tables then tables[table] else map[]
  }

  function RowsOf(tables: Tables, job: JobId): Rows {
    TableRows(tables, RowsFor(job))
  }

  function JobOf(table: TableId): JobId {
    if table.RowsFor? then table.job else SURVEY_PURGE
  }

  function Due(rows: Rows, cutoff: int): set<string> {
    set k | k in rows && rows[k] <= cutoff
  }

  function Purged(rows: Rows, cutoff: int): Rows {
    map k | k in rows && rows[k] > cutoff :: rows[k]
  }

  /** What a batch is asked to leave out, and which jobs go wrong in it: before
      or after they have dealt with their rows. */
  datatype Setting = Setting(dryRun: bool, disabled: set<JobId>, failing: map<JobId, FailurePoint>)
  datatype FailurePoint = BeforeDeleting | AfterDeleting

  predicate Purges(setting: Setting, job: JobId) {
    !setting.dryRun && job !in setting.disabled && (job in setting.failing ==> setting.failing[job] == AfterDeleting)
  }

  /** The rows a job leaves of a table when it deletes; surveys stay. */
  function Cleaned(tables: Tables, table: TableId, now: int): Rows {
    if table == SURVEYS then TableRows(tables, table)
    else Purged(TableRows(tables, table), Cutoff(JobOf(table), now))
  }

  function RowsAfterBatch(tables: Tables, table: TableId, now: int, setting: Setting): Rows {
    if Purges(setting, JobOf(table)) then Cleaned(tables, table, now) else TableRows(tables, table)
  }

  function DueIn(tables: Tables, table: TableId, now: int): nat {
    |Due(TableRows(tables, table), Cutoff(JobOf(table), now))|
  }

  /** What a job reports of the rows that are due. */
  function ReportOf(tables: Tables, job: JobId, now: int, dryRun: bool): JobOutcome {
    var due, answers, messages, changes :=
      DueIn(tables, RowsFor(job), now), DueIn(tables, ANSWERS, now), DueIn(tables, MESSAGES, now),
      DueIn(tables, CHANGES, now);
    if job == SURVEY_PURGE && dryRun then
      RanPurge(PurgeCounts(due, answers, answers, messages, messages, changes, changes))
    else if job == SURVEY_PURGE then RanPurge(PurgeCounts(due, answers, 0, messages, 0, changes, 0))
    else if dryRun then Ran(Summary(due, 0, due))
    else Ran(Summary(due, due, 0))
  }

  function OutcomeOf(tables: Tables, job: JobId, now: int, setting: Setting): JobOutcome {
    if job in setting.disabled then Disabled
    else if job in setting.failing then Failed
    else ReportOf(tables, job, now, setting.dryRun)
  }

  class RetentionTables {
    var tables: Tables
    var runDates: set<string>

    constructor (stored: Tables)
      ensures tables == stored && runDates == {}
    {
      tables, runDates := stored, {};
    }

    /** deleteWhere: count, delete unless this is a dry run, count again. */
    method DeleteWhere(job: JobId, now: int, dryRun: bool) returns (summary: Summary)
      modifies this`tables
      ensures forall t :: t != RowsFor(job) ==> TableRows(tables, t) == TableRows(old(tables), t)
      ensures RowsOf(tables, job)
           == if dryRun then RowsOf(old(tables), job) else Purged(RowsOf(old(tables), job), Cutoff(job, now))
      ensures var due := |Due(RowsOf(old(tables), job), Cutoff(job, now))|;
              summary == if dryRun then Summary(due, 0, due) else Summary(due, due, 0)
    {
      var rows, cutoff := RowsOf(tables, job), Cutoff(job, now);
      var before := |Due(rows, cutoff)|;
      if dryRun {
        return Summary(before, 0, before);
      }
      var affected := 0;
      if before != 0 {
        var left := Purged(rows, cutoff);
        affected := |rows| - |left|;
        PurgedCount(rows, cutoff);
        tables := tables[RowsFor(job) := left];
      } else {
        NothingPurged(rows, cutoff);
      }
      var after := |Due(RowsOf(tables, job), cutoff)|;
      PurgedIsNotDue(rows, cutoff);
      summary := Summary(before, affected, after);
    }

    /** purgeSurveyResponses: the answers, proposed changes and messages of surveys
        past their purge date go in one transaction. */
    method PurgeSurveyResponses(now: int, dryRun: bool) returns (counts: PurgeCounts)
      modifies this`tables
      ensures forall t ::
                TableRows(tables, t)
                == if dryRun || JobOf(t) != SURVEY_PURGE then TableRows(old(tables), t)
                  else Cleaned(old(tables), t, now)
      ensures RanPurge(counts) == ReportOf(old(tables), SURVEY_PURGE, now, dryRun)
    {
      hide Due, Purged, Cutoff;
      var cutoff := Cutoff(SURVEY_PURGE, now);
      var answers, changes := TableRows(tables, ANSWERS), TableRows(tables, CHANGES);
      var messages := TableRows(tables, MESSAGES);
      var surveys, answersBefore := |Due(TableRows(tables, SURVEYS), cutoff)|, |Due(answers, cutoff)|;
      var messagesBefore, changesBefore := |Due(messages, cutoff)|, |Due(changes, cutoff)|;
      if dryRun {
        return PurgeCounts(surveys, answersBefore, answersBefore, messagesBefore, messagesBefore, changesBefore,
                           changesBefore);
      }
      tables := tables[ANSWERS := Purged(answers, cutoff)];
      tables := tables[CHANGES := Purged(changes, cutoff)];
      tables := tables[MESSAGES := Purged(messages, cutoff)];
      PurgedIsNotDue(answers, cutoff);
      PurgedIsNotDue(changes, cutoff);
      PurgedIsNotDue(messages, cutoff);
      counts := PurgeCounts(surveys, answersBefore, |Due(TableRows(tables, ANSWERS), cutoff)|,
                            messagesBefore, |Due(TableRows(tables, MESSAGES), cutoff)|,
                            changesBefore, |Due(TableRows(tables, CHANGES), cutoff)|);
    }

    method RunJob(job: JobId, now: int, dryRun: bool) returns (outcome: JobOutcome)
      modifies this`tables
      ensures forall t ::
                TableRows(tables, t)
                == if dryRun || JobOf(t) != job then TableRows(old(tables), t) else Cleaned(old(tables), t, now)
      ensures outcome == ReportOf(old(tables), job, now, dryRun)
    {
      hide Due, Purged, Cutoff, TableRows;
      if job == SURVEY_PURGE {
        var counts := PurgeSurveyResponses(now, dryRun);
        outcome := RanPurge(counts);
      } else {
        var summary := DeleteWhere(job, now, dryRun);
        outcome := Ran(summary);
      }
    }

    /** runOnce: the first instance to claim the Korean date runs the jobs. */
    method RunOnce(now: int, setting: Setting) returns (result: RunResult)
      modifies this
      ensures runDates == old(runDates) + {KstDate.ToKstDateString(now)}
      ensures result == Skipped <==> KstDate.ToKstDateString(now) in old(runDates)
      ensures result == Skipped ==> tables == old(tables)
      ensures result != Skipped ==>
                && result.dryRun == setting.dryRun
                && (forall t :: TableRows(tables, t) == RowsAfterBatch(old(tables), t, now, setting))
                && (forall job :: job in result.jobs && result.jobs[job] == OutcomeOf(old(tables), job, now, setting))
    {
      hide KstDate.ToKstDateString, Due, Purged, Cutoff, TableRows;
      var runDate := KstDate.ToKstDateString(now);
      if runDate in runDates {
        return Skipped;
      }
      runDates := runDates + {runDate};
      var jobs: map<JobId, JobOutcome> := map[];
      for i := 0 to |JOB_IDS|
        invariant runDates == old(runDates) + {runDate}
        invariant forall t ::
                    TableRows(tables, t)
                    == if Position(JobOf(t)) < i then RowsAfterBatch(old(tables), t, now, setting)
                      else TableRows(old(tables), t)
        invariant forall job :: Position(job) < i ==>
                    job in jobs && jobs[job] == OutcomeOf(old(tables), job, now, setting)
      {
        var id := JOB_IDS[i];
        PositionIsUnique(i);
        SameReport(tables, old(tables), id, now, setting.dryRun);
        if id in setting.disabled {
          jobs := jobs[id := Disabled];
        } else if id in setting.failing {
          if setting.failing[id] == AfterDeleting {
            var _ := RunJob(id, now, setting.dryRun);
          }
          jobs := jobs[id := Failed];
        } else {
          var outcome := RunJob(id, now, setting.dryRun);
          jobs := jobs[id := outcome];
        }
      }
      result := Completed(setting.dryRun, jobs);
    }
  }

  /** When a job has its turn. */
  function Position(job: JobId): (k: nat)
    ensures k < |JOB_IDS| && JOB_IDS[k] == job
  {
    match job
    case SURVEY_PURGE => 0
    case UNVERIFIED_ACCOUNTS => 1
    case WITHDRAWN_EMAILS => 2
    case ANSWERED_INQUIRIES => 3
    case ADMIN_LOG_SCRUB => 4
    case RESTRICTION_SCRUB => 5
    case NOTIFICATION_PURGE => 6
  }

  lemma PositionIsUnique(i: nat)
    requires i < |JOB_IDS|
    ensures forall job :: Position(job) == i <==> job == JOB_IDS[i]
  {
  }

  /** A job looks at its own tables only. */
  lemma SameReport(a: Tables, b: Tables, job: JobId, now: int, dryRun: bool)
    requires forall t :: JobOf(t) == job ==> TableRows(a, t) == TableRows(b, t)
    ensures ReportOf(a, job, now, dryRun) == ReportOf(b, job, now, dryRun)
    ensures forall t :: JobOf(t) == job ==> Cleaned(a, t, now) == Cleaned(b, t, now)
  {
    assert JobOf(ANSWERS) == JobOf(MESSAGES) == JobOf(CHANGES) == SURVEY_PURGE && JobOf(RowsFor(job)) == job;
    hide Due, Purged, Cutoff, TableRows;
  }

  lemma PurgedCount(rows: Rows, cutoff: int)
    ensures |rows| == |Purged(rows, cutoff)| + |Due(rows, cutoff)|
  {
    var left := Purged(rows, cutoff);
    assert rows.Keys == left.Keys + Due(rows, cutoff) && left.Keys !! Due(rows, cutoff);
    assert |rows| == |rows.Keys| && |left| == |left.Keys|;
  }

  lemma NothingPurged(rows: Rows, cutoff: int)
    requires |Due(rows, cutoff)| == 0
    ensures Purged(rows, cutoff) == rows
  {
    assert Due(rows, cutoff) == {};
    assert forall k :: k in rows ==> k !in Due(rows, cutoff);
  }

  lemma PurgedIsNotDue(rows: Rows, cutoff: int)
    ensures Due(Purged(rows, cutoff), cutoff) == {}
  {
  }

  /** A day without a batch does no harm: the next one leaves the same rows. */
  lemma LaterBatchCatchesUp(rows: Rows, job: JobId, first: int, second: int)
    requires first <= second
    ensures Purged(Purged(rows, Cutoff(job, first)), Cutoff(job, second)) == Purged(rows, Cutoff(job, second))
  {
  }

  /** What a batch keeps, row by row: of the surveys past their purge date nothing
      but the surveys themselves, unverified accounts for 7 days, withdrawn emails
      for 30, and everything else for 365. */
  lemma BatchKeeps(tables: Tables, t: TableId, now: int, setting: Setting, k: string)
    requires k in TableRows(tables, t) && Purges(setting, JobOf(t))
    ensures var stamp, age, day := TableRows(tables, t)[k], now - TableRows(tables, t)[k], 24 * 60 * 60 * 1000;
            k in RowsAfterBatch(tables, t, now, setting)
            <==> match t
                 case ANSWERS => now < stamp
                 case MESSAGES => now < stamp
                 case CHANGES => now < stamp
                 case RowsFor(SURVEY_PURGE) => true
                 case RowsFor(UNVERIFIED_ACCOUNTS) => age < 7 * day
                 case RowsFor(WITHDRAWN_EMAILS) => age < 30 * day
                 case RowsFor(ANSWERED_INQUIRIES) => age < 365 * day
                 case RowsFor(ADMIN_LOG_SCRUB) => age < 365 * day
                 case RowsFor(RESTRICTION_SCRUB) => age < 365 * day
                 case RowsFor(NOTIFICATION_PURGE) => age < 365 * day
    ensures k in RowsAfterBatch(tables, t, now, setting) ==>
              RowsAfterBatch(tables, t, now, setting)[k] == TableRows(tables, t)[k]
    ensures RowsAfterBatch(tables, t, now, setting).Keys <= TableRows(tables, t).Keys
  {
  }

  /** A job deletes unless it is a dry run, is switched off, or fails first; then
      its tables stay as they are. */
  lemma BatchLeavesAlone(tables: Tables, t: TableId, now: int, setting: Setting)
    ensures setting.dryRun || JobOf(t) in setting.disabled
            || (JobOf(t) in setting.failing && setting.failing[JobOf(t)] == BeforeDeleting)
            ==> RowsAfterBatch(tables, t, now, setting) == TableRows(tables, t)
    ensures setting == Setting(false, {}, map[]) ==> forall job :: Purges(setting, job)
  {
  }

  /** How many rows of a table were stamped `days` days ago or earlier. */
  ghost function OlderThan(rows: Rows, days: int, now: int): nat {
    |set k | k in rows && rows[k] <= now - days * 24 * 60 * 60 * 1000|
  }

  /** What a job reports: of the surveys past their purge date, and of the answers,
      messages and proposed changes that belong to them, how many there were and
      are; otherwise how many rows were due, were dealt with and are left. */
  lemma ReportMeaning(tables: Tables, job: JobId, now: int, dryRun: bool)
    ensures var left := (n: nat) => if dryRun then n else 0;
            var report := ReportOf(tables, job, now, dryRun);
            if job == SURVEY_PURGE then
              var answers := OlderThan(TableRows(tables, ANSWERS), 0, now);
              var messages := OlderThan(TableRows(tables, MESSAGES), 0, now);
              var changes := OlderThan(TableRows(tables, CHANGES), 0, now);
              && report.RanPurge? && report.counts.surveys == OlderThan(TableRows(tables, SURVEYS), 0, now)
              && report.counts.answersBefore == answers && report.counts.answersAfter == left(answers)
              && report.counts.messagesBefore == messages && report.counts.messagesAfter == left(messages)
              && report.counts.changesBefore == changes && report.counts.changesAfter == left(changes)
            else
              var days := if job == UNVERIFIED_ACCOUNTS then 7 else if job == WITHDRAWN_EMAILS then 30 else 365;
              var due := OlderThan(RowsOf(tables, job), days, now);
              && report.Ran? && report.summary.before == due && report.summary.after == left(due)
              && report.summary.affected == (if dryRun then 0 else due)
  {
  }

  /** A job's outcome says that it was switched off, else that it failed, else what
      it reports. */
  lemma OutcomeMeaning(tables: Tables, job: JobId, now: int, setting: Setting)
    ensures var outcome := OutcomeOf(tables, job, now, setting);
            && (outcome == Disabled <==> job in setting.disabled)
            && (outcome == Failed <==> job !in setting.disabled && job in setting.failing)
            && (job !in setting.disabled && job !in setting.failing ==>
                  outcome == ReportOf(tables, job, now, setting.dryRun))
  {
  }

  // ---------------------------------------------------------------- accounts and withdrawn emails

  /** `tables` holds the unverified accounts by email and the withdrawn emails by
      hash; `active` the emails of the other accounts. */
  datatype State = State(tables: Tables, active: set<string>, runDates: set<string>)

  /** The hash new rows are stored under, and the one older rows may have. */
  datatype Hashes = Hashes(hmac: string -> string, legacy: string -> string)

  datatype Event =
    | SignUp(email: string, now: int)
    | Verify(email: string, now: int)
    | ChangeEmail(email: string, newEmail: string, now: int)
    | Withdraw(email: string, now: int)
    | Batch(now: int, setting: Setting)

  datatype Reply = Done | EmailAlreadyExists | RecentlyWithdrawnEmail | NoSuchAccount | BatchSkipped

  predicate BlocksAt(rows: Rows, hash: string, now: int) {
    hash in rows && rows[hash] > now - WITHDRAWN_EMAIL_BLOCK_DAYS * KstDate.DAY_MS
  }

  /** isEmailBlockedByRecentWithdrawal. */
  predicate IsBlocked(h: Hashes, tables: Tables, email: string, now: int) {
    var rows := RowsOf(tables, WITHDRAWN_EMAILS);
    BlocksAt(rows, h.hmac(email), now) || BlocksAt(rows, h.legacy(email), now)
  }

  predicate HasAccount(s: State, email: string) {
    email in s.active || email in RowsOf(s.tables, UNVERIFIED_ACCOUNTS)
  }

  function SetRows(s: State, job: JobId, rows: Rows): State {
    s.(tables := s.tables[RowsFor(job) := rows])
  }

  function RunBatch(s: State, now: int, setting: Setting): State {
    var runDate := KstDate.ToKstDateString(now);
    if runDate in s.runDates then s
    else
      State(map t | t in s.tables :: RowsAfterBatch(s.tables, t, now, setting),
            s.active, s.runDates + {runDate})
  }

  /** `purging` off means that batches leave the withdrawn emails alone. */
  function Effective(setting: Setting, purging: bool): Setting {
    if purging then setting else setting.(disabled := setting.disabled + {WITHDRAWN_EMAILS})
  }

  function ReplyTo(h: Hashes, s: State, e: Event): Reply {
    match e
    case SignUp(email, now) =>
      if HasAccount(s, email) then EmailAlreadyExists
      else if IsBlocked(h, s.tables, email, now) then RecentlyWithdrawnEmail
      else Done
    case Verify(email, _) => if email in RowsOf(s.tables, UNVERIFIED_ACCOUNTS) then Done else NoSuchAccount
    case ChangeEmail(email, newEmail, now) =>
      if email !in RowsOf(s.tables, UNVERIFIED_ACCOUNTS) then NoSuchAccount
      else if HasAccount(s, newEmail) then EmailAlreadyExists
      else if IsBlocked(h, s.tables, newEmail, now) then RecentlyWithdrawnEmail
      else Done
    case Withdraw(email, _) => if HasAccount(s, email) then Done else NoSuchAccount
    case Batch(now, _) => if KstDate.ToKstDateString(now) in s.runDates then BatchSkipped else Done
  }

  function Next(h: Hashes, s: State, e: Event, purging: bool): State {
    var unverified := RowsOf(s.tables, UNVERIFIED_ACCOUNTS);
    match e
    case SignUp(email, now) =>
      if ReplyTo(h, s, e) == Done then SetRows(s, UNVERIFIED_ACCOUNTS, unverified[email := now]) else s
    case Verify(email, _) =>
      if ReplyTo(h, s, e) == Done
      then SetRows(s, UNVERIFIED_ACCOUNTS, unverified - {email}).(active := s.active + {email}) else s
    case ChangeEmail(email, newEmail, _) =>
      if ReplyTo(h, s, e) == Done && email in unverified
      then SetRows(s, UNVERIFIED_ACCOUNTS, (unverified - {email})[newEmail := unverified[email]]) else s
    case Withdraw(email, now) =>
      if ReplyTo(h, s, e) == Done
      then
        var gone := SetRows(s, UNVERIFIED_ACCOUNTS, unverified - {email}).(active := s.active - {email});
        SetRows(gone, WITHDRAWN_EMAILS, RowsOf(s.tables, WITHDRAWN_EMAILS)[h.hmac(email) := now])
      else s
    case Batch(now, setting) => RunBatch(s, now, Effective(setting, purging))
  }

  function Run(h: Hashes, s: State, events: seq<Event>, purging: bool): State {
    if events == [] then s
    else
      var n := |events| - 1;
      Next(h, Run(h, s, events[..n], purging), events[n], purging)
  }

  function Replies(h: Hashes, s: State, events: seq<Event>, purging: bool): seq<Reply> {
    if events == [] then []
    else
      var n := |events| - 1;
      Replies(h, s, events[..n], purging) + [ReplyTo(h, Run(h, s, events[..n], purging), events[n])]
  }

  /** The clock never goes back, and ends no later than `end`. */
  ghost predicate Clocked(events: seq<Event>, end: int) {
    && (forall i, j :: 0 <= i < j < |events| ==> events[i].now <= events[j].now)
    && (forall i :: 0 <= i < |events| ==> events[i].now <= end)
  }

  // ---------------------------------------------------------------- what each event replies and writes

  /** An address is free when no account has it; it is blocked for 30 days after
      an account with it, or one hashed the old way, withdrew. */
  lemma RepliesExactly(h: Hashes, s: State, e: Event)
    ensures var reply := ReplyTo(h, s, e);
            var unverified, rows := RowsOf(s.tables, UNVERIFIED_ACCOUNTS), RowsOf(s.tables, WITHDRAWN_EMAILS);
            var recent := (hash: string) => hash in rows && e.now - rows[hash] < 30 * 24 * 60 * 60 * 1000;
            match e
            case SignUp(email, _) =>
              var taken, blocked := email in s.active || email in unverified,
                recent(h.hmac(email)) || recent(h.legacy(email));
              reply == if taken then EmailAlreadyExists else if blocked then RecentlyWithdrawnEmail else Done
            case Verify(email, _) => reply == if email in unverified then Done else NoSuchAccount
            case ChangeEmail(email, newEmail, _) =>
              var taken, blocked := newEmail in s.active || newEmail in unverified,
                recent(h.hmac(newEmail)) || recent(h.legacy(newEmail));
              reply == if email !in unverified then NoSuchAccount
                       else if taken then EmailAlreadyExists
                       else if blocked then RecentlyWithdrawnEmail else Done
            case Withdraw(email, _) =>
              reply == if email in s.active || email in unverified then Done else NoSuchAccount
            case Batch(now, _) => reply == if KstDate.ToKstDateString(now) in s.runDates then BatchSkipped else Done
  {
    hide KstDate.ToKstDateString;
  }

  /** A request that is refused writes nothing.  Otherwise: signing up stores an
      unverified account, verifying takes it over, changing the address keeps its
      time stamp, withdrawing leaves the hash of the address and the time, and a
      batch runs once a day. */
  lemma EventsWrite(h: Hashes, s: State, e: Event, purging: bool)
    ensures ReplyTo(h, s, e) != Done ==> Next(h, s, e, purging) == s
    ensures ReplyTo(h, s, e) == Done ==>
              var t := Next(h, s, e, purging);
              var before, after := RowsOf(s.tables, UNVERIFIED_ACCOUNTS), RowsOf(t.tables, UNVERIFIED_ACCOUNTS);
              var gone, now := RowsOf(s.tables, WITHDRAWN_EMAILS), RowsOf(t.tables, WITHDRAWN_EMAILS);
              match e
              case SignUp(email, at) =>
                after == before[email := at] && t.active == s.active && now == gone && t.runDates == s.runDates
              case Verify(email, _) =>
                && after == before - {email} && t.active == s.active + {email} && now == gone
                && t.runDates == s.runDates
              case ChangeEmail(email, newEmail, _) =>
                && email in before && after == (before - {email})[newEmail := before[email]]
                && t.active == s.active && now == gone && t.runDates == s.runDates
              case Withdraw(email, at) =>
                && after == before - {email} && t.active == s.active - {email}
                && now == gone[h.hmac(email) := at] && t.runDates == s.runDates
              case Batch(at, setting) =>
                t.active == s.active && t.runDates == s.runDates + {KstDate.ToKstDateString(at)}
  {
    hide KstDate.ToKstDateString, IsBlocked, Purged, Effective;
  }

  /** What a batch leaves; with `purging` off it is as if the job for withdrawn
      emails were switched off, and no other. */
  lemma BatchWrites(h: Hashes, s: State, now: int, setting: Setting, purging: bool, t: TableId)
    ensures ReplyTo(h, s, Batch(now, setting)) == Done ==>
              var rows := TableRows(Next(h, s, Batch(now, setting), purging).tables, t);
              rows == if t == RowsFor(WITHDRAWN_EMAILS) && !purging then TableRows(s.tables, t)
                      else RowsAfterBatch(s.tables, t, now, setting)
  {
    hide KstDate.ToKstDateString;
    BatchRows(s, now, Effective(setting, purging), t);
  }

  /** With `purging` off no hash of a withdrawn email is ever lost. */
  lemma {:induction false} UnpurgedHashesStay(h: Hashes, s: State, events: seq<Event>)
    ensures RowsOf(s.tables, WITHDRAWN_EMAILS).Keys <= RowsOf(Run(h, s, events, false).tables, WITHDRAWN_EMAILS).Keys
    decreases |events|
  {
    if events != [] {
      var n := |events| - 1;
      UnpurgedHashesStay(h, s, events[..n]);
      var before := Run(h, s, events[..n], false);
      EventsWrite(h, before, events[n], false);
      if events[n].Batch? {
        BatchWrites(h, before, events[n].now, events[n].setting, false, RowsFor(WITHDRAWN_EMAILS));
      }
      hide Next, ReplyTo, RowsOf;
    }
  }

  /** The replies are those of the events, in turn. */
  lemma {:induction false} RepliesInTurn(h: Hashes, s: State, events: seq<Event>, purging: bool, i: nat)
    requires i < |events|
    ensures |Replies(h, s, events, purging)| == |events|
    ensures Replies(h, s, events, purging)[i] == ReplyTo(h, Run(h, s, events[..i], purging), events[i])
    decreases |events|
  {
    hide ReplyTo, Run;
    var n := |events| - 1;
    RepliesLength(h, s, events, purging);
    RepliesLength(h, s, events[..n], purging);
    if i < n {
      RepliesInTurn(h, s, events[..n], purging, i);
      assert events[..n][..i] == events[..i];
    }
  }

  lemma {:induction false} RepliesLength(h: Hashes, s: State, events: seq<Event>, purging: bool)
    ensures |Replies(h, s, events, purging)| == |events|
    decreases |events|
  {
    hide ReplyTo, Run;
    if events != [] {
      RepliesLength(h, s, events[..|events| - 1], purging);
    }
  }

  // ---------------------------------------------------------------- the purge is invisible

  /** `a` is `b` without some rows that no check from `clock` on can see. */
  ghost predicate Trails(a: Rows, b: Rows, clock: int) {
    && (forall k :: k in a ==> k in b && a[k] == b[k])
    && (forall k :: k in b && k !in a ==> b[k] <= clock - WITHDRAWN_EMAIL_BLOCK_DAYS * KstDate.DAY_MS)
  }

  ghost predicate SameButPurged(a: State, b: State, clock: int) {
    && a.active == b.active && a.runDates == b.runDates
    && (forall t :: t != RowsFor(WITHDRAWN_EMAILS) ==> TableRows(a.tables, t) == TableRows(b.tables, t))
    && Trails(RowsOf(a.tables, WITHDRAWN_EMAILS), RowsOf(b.tables, WITHDRAWN_EMAILS), clock)
  }

  lemma SameAnswer(h: Hashes, a: State, b: State, clock: int, email: string, now: int)
    requires SameButPurged(a, b, clock) && clock <= now
    ensures IsBlocked(h, a.tables, email, now) <==> IsBlocked(h, b.tables, email, now)
  {
  }

  lemma SameReply(h: Hashes, a: State, b: State, clock: int, e: Event)
    requires SameButPurged(a, b, clock) && clock <= e.now
    ensures ReplyTo(h, a, e) == ReplyTo(h, b, e)
  {
    hide IsBlocked, KstDate.ToKstDateString, Trails;
    match e
    case SignUp(email, now) => SameAnswer(h, a, b, clock, email, now);
    case ChangeEmail(_, newEmail, now) => SameAnswer(h, a, b, clock, newEmail, now);
    case _ =>
  }

  lemma BatchRows(s: State, now: int, setting: Setting, t: TableId)
    ensures TableRows(RunBatch(s, now, setting).tables, t)
         == if KstDate.ToKstDateString(now) in s.runDates then TableRows(s.tables, t)
            else RowsAfterBatch(s.tables, t, now, setting)
  {
    hide KstDate.ToKstDateString;
    assert Purged(map[], Cutoff(JobOf(t), now)) == map[];
  }

  lemma SameAfterBatch(a: State, b: State, clock: int, now: int, setting: Setting)
    requires SameButPurged(a, b, clock) && clock <= now
    ensures SameButPurged(RunBatch(a, now, Effective(setting, true)), RunBatch(b, now, Effective(setting, false)), now)
  {
    hide KstDate.ToKstDateString, TableRows;
    var x, y := RunBatch(a, now, Effective(setting, true)), RunBatch(b, now, Effective(setting, false));
    forall t
      ensures t != RowsFor(WITHDRAWN_EMAILS) ==> TableRows(x.tables, t) == TableRows(y.tables, t)
    {
      BatchRows(a, now, Effective(setting, true), t);
      BatchRows(b, now, Effective(setting, false), t);
    }
    BatchRows(a, now, Effective(setting, true), RowsFor(WITHDRAWN_EMAILS));
    BatchRows(b, now, Effective(setting, false), RowsFor(WITHDRAWN_EMAILS));
  }

  lemma RowsOfSet(s: State, job: JobId, rows: Rows)
    ensures forall t ::
              TableRows(SetRows(s, job, rows).tables, t) == if t == RowsFor(job) then rows else TableRows(s.tables, t)
  {
  }

  lemma SameAfterSet(a: State, b: State, clock: int, job: JobId, rows: Rows)
    requires SameButPurged(a, b, clock) && job != WITHDRAWN_EMAILS
    ensures SameButPurged(SetRows(a, job, rows), SetRows(b, job, rows), clock)
  {
    hide TableRows, Trails;
    RowsOfSet(a, job, rows);
    RowsOfSet(b, job, rows);
  }

  lemma SameAfterWithdrawal(a: State, b: State, clock: int, hash: string, now: int)
    requires SameButPurged(a, b, clock)
    ensures SameButPurged(SetRows(a, WITHDRAWN_EMAILS, RowsOf(a.tables, WITHDRAWN_EMAILS)[hash := now]),
                          SetRows(b, WITHDRAWN_EMAILS, RowsOf(b.tables, WITHDRAWN_EMAILS)[hash := now]), clock)
  {
    hide TableRows;
    RowsOfSet(a, WITHDRAWN_EMAILS, RowsOf(a.tables, WITHDRAWN_EMAILS)[hash := now]);
    RowsOfSet(b, WITHDRAWN_EMAILS, RowsOf(b.tables, WITHDRAWN_EMAILS)[hash := now]);
  }

  lemma SameAfterActive(a: State, b: State, clock: int, active: set<string>)
    requires SameButPurged(a, b, clock)
    ensures SameButPurged(a.(active := active), b.(active := active), clock)
  {
  }

  lemma SameAfterEvent(h: Hashes, a: State, b: State, clock: int, e: Event)
    requires SameButPurged(a, b, clock) && clock <= e.now
    ensures SameButPurged(Next(h, a, e, true), Next(h, b, e, false), e.now)
  {
    SameReply(h, a, b, clock, e);
    SameLater(a, b, clock, e.now);
    hide IsBlocked, RunBatch, ReplyTo, KstDate.ToKstDateString;
    var unverified := RowsOf(a.tables, UNVERIFIED_ACCOUNTS);
    match e
    case Batch(now, setting) => SameAfterBatch(a, b, clock, now, setting);
    case SignUp(email, now) => SameAfterSet(a, b, now, UNVERIFIED_ACCOUNTS, unverified[email := now]);
    case Verify(email, now) =>
      SameAfterSet(a, b, now, UNVERIFIED_ACCOUNTS, unverified - {email});
    case ChangeEmail(email, newEmail, now) =>
      if email in unverified {
        SameAfterSet(a, b, now, UNVERIFIED_ACCOUNTS, (unverified - {email})[newEmail := unverified[email]]);
      }
    case Withdraw(email, now) =>
      SameAfterSet(a, b, now, UNVERIFIED_ACCOUNTS, unverified - {email});
      var x, y := SetRows(a, UNVERIFIED_ACCOUNTS, unverified - {email}),
        SetRows(b, UNVERIFIED_ACCOUNTS, unverified - {email});
      SameAfterActive(x, y, now, a.active - {email});
      SameAfterWithdrawal(x.(active := a.active - {email}), y.(active := a.active - {email}), now, h.hmac(email), now);
  }

  /** The purge is invisible: every sign-up, verification, change of email and
      withdrawal gets the reply it would get if withdrawn emails were never purged, and so does a
      later check. */
  lemma {:induction false} PurgeIsInvisible(h: Hashes, s: State, events: seq<Event>, end: int)
    requires Clocked(events, end)
    ensures Replies(h, s, events, true) == Replies(h, s, events, false)
    ensures SameButPurged(Run(h, s, events, true), Run(h, s, events, false), end)
    ensures forall email: string, now: int :: end <= now ==>
              (IsBlocked(h, Run(h, s, events, true).tables, email, now)
               <==> IsBlocked(h, Run(h, s, events, false).tables, email, now))
    decreases |events|
  {
    hide IsBlocked, ReplyTo, Next, SameButPurged;
    var a, b := Run(h, s, events, true), Run(h, s, events, false);
    if events == [] {
      IsItself(s, end);
    } else {
      var n := |events| - 1;
      var e := events[n];
      PurgeIsInvisible(h, s, events[..n], e.now);
      SameReply(h, Run(h, s, events[..n], true), Run(h, s, events[..n], false), e.now, e);
      SameAfterEvent(h, Run(h, s, events[..n], true), Run(h, s, events[..n], false), e.now, e);
      SameLater(a, b, e.now, end);
    }
    forall email: string, now: int | end <= now
      ensures IsBlocked(h, a.tables, email, now) <==> IsBlocked(h, b.tables, email, now)
    {
      SameAnswer(h, a, b, end, email, now);
    }
  }

  lemma IsItself(s: State, clock: int)
    ensures SameButPurged(s, s, clock)
  {
  }

  lemma SameLater(a: State, b: State, clock: int, later: int)
    requires SameButPurged(a, b, clock) && clock <= later
    ensures SameButPurged(a, b, later)
  {
  }

  // ---------------------------------------------------------------- what being blocked means

  /** The hashes tell emails apart by their normal form only. */
  ghost predicate HashesFit(h: Hashes, normal: string -> string) {
    && (forall e: string, f: string :: h.hmac(e) == h.hmac(f) <==> normal(e) == normal(f))
    && (forall e: string, f: string :: h.hmac(e) != h.legacy(f))
  }

  function EmailOf(e: Event): string {
    if e.Batch? then "" else e.email
  }

  /** The i-th event is a withdrawal that went through. */
  predicate WithdrewAt(h: Hashes, s: State, events: seq<Event>, i: nat)
    requires i < |events|
  {
    events[i].Withdraw? && ReplyTo(h, Run(h, s, events[..i], true), events[i]) == Done
  }

  /** Every withdrawal is in the table or expired, and every row is a withdrawal. */
  ghost predicate Recorded(h: Hashes, s: State, events: seq<Event>, clock: int) {
    var rows := RowsOf(Run(h, s, events, true).tables, WITHDRAWN_EMAILS);
    && (forall i :: 0 <= i < |events| && WithdrewAt(h, s, events, i) ==>
          if h.hmac(EmailOf(events[i])) in rows then events[i].now <= rows[h.hmac(EmailOf(events[i]))]
          else events[i].now <= clock - WITHDRAWN_EMAIL_BLOCK_DAYS * KstDate.DAY_MS)
    && (forall k :: k in rows ==>
          exists i ::
            && 0 <= i < |events| && WithdrewAt(h, s, events, i)
            && h.hmac(EmailOf(events[i])) == k && events[i].now == rows[k])
  }

  lemma WithdrewBefore(h: Hashes, s: State, events: seq<Event>, n: nat, i: nat)
    requires i < n <= |events|
    ensures WithdrewAt(h, s, events[..n], i) <==> WithdrewAt(h, s, events, i)
  {
    hide ReplyTo, Run;
    assert events[..n][..i] == events[..i];
  }

  /** What one event does to the rows of withdrawn emails. */
  lemma RowsChange(h: Hashes, s: State, e: Event)
    ensures var rows, after := RowsOf(s.tables, WITHDRAWN_EMAILS), RowsOf(Next(h, s, e, true).tables, WITHDRAWN_EMAILS);
            if e.Withdraw? && ReplyTo(h, s, e) == Done then after == rows[h.hmac(EmailOf(e)) := e.now]
            else if e.Batch? then after == rows || after == Purged(rows, Cutoff(WITHDRAWN_EMAILS, e.now))
            else after == rows
  {
    hide RunBatch, ReplyTo, KstDate.ToKstDateString, Purged;
    match e
    case Batch(now, setting) => BatchRows(s, now, setting, RowsFor(WITHDRAWN_EMAILS));
    case _ =>
  }

  lemma RecordedStep(h: Hashes, s: State, events: seq<Event>, end: int)
    requires events != [] && Clocked(events, end)
    requires var n := |events| - 1; Recorded(h, s, events[..n], events[n].now)
    ensures Recorded(h, s, events, events[|events| - 1].now)
  {
    hide ReplyTo, Next, WithdrewAt;
    var n := |events| - 1;
    var front, e := events[..n], events[n];
    var rows := RowsOf(Run(h, s, front, true).tables, WITHDRAWN_EMAILS);
    var after := RowsOf(Run(h, s, events, true).tables, WITHDRAWN_EMAILS);
    RowsChange(h, Run(h, s, front, true), e);
    assert WithdrewAt(h, s, events, n) <==> e.Withdraw? && ReplyTo(h, Run(h, s, front, true), e) == Done by {
      LastWithdrew(h, s, events);
    }
    forall i | 0 <= i < n
      ensures WithdrewAt(h, s, front, i) <==> WithdrewAt(h, s, events, i)
      ensures front[i] == events[i] && events[i].now <= e.now
    {
      WithdrewBefore(h, s, events, n, i);
    }
    forall k | k in after
      ensures exists i ::
                && 0 <= i < |events| && WithdrewAt(h, s, events, i)
                && h.hmac(EmailOf(events[i])) == k && events[i].now == after[k]
    {
      if !(WithdrewAt(h, s, events, n) && k == h.hmac(EmailOf(e))) {
        var i :| 0 <= i < n && WithdrewAt(h, s, front, i) && h.hmac(EmailOf(front[i])) == k && front[i].now == rows[k];
        assert events[i] == front[i];
      }
    }
  }

  lemma LastWithdrew(h: Hashes, s: State, events: seq<Event>)
    requires events != []
    ensures var n := |events| - 1;
            WithdrewAt(h, s, events, n) <==>
              events[n].Withdraw? && ReplyTo(h, Run(h, s, events[..n], true), events[n]) == Done
  {
    hide ReplyTo, Run;
  }

  lemma RecordedLater(h: Hashes, s: State, events: seq<Event>, clock: int, later: int)
    requires Recorded(h, s, events, clock) && clock <= later
    ensures Recorded(h, s, events, later)
  {
    hide WithdrewAt, Run;
  }

  lemma {:induction false} WithdrawalsAreRecorded(h: Hashes, s: State, events: seq<Event>, end: int)
    requires Clocked(events, end) && RowsOf(s.tables, WITHDRAWN_EMAILS) == map[]
    ensures Recorded(h, s, events, end)
    decreases |events|
  {
    hide Recorded, ReplyTo, Next, Run;
    if events == [] {
      NothingRecorded(h, s, end);
    } else {
      var n := |events| - 1;
      WithdrawalsAreRecorded(h, s, events[..n], events[n].now);
      RecordedStep(h, s, events, end);
      RecordedLater(h, s, events, events[n].now, end);
    }
  }

  lemma NothingRecorded(h: Hashes, s: State, clock: int)
    requires RowsOf(s.tables, WITHDRAWN_EMAILS) == map[]
    ensures Recorded(h, s, [], clock)
  {
  }

  lemma NoLegacyRow(h: Hashes, normal: string -> string, s: State, events: seq<Event>, clock: int, email: string)
    requires HashesFit(h, normal) && Recorded(h, s, events, clock)
    ensures h.legacy(email) !in RowsOf(Run(h, s, events, true).tables, WITHDRAWN_EMAILS)
  {
    hide WithdrewAt, Run;
    var rows := RowsOf(Run(h, s, events, true).tables, WITHDRAWN_EMAILS);
    forall k | k in rows
      ensures exists f: string :: h.hmac(f) == k
    {
      var i :| 0 <= i < |events| && h.hmac(EmailOf(events[i])) == k;
    }
  }

  /** An email is blocked exactly when an account with it withdrew less than 30
      days ago, whatever batches ran in between. */
  lemma BlockedMeansRecentWithdrawal(h: Hashes, normal: string -> string, s: State, events: seq<Event>, email: string,
                                    now: int)
    requires HashesFit(h, normal) && Clocked(events, now) && RowsOf(s.tables, WITHDRAWN_EMAILS) == map[]
    ensures IsBlocked(h, Run(h, s, events, true).tables, email, now)
       <==> exists i ::
              && 0 <= i < |events| && WithdrewAt(h, s, events, i) && normal(EmailOf(events[i])) == normal(email)
              && events[i].now > now - WITHDRAWN_EMAIL_BLOCK_DAYS * KstDate.DAY_MS
  {
    hide WithdrewAt, Run;
    WithdrawalsAreRecorded(h, s, events, now);
    var rows := RowsOf(Run(h, s, events, true).tables, WITHDRAWN_EMAILS);
    if BlocksAt(rows, h.hmac(email), now) {
      var i :| 0 <= i < |events| && WithdrewAt(h, s, events, i) && h.hmac(EmailOf(events[i])) == h.hmac(email)
               && events[i].now == rows[h.hmac(email)];
    }
    NoLegacyRow(h, normal, s, events, now, email);
  }
}
