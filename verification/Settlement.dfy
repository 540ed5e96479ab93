/** The weekly settlement of src/admin/admin-rewards.service.ts: several admins
    advance one week through its five steps, each from reads that may be stale,
    and record what was sent.  A request reads the step, the lottery and the
    ranking separately and then commits one transaction. */
module Settlement {
  import opened Options
  import opened Ranking
  import opened Rewards
  import Lottery

  const REWARD_RANK_LIMIT: nat := 3
  const STEP_RANK_CONFIRMED: nat := 3
  const STEP_FINAL: nat := 5

  // ---------------------------------------------------------------- rows

  datatype LotteryRow = LotteryRow(contestedUserIds: seq<UserId>, winnerUserIds: seq<UserId>)

  datatype SentRecord = SentRecord(rewardText: string, sentAt: int, adminId: UserId)

  datatype Reward = Reward(userId: UserId, sent: Option<SentRecord>)

  /** The rows of one week; rewards are keyed by their unique slot. */
  datatype WeekDb = WeekDb(step: Option<nat>, lottery: Option<LotteryRow>, rewards: map<nat, Reward>)

  /** A week without a row is at its first step. */
  function StepOf(db: WeekDb): nat {
    if db.step == None then 1 else db.step.value
  }

  /** What a request has read when it commits; `r` resolves `eligible`. */
  datatype Info = Info(step: nat, lottery: Option<LotteryRow>, eligible: seq<RankedRow>, r: Resolution)

  datatype Outcome = Committed | Rejected

  // ---------------------------------------------------------------- the transactions

  /** createMany with skipDuplicates: a slot is skipped if it, or its user, has a row. */
  function InsertRewards(rewards: map<nat, Reward>, slots: seq<Slot>): map<nat, Reward> {
    if slots == [] then rewards
    else
      var before := InsertRewards(rewards, slots[..|slots| - 1]);
      var last := slots[|slots| - 1];
      if last.slot in before || exists k :: k in before && before[k].userId == last.ranked.row.userId
      then before
      else before[last.slot := Reward(last.ranked.row.userId, None)]
  }

  ghost predicate DrawsNow(info: Info) {
    info.step == STEP_RANK_CONFIRMED && info.r.contestedGroup != [] && info.lottery == None
  }

  ghost function LotteryIds(info: Info, choices: seq<nat>): seq<UserId>
    requires Lottery.ValidChoices(choices, |info.r.contestedGroup|)
  {
    if DrawsNow(info) then Draw(info.r, choices)
    else if info.lottery == None then [] else info.lottery.value.winnerUserIds
  }

  /** Whether the transaction of `advance` runs to its end. */
  ghost predicate AdvanceCommits(db: WeekDb, info: Info) {
    && info.eligible != []
    && info.step < STEP_FINAL
    && StepOf(db) == info.step
    && (DrawsNow(info) ==> db.lottery == None)
    && (info.step == STEP_FINAL - 1 && info.r.contestedGroup != [] ==> info.lottery != None)
  }

  ghost function AdvanceTx(db: WeekDb, info: Info, choices: seq<nat>): WeekDb
    requires Lottery.ValidChoices(choices, |info.r.contestedGroup|)
  {
    if !AdvanceCommits(db, info) then db
    else
      WeekDb(Some(info.step + 1),
             if DrawsNow(info) then Some(LotteryRow(UsersOf(info.r.contestedGroup), Draw(info.r, choices)))
               else db.lottery,
             if info.step == STEP_FINAL - 1 then InsertRewards(db.rewards, Settle(info.r, LotteryIds(info, choices)))
             else db.rewards)
  }

  predicate SentCommits(db: WeekDb, slot: nat) {
    slot in db.rewards && db.rewards[slot].sent == None
  }

  function SentTx(db: WeekDb, slot: nat, record: SentRecord): WeekDb {
    if SentCommits(db, slot) then db.(rewards := db.rewards[slot := db.rewards[slot].(sent := Some(record))]) else db
  }

  /** The tables of one week, changed statement by statement. */
  class WeekTables {
    var step: Option<nat>
    var lottery: Option<LotteryRow>
    var rewards: map<nat, Reward>

    constructor ()
      ensures Db() == WeekDb(None, None, map[])
    {
      step, lottery, rewards := None, None, map[];
    }

    function Db(): WeekDb
      reads this
    {
      WeekDb(step, lottery, rewards)
    }

    /** The transaction of `advance`; a conflict rolls back what it wrote. */
    method Advance(info: Info, choices: seq<nat>) returns (outcome: Outcome)
      requires Resolves(info.eligible, REWARD_RANK_LIMIT, info.r)
      requires Lottery.ValidChoices(choices, |info.r.contestedGroup|)
      modifies this
      ensures Db() == AdvanceTx(old(Db()), info, choices)
      ensures outcome == Committed <==> old(AdvanceCommits(Db(), info))
    {
      if info.eligible == [] || info.step >= STEP_FINAL {
        return Rejected;
      }
      var stepBefore := step;
      if step == None {
        step := Some(1);
      }
      if step != Some(info.step) {
        step := stepBefore;
        return Rejected;
      }
      step := Some(info.step + 1);
      var lotteryWinnerIds := if info.lottery == None then [] else info.lottery.value.winnerUserIds;
      if info.step == STEP_RANK_CONFIRMED && info.r.contestedGroup != [] && info.lottery == None {
        var picked := Lottery.PickLotteryWinners(info.r.contestedGroup, info.r.remainingSlots, choices);
        lotteryWinnerIds := UsersOf(picked);
        if lottery != None {
          step := stepBefore;
          return Rejected;
        }
        lottery := Some(LotteryRow(UsersOf(info.r.contestedGroup), lotteryWinnerIds));
      }
      if info.step == STEP_FINAL - 1 {
        if info.r.contestedGroup != [] && info.lottery == None {
          step := stepBefore;
          return Rejected;
        }
        CreateRewards(AssignRewardSlots(info.r.clearWinners, info.r.contestedGroup, lotteryWinnerIds));
      }
      outcome := Committed;
    }

    method CreateRewards(slots: seq<Slot>)
      modifies this`rewards
      ensures rewards == InsertRewards(old(rewards), slots)
    {
      for i := 0 to |slots|
        invariant rewards == InsertRewards(old(rewards), slots[..i])
      {
        assert slots[..i + 1][..i] == slots[..i];
        var row := slots[i];
        var taken := set k | k in rewards && rewards[k].userId == row.ranked.row.userId;
        if row.slot !in rewards && taken == {} {
          assert forall k :: k in rewards && rewards[k].userId == row.ranked.row.userId ==> k in taken;
          rewards := rewards[row.slot := Reward(row.ranked.row.userId, None)];
        } else if row.slot !in rewards {
          var k :| k in taken;
        }
      }
      assert slots[..|slots|] == slots;
    }

    /** The transaction of `markSent` on the row of `slot`. */
    method MarkSent(slot: nat, record: SentRecord) returns (outcome: Outcome)
      modifies this
      ensures Db() == SentTx(old(Db()), slot, record)
      ensures outcome == Committed <==> old(SentCommits(Db(), slot))
      ensures outcome == Committed ==>
                slot in rewards && rewards[slot] == Reward(old(rewards)[slot].userId, Some(record))
      ensures rewards.Keys == old(rewards).Keys && step == old(step) && lottery == old(lottery)
      ensures forall k :: k in rewards && (k != slot || outcome == Rejected) ==> rewards[k] == old(rewards)[k]
    {
      if slot !in rewards || rewards[slot].sent != None {
        return Rejected;
      }
      rewards := rewards[slot := rewards[slot].(sent := Some(record))];
      outcome := Committed;
    }
  }

  // ---------------------------------------------------------------- interleavings

  /** What an unfinished `advance` has read so far, in whatever order. */
  datatype Reads = Reads(
    step: Option<nat>, lottery: Option<Option<LotteryRow>>, ranking: Option<(seq<RankedRow>, Resolution)>)

  /** The rows, the eligible ranking as scores and accounts stand, and the
      requests in flight. */
  datatype State = State(db: WeekDb, eligible: seq<RankedRow>, advances: map<nat, Reads>, sends: map<nat, nat>)

  datatype Event =
    | ScoresChange(eligible: seq<RankedRow>)
    | StartAdvance(req: nat)
    | ReadStep(req: nat)
    | ReadLottery(req: nat)
    | ReadRanking(req: nat, r: Resolution)
    | CommitAdvance(req: nat, choices: seq<nat>)
    | ReadReward(req: nat, slot: nat)
    | CommitSent(req: nat, record: SentRecord)

  ghost predicate Complete(seen: Reads) {
    seen.step != None && seen.lottery != None && seen.ranking != None
  }

  ghost function InfoOf(seen: Reads): Info
    requires Complete(seen)
  {
    Info(seen.step.value, seen.lottery.value, seen.ranking.value.0, seen.ranking.value.1)
  }

  /** Whether `e` is an advance whose transaction commits. */
  ghost predicate Advances(s: State, e: Event) {
    && e.CommitAdvance? && e.req in s.advances && Complete(s.advances[e.req])
    && var info := InfoOf(s.advances[e.req]);
    Lottery.ValidChoices(e.choices, |info.r.contestedGroup|) && AdvanceCommits(s.db, info)
  }

  ghost predicate Sends(s: State, e: Event) {
    e.CommitSent? && e.req in s.sends && SentCommits(s.db, s.sends[e.req])
  }

  ghost function Next(s: State, e: Event): State {
    match e
    case ScoresChange(eligible) =>
      if IsRanking(eligible) && DistinctUsers(eligible) then s.(eligible := eligible) else s
    case StartAdvance(req) =>
      if req in s.advances then s else s.(advances := s.advances[req := Reads(None, None, None)])
    case ReadStep(req) =>
      if req !in s.advances then s
      else s.(advances := s.advances[req := s.advances[req].(step := Some(StepOf(s.db)))])
    case ReadLottery(req) =>
      if req !in s.advances then s
      else s.(advances := s.advances[req := s.advances[req].(lottery := Some(s.db.lottery))])
    case ReadRanking(req, r) =>
      if req !in s.advances || !Resolves(s.eligible, REWARD_RANK_LIMIT, r) then s
      else s.(advances := s.advances[req := s.advances[req].(ranking := Some((s.eligible, r)))])
    case CommitAdvance(req, choices) =>
      if Advances(s, e) then s.(db := AdvanceTx(s.db, InfoOf(s.advances[req]), choices), advances := s.advances - {req})
      else s.(advances := s.advances - {req})
    case ReadReward(req, slot) =>
      if StepOf(s.db) >= STEP_FINAL && slot in s.db.rewards then s.(sends := s.sends[req := slot]) else s
    case CommitSent(req, record) =>
      if req in s.sends then s.(db := SentTx(s.db, s.sends[req], record), sends := s.sends - {req}) else s
  }

  ghost function Run(s: State, events: seq<Event>): State
    decreases |events|
  {
    if events == [] then s else Run(Next(s, events[0]), events[1..])
  }

  ghost predicate Start(s: State) {
    s.db == WeekDb(None, None, map[]) && s.advances == map[] && s.sends == map[]
    && IsRanking(s.eligible) && DistinctUsers(s.eligible)
  }

  /** The rankings that scores and accounts may change to include every one an
      admin's request computes from the week's points. */
  lemma ComputedRankingIsAdmissible(s: State, groups: seq<Group>, users: map<UserId, Account>)
    requires OneGroupPerUser(groups)
    ensures var eligible := EligibleRanking(Ranked(JoinRows(groups, users)));
            Next(s, ScoresChange(eligible)) == s.(eligible := eligible)
  {
    hide IsRanking, DistinctUsers, EligibleRanking, JoinRows, Ranked, OneGroupPerUser;
    EligibleRankingIsRanking(groups, users);
  }

  /** A request to record a sending, with nothing in between, is its transaction
      once the week is at its last step and the slot has a row, and nothing before. */
  lemma UndisturbedSend(s: State, req: nat, slot: nat, record: SentRecord)
    requires req !in s.sends
    ensures Next(Next(s, ReadReward(req, slot)), CommitSent(req, record))
         == if StepOf(s.db) >= 5 && slot in s.db.rewards then s.(db := SentTx(s.db, slot, record)) else s
  {
    assert s.sends[req := slot] - {req} == s.sends;
  }

  ghost predicate UsersDiffer(rewards: map<nat, Reward>) {
    forall j, k :: j in rewards && k in rewards && j != k ==> rewards[j].userId != rewards[k].userId
  }

  /** One row more: it is added for a free slot and a user without a row. */
  lemma InsertOneMeaning(rewards: map<nat, Reward>, slots: seq<Slot>)
    requires slots != []
    ensures var before, after := InsertRewards(rewards, slots[..|slots| - 1]), InsertRewards(rewards, slots);
            var last := slots[|slots| - 1];
            && (forall k :: k in before ==> k in after && after[k] == before[k])
            && (forall k :: k in after && k !in before ==>
                  k == last.slot && after[k] == Reward(last.ranked.row.userId, None))
            && (UsersDiffer(before) ==> UsersDiffer(after))
            && (last.slot in after || exists k :: k in after && after[k].userId == last.ranked.row.userId)
  {
  }

  lemma {:induction false} InsertKeepsRows(rewards: map<nat, Reward>, slots: seq<Slot>)
    ensures var after := InsertRewards(rewards, slots);
            && (forall k :: k in rewards ==> k in after && after[k] == rewards[k])
            && (UsersDiffer(rewards) ==> UsersDiffer(after))
    decreases |slots|
  {
    hide UsersDiffer;
    if slots != [] {
      InsertKeepsRows(rewards, slots[..|slots| - 1]);
      InsertOneMeaning(rewards, slots);
      hide InsertRewards;
    }
  }

  ghost predicate IsRowOf(k: nat, row: Reward, slots: seq<Slot>) {
    exists i :: 0 <= i < |slots| && slots[i].slot == k && row == Reward(slots[i].ranked.row.userId, None)
  }

  lemma RowOfMore(k: nat, row: Reward, slots: seq<Slot>)
    requires slots != []
    ensures IsRowOf(k, row, slots[..|slots| - 1]) ==> IsRowOf(k, row, slots)
    ensures k == slots[|slots| - 1].slot && row == Reward(slots[|slots| - 1].ranked.row.userId, None) ==>
              IsRowOf(k, row, slots)
  {
    var front := slots[..|slots| - 1];
    if IsRowOf(k, row, front) {
      var i :| 0 <= i < |front| && front[i].slot == k && row == Reward(front[i].ranked.row.userId, None);
      assert slots[i].slot == k;
    }
  }

  lemma {:induction false} InsertAddsGivenRows(rewards: map<nat, Reward>, slots: seq<Slot>, k: nat)
    requires k in InsertRewards(rewards, slots) && k !in rewards
    ensures IsRowOf(k, InsertRewards(rewards, slots)[k], slots)
    decreases |slots|
  {
    var front := slots[..|slots| - 1];
    InsertOneMeaning(rewards, slots);
    RowOfMore(k, InsertRewards(rewards, slots)[k], slots);
    hide InsertRewards, IsRowOf;
    if k in InsertRewards(rewards, front) {
      InsertAddsGivenRows(rewards, front, k);
    }
  }

  lemma {:induction false} InsertLeavesOutDuplicates(rewards: map<nat, Reward>, slots: seq<Slot>, i: nat)
    requires i < |slots|
    ensures var after := InsertRewards(rewards, slots);
            slots[i].slot in after || exists k :: k in after && after[k].userId == slots[i].ranked.row.userId
    decreases |slots|
  {
    var n := |slots| - 1;
    InsertOneMeaning(rewards, slots);
    hide InsertRewards;
    if i < n {
      InsertLeavesOutDuplicates(rewards, slots[..n], i);
    }
  }

  /** What skipDuplicates makes of an insert: rows that are there stay, new ones are
      as given and unsent, no user gets a second row, and a row is left out only
      for a slot or a user that has one. */
  lemma InsertRewardsMeaning(rewards: map<nat, Reward>, slots: seq<Slot>)
    ensures var after := InsertRewards(rewards, slots);
            && (forall k :: k in rewards ==> k in after && after[k] == rewards[k])
            && (forall k :: k in after && k !in rewards ==>
                  exists i :: 0 <= i < |slots| && slots[i].slot == k
                              && after[k] == Reward(slots[i].ranked.row.userId, None))
            && (UsersDiffer(rewards) ==> UsersDiffer(after))
            && (forall i :: 0 <= i < |slots| ==>
                  || slots[i].slot in after
                  || exists k :: k in after && after[k].userId == slots[i].ranked.row.userId)
  {
    hide InsertRewards, UsersDiffer;
    var after := InsertRewards(rewards, slots);
    InsertKeepsRows(rewards, slots);
    forall k | k in after && k !in rewards
      ensures IsRowOf(k, after[k], slots)
    {
      InsertAddsGivenRows(rewards, slots, k);
    }
    forall i | 0 <= i < |slots|
      ensures slots[i].slot in after || exists k :: k in after && after[k].userId == slots[i].ranked.row.userId
    {
      InsertLeavesOutDuplicates(rewards, slots, i);
    }
  }

  /** Lotteries exist from step 4 on and rewards from step 5 on; no request is
      ahead of the rows it read. */
  ghost predicate Inv(s: State) {
    && 1 <= StepOf(s.db) <= STEP_FINAL
    && (s.db.lottery != None ==> StepOf(s.db) >= 4)
    && (s.db.rewards != map[] ==> StepOf(s.db) == STEP_FINAL)
    && IsRanking(s.eligible) && DistinctUsers(s.eligible)
    && forall q :: q in s.advances ==> SoundReads(s.db, s.advances[q])
  }

  ghost predicate SoundReads(db: WeekDb, seen: Reads) {
    && (seen.step != None ==> 1 <= seen.step.value <= StepOf(db))
    && (seen.lottery != None && seen.lottery.value != None ==> db.lottery == seen.lottery.value)
    && (seen.ranking != None ==>
          && IsRanking(seen.ranking.value.0) && DistinctUsers(seen.ranking.value.0)
          && Resolves(seen.ranking.value.0, REWARD_RANK_LIMIT, seen.ranking.value.1))
  }

  /** What one event may do to the rows of the week. */
  ghost predicate Progress(before: WeekDb, after: WeekDb) {
    && (StepOf(after) == StepOf(before) || StepOf(after) == StepOf(before) + 1)
    && (before.lottery != None ==> after.lottery == before.lottery)
    && (after.lottery != before.lottery ==> StepOf(before) == 3 && StepOf(after) == 4)
    && (after.rewards.Keys != before.rewards.Keys ==> StepOf(before) == 4 && StepOf(after) == 5)
    && (forall k :: k in before.rewards && k in after.rewards ==>
          && after.rewards[k].userId == before.rewards[k].userId
          && (before.rewards[k].sent != None ==> after.rewards[k] == before.rewards[k]))
  }

  lemma AdvanceProgress(db: WeekDb, info: Info, choices: seq<nat>)
    requires Lottery.ValidChoices(choices, |info.r.contestedGroup|)
    requires db.rewards != map[] ==> StepOf(db) == STEP_FINAL
    ensures Progress(db, AdvanceTx(db, info, choices))
    ensures StepOf(AdvanceTx(db, info, choices)) == StepOf(db) + (if AdvanceCommits(db, info) then 1 else 0)
  {
    hide InsertRewards;
  }

  lemma ReadsStaySound(before: WeekDb, after: WeekDb, seen: Reads)
    requires SoundReads(before, seen) && Progress(before, after)
    ensures SoundReads(after, seen)
  {
  }

  /** Every event keeps the invariant, and changes the rows only as the five
      steps allow. */
  lemma StepKeepsInvariant(s: State, e: Event)
    requires Inv(s)
    ensures Inv(Next(s, e)) && Progress(s.db, Next(s, e).db)
    ensures StepOf(Next(s, e).db) == StepOf(s.db) + (if Advances(s, e) then 1 else 0)
  {
    hide InsertRewards, Resolves, IsRanking, DistinctUsers, AdvanceTx, AdvanceCommits;
    var t := Next(s, e);
    if Advances(s, e) {
      var info := InfoOf(s.advances[e.req]);
      AdvanceProgress(s.db, info, e.choices);
      AdvanceKeepsOrder(s.db, info, e.choices);
    }
    assert Progress(s.db, t.db);
    forall q | q in t.advances && q in s.advances
      ensures SoundReads(t.db, s.advances[q])
    {
      ReadsStaySound(s.db, t.db, s.advances[q]);
    }
  }

  lemma AdvanceKeepsOrder(db: WeekDb, info: Info, choices: seq<nat>)
    requires Lottery.ValidChoices(choices, |info.r.contestedGroup|) && AdvanceCommits(db, info)
    requires db.lottery != None ==> StepOf(db) >= 4
    requires db.rewards != map[] ==> StepOf(db) == STEP_FINAL
    ensures var after := AdvanceTx(db, info, choices);
            && StepOf(after) <= STEP_FINAL
            && (after.lottery != None ==> StepOf(after) >= 4)
            && (after.rewards != map[] ==> StepOf(after) == STEP_FINAL)
  {
    hide InsertRewards;
  }

  lemma {:induction false} RunKeepsInvariant(s: State, events: seq<Event>)
    requires Inv(s)
    ensures Inv(Run(s, events))
    ensures 1 <= StepOf(s.db) <= StepOf(Run(s, events).db) <= STEP_FINAL
    decreases |events|
  {
    hide Inv, Next;
    StepIsInRange(s);
    if events != [] {
      StepKeepsInvariant(s, events[0]);
      RunKeepsInvariant(Next(s, events[0]), events[1..]);
    }
  }

  lemma StepIsInRange(s: State)
    requires Inv(s)
    ensures 1 <= StepOf(s.db) <= STEP_FINAL
  {
  }

  // ---------------------------------------------------------------- whole runs

  ghost function CommittedAdvances(s: State, events: seq<Event>): nat
    decreases |events|
  {
    if events == [] then 0
    else (if Advances(s, events[0]) then 1 else 0) + CommittedAdvances(Next(s, events[0]), events[1..])
  }

  /** However many admins advance a week at once, the step is one more than the
      number of transactions that committed, so no step is skipped or repeated
      and at most four of them succeed. */
  lemma {:induction false} StepCountsAdvances(s: State, events: seq<Event>)
    requires Inv(s)
    ensures StepOf(Run(s, events).db) == StepOf(s.db) + CommittedAdvances(s, events)
    ensures CommittedAdvances(s, events) <= STEP_FINAL - StepOf(s.db)
    decreases |events|
  {
    hide Next, Advances;
    if events != [] {
      StepKeepsInvariant(s, events[0]);
      StepCountsAdvances(Next(s, events[0]), events[1..]);
    }
  }

  lemma StartIsInv(s: State)
    requires Start(s)
    ensures Inv(s) && StepOf(s.db) == 1
  {
  }

  /** Once drawn, the lottery of a week stands; once assigned, so do its slots
      and their users; once recorded, so does what was sent. */
  ghost predicate Settled(before: WeekDb, after: WeekDb) {
    && StepOf(before) <= StepOf(after)
    && (before.lottery != None ==> after.lottery == before.lottery)
    && (StepOf(before) == STEP_FINAL ==> after.rewards.Keys == before.rewards.Keys)
    && before.rewards.Keys <= after.rewards.Keys
    && (forall k :: k in before.rewards ==>
          && after.rewards[k].userId == before.rewards[k].userId
          && (before.rewards[k].sent != None ==> after.rewards[k] == before.rewards[k]))
  }

  lemma ProgressSettles(s: State, e: Event)
    requires Inv(s)
    ensures Settled(s.db, Next(s, e).db)
  {
    hide Next, SoundReads, IsRanking, DistinctUsers;
    StepKeepsInvariant(s, e);
  }

  lemma SettledComposes(a: WeekDb, b: WeekDb, c: WeekDb)
    requires Settled(a, b) && Settled(b, c) && StepOf(c) <= STEP_FINAL
    ensures Settled(a, c)
  {
    forall k | k in a.rewards
      ensures k in c.rewards && c.rewards[k].userId == a.rewards[k].userId
              && (a.rewards[k].sent != None ==> c.rewards[k] == a.rewards[k])
    {
      assert k in b.rewards;
    }
  }

  lemma {:induction false} DecisionsStand(s: State, events: seq<Event>)
    requires Inv(s)
    ensures Settled(s.db, Run(s, events).db)
    decreases |events|
  {
    hide Next, Settled;
    if events == [] {
      SettledReflexive(s.db);
    } else {
      var t := Next(s, events[0]);
      ProgressSettles(s, events[0]);
      StepKeepsInvariant(s, events[0]);
      DecisionsStand(t, events[1..]);
      RunKeepsInvariant(t, events[1..]);
      SettledComposes(s.db, t.db, Run(t, events[1..]).db);
    }
  }

  lemma SettledReflexive(db: WeekDb)
    ensures Settled(db, db)
  {
  }

  function SentSlots(rewards: map<nat, Reward>): set<nat> {
    set k | k in rewards && rewards[k].sent != None
  }

  ghost function CommittedSends(s: State, events: seq<Event>): nat
    decreases |events|
  {
    if events == [] then 0
    else (if Sends(s, events[0]) then 1 else 0) + CommittedSends(Next(s, events[0]), events[1..])
  }

  lemma SendCounts(s: State, e: Event)
    requires Inv(s)
    ensures |SentSlots(Next(s, e).db.rewards)| == |SentSlots(s.db.rewards)| + (if Sends(s, e) then 1 else 0)
  {
    hide Resolves, IsRanking, DistinctUsers, SoundReads, Settle;
    var before, after := s.db.rewards, Next(s, e).db.rewards;
    if Sends(s, e) {
      assert SentSlots(after) == SentSlots(before) + {s.sends[e.req]};
    } else if Advances(s, e) && StepOf(s.db) == 4 {
      assert before == map[];
      NewRewardsAreUnsent(map[], Settle(InfoOf(s.advances[e.req]).r, LotteryIds(InfoOf(s.advances[e.req]), e.choices)));
      assert SentSlots(after) == {} == SentSlots(before);
    } else {
      assert after == before;
    }
  }

  lemma {:induction false} NewRewardsAreUnsent(rewards: map<nat, Reward>, slots: seq<Slot>)
    requires forall k :: k in rewards ==> rewards[k].sent == None
    ensures forall k :: k in InsertRewards(rewards, slots) ==> InsertRewards(rewards, slots)[k].sent == None
  {
    if slots != [] {
      NewRewardsAreUnsent(rewards, slots[..|slots| - 1]);
    }
  }

  /** Every committed send fills a record of its own: with requests racing, each
      slot is recorded as sent at most once. */
  lemma {:induction false} EachSlotIsSentOnce(s: State, events: seq<Event>)
    requires Inv(s)
    ensures |SentSlots(Run(s, events).db.rewards)| == |SentSlots(s.db.rewards)| + CommittedSends(s, events)
    ensures |SentSlots(Run(s, events).db.rewards)| <= |Run(s, events).db.rewards|
    decreases |events|
  {
    hide Next, Sends, Inv;
    if events == [] {
      SubsetSize(SentSlots(s.db.rewards), s.db.rewards.Keys);
    } else {
      StepKeepsInvariant(s, events[0]);
      SendCounts(s, events[0]);
      EachSlotIsSentOnce(Next(s, events[0]), events[1..]);
    }
  }

  lemma {:induction false} SubsetSize(a: set<nat>, b: set<nat>)
    requires a <= b
    ensures |a| <= |b|
  {
    if a != {} {
      var x :| x in a;
      SubsetSize(a - {x}, b - {x});
    }
  }

  // ---------------------------------------------------------------- the rewards written

  /** The reward rows are exactly the slots of the settlement. */
  ghost predicate RowsAreSlots(rewards: map<nat, Reward>, slots: seq<Slot>) {
    && (forall k :: k in rewards <==> 1 <= k <= |slots|)
    && (forall i :: 0 <= i < |slots| ==>
         slots[i].slot == i + 1 && rewards[i + 1] == Reward(slots[i].ranked.row.userId, None))
  }

  lemma {:induction false} SlotsInsertWhole(slots: seq<Slot>)
    requires forall i :: 0 <= i < |slots| ==> slots[i].slot == i + 1
    requires DistinctUsers(Winners(slots))
    ensures RowsAreSlots(InsertRewards(map[], slots), slots)
  {
    if slots != [] {
      var n := |slots| - 1;
      assert Winners(slots[..n]) == Winners(slots)[..n];
      SlotsInsertWhole(slots[..n]);
      var before := InsertRewards(map[], slots[..n]);
      forall k | k in before
        ensures before[k].userId != slots[n].ranked.row.userId
      {
        assert slots[..n][k - 1] == slots[k - 1];
        assert Winners(slots)[k - 1].row.userId != Winners(slots)[n].row.userId;
      }
    }
  }

  lemma {:induction false} KeepStaysDistinct(rows: seq<RankedRow>, ids: set<UserId>)
    requires DistinctUsers(rows)
    ensures DistinctUsers(Keep(rows, ids))
  {
    if rows != [] {
      KeepStaysDistinct(rows[1..], ids);
      KeepMembers(rows[1..], ids);
    }
  }

  lemma WinnersAreDistinct(ranked: seq<RankedRow>, r: Resolution, ids: seq<UserId>)
    requires IsRanking(ranked) && DistinctUsers(ranked) && Resolves(ranked, REWARD_RANK_LIMIT, r)
    ensures DistinctUsers(Winners(Settle(r, ids)))
  {
    hide IsRanking, Resolves, Settle, Winners, Keep;
    SettlementOrder(ranked, REWARD_RANK_LIMIT, r, ids);
    KeepStaysDistinct(ranked, ToSet(UsersOf(Winners(Settle(r, ids)))));
  }

  function Places(eligible: seq<RankedRow>): nat {
    if REWARD_RANK_LIMIT <= |eligible| then REWARD_RANK_LIMIT else |eligible|
  }

  /** One reward in each of the slots 1 to min(3, n). */
  ghost predicate EverySlotFilled(db: WeekDb, eligible: seq<RankedRow>) {
    forall k :: k in db.rewards <==> 1 <= k <= Places(eligible)
  }

  /** The commit from step 4 to 5 writes one row per slot of its settlement: the
      slots run from 1 without gaps and no row is skipped as a duplicate. */
  lemma FinalCommitWritesSettlement(s: State, e: Event)
    requires Inv(s) && Advances(s, e) && StepOf(s.db) == 4
    ensures var info := InfoOf(s.advances[e.req]);
            RowsAreSlots(Next(s, e).db.rewards, Settle(info.r, LotteryIds(info, e.choices)))
  {
    hide IsRanking, Resolves, Settle, InsertRewards, Keep, DistinctUsers, Winners;
    var info := InfoOf(s.advances[e.req]);
    var ids := LotteryIds(info, e.choices);
    assert SoundReads(s.db, s.advances[e.req]);
    WinnersAreDistinct(info.eligible, info.r, ids);
    SettlementOrder(info.eligible, REWARD_RANK_LIMIT, info.r, ids);
    SlotsInsertWhole(Settle(info.r, ids));
  }

  // ---------------------------------------------------------------- the lottery on record

  /** The row of a draw among the contested group of a ranking: as many distinct
      winners as there were places. */
  ghost predicate IsDrawOf(row: LotteryRow, ranked: seq<RankedRow>, r: Resolution) {
    && IsRanking(ranked) && DistinctUsers(ranked) && Resolves(ranked, REWARD_RANK_LIMIT, r) && r.contestedGroup != []
    && row.contestedUserIds == UsersOf(r.contestedGroup)
    && |row.winnerUserIds| == r.remainingSlots && Lottery.Distinct(row.winnerUserIds)
    && forall id :: id in row.winnerUserIds ==> id in row.contestedUserIds
  }

  ghost predicate FairDraw(row: LotteryRow) {
    exists ranked, r :: IsDrawOf(row, ranked, r)
  }

  ghost predicate FairLottery(db: WeekDb) {
    db.lottery != None ==> FairDraw(db.lottery.value)
  }

  lemma DrawIsFair(r: Resolution, choices: seq<nat>, ranked: seq<RankedRow>)
    requires IsRanking(ranked) && DistinctUsers(ranked) && Resolves(ranked, REWARD_RANK_LIMIT, r)
             && r.contestedGroup != []
    requires Lottery.ValidChoices(choices, |r.contestedGroup|)
    ensures IsDrawOf(LotteryRow(UsersOf(r.contestedGroup), Draw(r, choices)), ranked, r)
  {
    hide Lottery.Shuffle, Boundary, IsRanking;
    var group := r.contestedGroup;
    var picked := Lottery.Take(Lottery.Shuffle(group, choices), r.remainingSlots);
    assert forall i :: 0 <= i < |group| ==> group[i] == ranked[|r.clearWinners| + i];
    Lottery.WinnersAreDistinctMembers(group, choices, r.remainingSlots);
    forall i, j | 0 <= i < j < |picked|
      ensures UsersOf(picked)[i] != UsersOf(picked)[j]
    {
      assert picked[i] in group && picked[j] in group;
    }
    forall id | id in UsersOf(picked)
      ensures id in UsersOf(group)
    {
      var k :| 0 <= k < |picked| && picked[k].row.userId == id;
      assert picked[k] in picked;
      var j :| 0 <= j < |group| && group[j] == picked[k];
      assert UsersOf(group)[j] == id;
    }
  }

  /** The lottery after an event is the one before it, or a draw among the
      contested group that the committing request had read. */
  lemma LotteryChanges(s: State, e: Event)
    requires Inv(s)
    ensures var l := Next(s, e).db.lottery;
            l == s.db.lottery
            || (&& Advances(s, e) && DrawsNow(InfoOf(s.advances[e.req])) && l != None
                && var info := InfoOf(s.advances[e.req]); IsDrawOf(l.value, info.eligible, info.r))
  {
    hide IsRanking, Resolves, InsertRewards, IsDrawOf, Draw, DistinctUsers;
    if Advances(s, e) && DrawsNow(InfoOf(s.advances[e.req])) {
      var info := InfoOf(s.advances[e.req]);
      assert SoundReads(s.db, s.advances[e.req]);
      DrawIsFair(info.r, e.choices, info.eligible);
    }
  }

  /** Over every run the lottery on record is a draw among the contested group of
      some ranking, with as many distinct winners as that left places. */
  lemma {:induction false} LotteryOnRecordIsFair(s: State, events: seq<Event>)
    requires Inv(s) && FairLottery(s.db)
    ensures FairLottery(Run(s, events).db)
    decreases |events|
  {
    hide Inv, Next, IsDrawOf, Advances, DrawsNow;
    if events != [] {
      StepKeepsInvariant(s, events[0]);
      LotteryChanges(s, events[0]);
      LotteryOnRecordIsFair(Next(s, events[0]), events[1..]);
    }
  }

  // ---------------------------------------------------------------- when every slot is filled

  /** What the final commit reads of the lottery is what is on record. */
  lemma FinalReads(s: State, e: Event)
    requires Inv(s) && Advances(s, e) && StepOf(s.db) == 4
    ensures var info := InfoOf(s.advances[e.req]);
            && Resolves(info.eligible, REWARD_RANK_LIMIT, info.r)
            && DistinctUsers(info.eligible) && IsRanking(info.eligible)
            && (info.r.contestedGroup != [] ==>
                  && s.db.lottery != None && info.lottery == s.db.lottery
                  && LotteryIds(info, e.choices) == s.db.lottery.value.winnerUserIds)
  {
    hide IsRanking, Resolves, DistinctUsers;
    assert SoundReads(s.db, s.advances[e.req]);
  }

  /** The exact condition: the final commit fills every slot exactly when nobody
      is contested, or as many of the winners on record have left the contested
      group as there are now fewer places than winners. */
  lemma FinalCommitFillsExactly(s: State, e: Event)
    requires Inv(s) && FairLottery(s.db) && Advances(s, e) && StepOf(s.db) == 4
    ensures var info := InfoOf(s.advances[e.req]);
            info.r.contestedGroup != [] ==> s.db.lottery != None
    ensures var info := InfoOf(s.advances[e.req]);
            EverySlotFilled(Next(s, e).db, info.eligible)
            <==> (info.r.contestedGroup == []
                  || (var winners := s.db.lottery.value.winnerUserIds;
                      |Departed(info.r, winners)| == |winners| - info.r.remainingSlots))
  {
    var info := InfoOf(s.advances[e.req]);
    var ids := LotteryIds(info, e.choices);
    hide IsRanking, Resolves, Settle, InsertRewards, Keep, Next, DistinctUsers, Inv, Advances, Departed,
         StillContesting, FairDraw;
    FinalReads(s, e);
    FinalCommitWritesSettlement(s, e);
    FullExactlyWhenDrawFits(info.eligible, REWARD_RANK_LIMIT, info.r, ids);
    SlotCountDecides(Next(s, e).db, info.eligible, Settle(info.r, ids));
    if info.r.contestedGroup == [] {
      NothingContested(info.eligible, info.r, ids);
    } else {
      WinnersOnRecordAreDistinct(s.db.lottery.value);
    }
  }

  lemma WinnersOnRecordAreDistinct(row: LotteryRow)
    requires FairDraw(row)
    ensures Lottery.Distinct(row.winnerUserIds)
  {
  }

  lemma SlotCountDecides(db: WeekDb, eligible: seq<RankedRow>, slots: seq<Slot>)
    requires RowsAreSlots(db.rewards, slots)
    ensures EverySlotFilled(db, eligible) <==> |slots| == Places(eligible)
  {
    if EverySlotFilled(db, eligible) {
      assert |slots| > 0 ==> |slots| in db.rewards;
      assert Places(eligible) > 0 ==> Places(eligible) in db.rewards;
    }
  }

  lemma NothingContested(ranked: seq<RankedRow>, r: Resolution, ids: seq<UserId>)
    requires Resolves(ranked, REWARD_RANK_LIMIT, r) && r.contestedGroup == []
    ensures |StillContesting(r, ids)| == r.remainingSlots
  {
    assert ToSet(UsersOf(r.contestedGroup)) == {};
  }

  /** While scores and accounts do not change: every ranking read is this one, the
      lottery was drawn from it, and at the end every slot is filled. */
  ghost predicate Unchanged(s: State, eligible: seq<RankedRow>, r: Resolution) {
    && s.eligible == eligible
    && (forall q :: q in s.advances && s.advances[q].ranking != None ==> s.advances[q].ranking == Some((eligible, r)))
    && (s.db.lottery != None ==> IsDrawOf(s.db.lottery.value, eligible, r))
    && (StepOf(s.db) == STEP_FINAL ==> EverySlotFilled(s.db, eligible))
  }

  lemma DrawnFromItself(row: LotteryRow, ranked: seq<RankedRow>, r: Resolution)
    requires IsDrawOf(row, ranked, r)
    ensures |Departed(r, row.winnerUserIds)| == |row.winnerUserIds| - r.remainingSlots
  {
    hide Resolves, IsRanking, DistinctUsers;
    assert Departed(r, row.winnerUserIds) == {};
  }

  lemma UnchangedRewards(s: State, e: Event, eligible: seq<RankedRow>, r: Resolution)
    requires Inv(s) && Unchanged(s, eligible, r)
    ensures StepOf(Next(s, e).db) == STEP_FINAL ==> EverySlotFilled(Next(s, e).db, eligible)
  {
    hide Inv, Next, Advances, IsDrawOf, Departed, Lottery.ValidChoices;
    StepKeepsInvariant(s, e);
    if Advances(s, e) && StepOf(s.db) == 4 {
      RankingRead(s, e, eligible, r);
      if s.db.lottery != None {
        DrawnFromItself(s.db.lottery.value, eligible, r);
      }
      FinalCommitFillsExactly(s, e);
    } else if StepOf(s.db) == STEP_FINAL {
      SlotsStay(s, e);
    }
  }

  lemma SlotsStay(s: State, e: Event)
    requires Inv(s) && StepOf(s.db) == STEP_FINAL
    ensures Next(s, e).db.rewards.Keys == s.db.rewards.Keys
  {
    hide Next, SoundReads, IsRanking, DistinctUsers;
    StepKeepsInvariant(s, e);
  }

  lemma RankingRead(s: State, e: Event, eligible: seq<RankedRow>, r: Resolution)
    requires Advances(s, e) && Unchanged(s, eligible, r)
    ensures e.CommitAdvance? && e.req in s.advances && Complete(s.advances[e.req])
    ensures InfoOf(s.advances[e.req]).eligible == eligible && InfoOf(s.advances[e.req]).r == r
  {
    hide IsDrawOf, EverySlotFilled;
  }

  lemma UnchangedStep(s: State, e: Event, eligible: seq<RankedRow>, r: Resolution)
    requires Inv(s) && Resolves(eligible, REWARD_RANK_LIMIT, r) && Unchanged(s, eligible, r) && !e.ScoresChange?
    ensures Unchanged(Next(s, e), eligible, r)
  {
    hide Inv, IsDrawOf, EverySlotFilled, Resolves, AdvanceTx, AdvanceCommits, SentTx, IsRanking, DistinctUsers;
    UnchangedRewards(s, e, eligible, r);
    LotteryChanges(s, e);
    if e.ReadRanking? && Resolves(s.eligible, REWARD_RANK_LIMIT, e.r) {
      ResolutionIsUnique(eligible, REWARD_RANK_LIMIT, r, e.r);
    }
    if Advances(s, e) {
      RankingRead(s, e, eligible, r);
    }
  }

  lemma {:induction false} UnchangedRun(s: State, events: seq<Event>, eligible: seq<RankedRow>, r: Resolution)
    requires Inv(s) && Resolves(eligible, REWARD_RANK_LIMIT, r) && Unchanged(s, eligible, r)
    requires forall e :: e in events ==> !e.ScoresChange?
    ensures Unchanged(Run(s, events), eligible, r)
    decreases |events|
  {
    hide Inv, Next, Unchanged, Resolves;
    if events != [] {
      StepKeepsInvariant(s, events[0]);
      UnchangedStep(s, events[0], eligible, r);
      UnchangedRun(Next(s, events[0]), events[1..], eligible, r);
    }
  }

  /** With scores and accounts as they were, whatever the admins' requests do,
      the rewards of a week that reaches its last step fill exactly the slots 1
      to min(3, n). */
  lemma UnchangedRankingFillsEverySlot(s: State, events: seq<Event>, r: Resolution)
    requires Start(s) && Resolves(s.eligible, REWARD_RANK_LIMIT, r)
    requires forall e :: e in events ==> !e.ScoresChange?
    ensures StepOf(Run(s, events).db) == STEP_FINAL ==> EverySlotFilled(Run(s, events).db, s.eligible)
  {
    StartIsInv(s);
    assert Unchanged(s, s.eligible, r);
    hide Inv, Run, Resolves, EverySlotFilled;
    UnchangedRun(s, events, s.eligible, r);
  }

  // ---------------------------------------------------------------- a suspended winner

  function TiedRow(userId: UserId): RankedRow {
    RankedRow(Row(userId, 1, 0, Account(true, false, false)), 1)
  }

  lemma {:induction false} RunOfConcat(s: State, a: seq<Event>, b: seq<Event>)
    ensures Run(s, a + b) == Run(Run(s, a), b)
    decreases |a|
  {
    hide Next;
    if a == [] {
      assert a + b == b;
    } else {
      assert (a + b)[0] == a[0] && (a + b)[1..] == a[1..] + b;
      RunOfConcat(Next(s, a[0]), a[1..], b);
    }
  }

  /** One whole request of an admin. */
  function WholeAdvance(req: nat, r: Resolution, choices: seq<nat>): seq<Event> {
    [StartAdvance(req), ReadStep(req), ReadLottery(req), ReadRanking(req, r), CommitAdvance(req, choices)]
  }

  ghost function AdvanceInfo(s: State, r: Resolution): Info {
    Info(StepOf(s.db), s.db.lottery, s.eligible, r)
  }

  lemma WholeAdvanceReads(s: State, req: nat, r: Resolution)
    requires req !in s.advances && Resolves(s.eligible, REWARD_RANK_LIMIT, r)
    ensures var t := Next(Next(Next(Next(s, StartAdvance(req)), ReadStep(req)), ReadLottery(req)), ReadRanking(req, r));
            t == s.(advances := s.advances[req := Reads(Some(StepOf(s.db)), Some(s.db.lottery), Some((s.eligible, r)))])
  {
    hide Resolves;
  }

  lemma WholeAdvanceRuns(s: State, req: nat, r: Resolution, choices: seq<nat>)
    requires req !in s.advances && Resolves(s.eligible, REWARD_RANK_LIMIT, r)
    requires Lottery.ValidChoices(choices, |r.contestedGroup|) && AdvanceCommits(s.db, AdvanceInfo(s, r))
    ensures Run(s, WholeAdvance(req, r, choices)) == s.(db := AdvanceTx(s.db, AdvanceInfo(s, r), choices))
  {
    WholeAdvanceReads(s, req, r);
    FiveEvents(s, StartAdvance(req), ReadStep(req), ReadLottery(req), ReadRanking(req, r), CommitAdvance(req, choices));
    hide AdvanceTx, AdvanceCommits, Resolves, Lottery.ValidChoices, Run;
    var seen := Reads(Some(StepOf(s.db)), Some(s.db.lottery), Some((s.eligible, r)));
    var t := s.(advances := s.advances[req := seen]);
    assert InfoOf(t.advances[req]) == AdvanceInfo(s, r);
    assert t.advances - {req} == s.advances;
  }

  lemma FiveEvents(s: State, a: Event, b: Event, c: Event, d: Event, e: Event)
    ensures Run(s, [a, b, c, d, e]) == Next(Next(Next(Next(Next(s, a), b), c), d), e)
  {
    hide Next;
    var s1 := Next(s, a);
    var s2 := Next(s1, b);
    var s3 := Next(s2, c);
    FirstEvent(s, a, [b, c, d, e]);
    FirstEvent(s1, b, [c, d, e]);
    FirstEvent(s2, c, [d, e]);
    FirstEvent(s3, d, [e]);
    OneEvent(Next(s3, d), e);
    assert [a] + [b, c, d, e] == [a, b, c, d, e] && [b] + [c, d, e] == [b, c, d, e];
    assert [c] + [d, e] == [c, d, e] && [d] + [e] == [d, e];
  }

  lemma FirstEvent(s: State, e: Event, rest: seq<Event>)
    ensures Run(s, [e] + rest) == Run(Next(s, e), rest)
  {
    hide Next;
    assert ([e] + rest)[1..] == rest;
  }

  /** A request that read the rows as they are takes the week one step on exactly
      when there are participants and steps left and, before the last step, a
      lottery where somebody is contested; otherwise it changes nothing. */
  lemma PresentReadsGoThrough(s: State, req: nat, r: Resolution, choices: seq<nat>)
    requires req !in s.advances && Resolves(s.eligible, REWARD_RANK_LIMIT, r)
    requires Lottery.ValidChoices(choices, |r.contestedGroup|)
    ensures var t := Run(s, WholeAdvance(req, r, choices));
            if s.eligible != [] && StepOf(s.db) < 5
              && !(StepOf(s.db) == 4 && r.contestedGroup != [] && s.db.lottery == None)
            then t.db.step == Some(StepOf(s.db) + 1) else t == s
  {
    WholeAdvanceReads(s, req, r);
    FiveEvents(s, StartAdvance(req), ReadStep(req), ReadLottery(req), ReadRanking(req, r), CommitAdvance(req, choices));
    hide Resolves, Lottery.ValidChoices, Run;
    var seen := Reads(Some(StepOf(s.db)), Some(s.db.lottery), Some((s.eligible, r)));
    var t := s.(advances := s.advances[req := seen]);
    assert InfoOf(t.advances[req]) == AdvanceInfo(s, r);
    assert t.advances - {req} == s.advances;
  }

  /** The record a request gives is the one stored, and no later event changes it. */
  lemma SentRecordStands(s: State, req: nat, record: SentRecord, events: seq<Event>)
    requires Inv(s) && Sends(s, CommitSent(req, record))
    ensures var rewards := Run(Next(s, CommitSent(req, record)), events).db.rewards;
            && s.sends[req] in rewards
            && rewards[s.sends[req]] == Reward(s.db.rewards[s.sends[req]].userId, Some(record))
  {
    StepKeepsInvariant(s, CommitSent(req, record));
    var t := Next(s, CommitSent(req, record));
    assert t.db.rewards[s.sends[req]] == Reward(s.db.rewards[s.sends[req]].userId, Some(record));
    hide Inv, Next, Run;
    DecisionsStand(t, events);
  }

  const TIED_FIVE: seq<RankedRow> := [TiedRow("a"), TiedRow("b"), TiedRow("c"), TiedRow("d"), TiedRow("e")]
  const TIED_FOUR: seq<RankedRow> := [TiedRow("a"), TiedRow("b"), TiedRow("d"), TiedRow("e")]
  const SWAP_NOTHING: seq<nat> := [0, 1, 2, 3, 4]

  /** Five users tie for three places, and the lottery draws a, b and c. */
  function DrawingRun(): seq<Event> {
    var five := Resolution([], TIED_FIVE, 3);
    WholeAdvance(0, five, SWAP_NOTHING) + WholeAdvance(1, five, SWAP_NOTHING) + WholeAdvance(2, five, SWAP_NOTHING)
  }

  /** Then c is suspended, and the last step is taken. */
  function SuspensionRun(): seq<Event> {
    DrawingRun() + [ScoresChange(TIED_FOUR)] + WholeAdvance(3, Resolution([], TIED_FOUR, 3), [0, 1, 2, 3])
  }

  lemma TiedGroups()
    ensures IsRanking(TIED_FIVE) && DistinctUsers(TIED_FIVE)
            && Resolves(TIED_FIVE, REWARD_RANK_LIMIT, Resolution([], TIED_FIVE, 3))
    ensures IsRanking(TIED_FOUR) && DistinctUsers(TIED_FOUR)
            && Resolves(TIED_FOUR, REWARD_RANK_LIMIT, Resolution([], TIED_FOUR, 3))
  {
    hide IsRanking;
    assert "a"[0] == 'a' && "b"[0] == 'b' && "c"[0] == 'c' && "d"[0] == 'd' && "e"[0] == 'e';
    TiedRowsAreRanked(TIED_FIVE);
    TiedRowsAreRanked(TIED_FOUR);
  }

  lemma {:induction false} NoSwaps<T>(s: seq<T>, choices: seq<nat>, k: nat)
    requires k <= |s| && k <= |choices| && forall i :: 0 <= i < k ==> choices[i] == i
    ensures Lottery.ShuffleDown(s, choices, k) == s
    decreases k
  {
    if k > 1 {
      NoSwaps(s, choices, k - 1);
      assert Lottery.Swap(s, k - 1, k - 1) == s;
    }
  }

  lemma DrawOfFive()
    ensures Draw(Resolution([], TIED_FIVE, 3), SWAP_NOTHING) == ["a", "b", "c"]
  {
    NoSwaps(TIED_FIVE, SWAP_NOTHING, 5);
  }

  ghost function Opening(): State {
    State(WeekDb(None, None, map[]), TIED_FIVE, map[], map[])
  }

  lemma ThreeAdvances()
    ensures Run(Opening(), DrawingRun())
         == Opening().(db := WeekDb(Some(4), Some(LotteryRow(UsersOf(TIED_FIVE), ["a", "b", "c"])), map[]))
  {
    hide Resolves, IsRanking, DistinctUsers, Draw, Next, Run, WholeAdvance;
    TiedGroups();
    DrawOfFive();
    var five := Resolution([], TIED_FIVE, 3);
    var w0, w1, w2 :=
      WholeAdvance(0, five, SWAP_NOTHING), WholeAdvance(1, five, SWAP_NOTHING), WholeAdvance(2, five, SWAP_NOTHING);
    var s0 := Opening();
    var s1 := s0.(db := WeekDb(Some(2), None, map[]));
    var s2 := s0.(db := WeekDb(Some(3), None, map[]));
    WholeAdvanceRuns(s0, 0, five, SWAP_NOTHING);
    WholeAdvanceRuns(s1, 1, five, SWAP_NOTHING);
    WholeAdvanceRuns(s2, 2, five, SWAP_NOTHING);
    RunOfConcat(s0, w0, w1);
    RunOfConcat(s0, w0 + w1, w2);
  }

  /** Without that a slot can stay empty: the run starts a week, and ends with
      rewards in the slots 1 and 2 for four contestants. */
  lemma SuspendedWinnerLeavesSlotEmpty()
    ensures Start(Opening())
    ensures var t := Run(Opening(), SuspensionRun());
            && StepOf(t.db) == STEP_FINAL && t.db.rewards.Keys == {1, 2}
            && t.eligible == TIED_FOUR && Places(t.eligible) == 3
  {
    TiedGroups();
    ThreeAdvances();
    hide Resolves, IsRanking, DistinctUsers, Draw, Run, WholeAdvance, Settle, InsertRewards;
    var before, four := DrawingRun(), Resolution([], TIED_FOUR, 3);
    var s3 := Run(Opening(), before);
    RunOfConcat(Opening(), before, [ScoresChange(TIED_FOUR)]);
    OneEvent(s3, ScoresChange(TIED_FOUR));
    RunOfConcat(Opening(), before + [ScoresChange(TIED_FOUR)], WholeAdvance(3, four, [0, 1, 2, 3]));
    WholeAdvanceRuns(s3.(eligible := TIED_FOUR), 3, four, [0, 1, 2, 3]);
    TwoSlots();
  }

  lemma OneEvent(s: State, e: Event)
    ensures Run(s, [e]) == Next(s, e)
  {
    hide Next;
    assert [e][1..] == [];
    assert Run(Next(s, e), []) == Next(s, e);
  }

  /** The settlement of the four for the winners a, b and c. */
  lemma TwoSlots()
    ensures InsertRewards(map[], Settle(Resolution([], TIED_FOUR, 3), ["a", "b", "c"])).Keys == {1, 2}
  {
    TiedGroups();
    hide IsRanking, Keep, ToSet, Resolves, DistinctUsers, InsertRewards;
    var r := Resolution([], TIED_FOUR, 3);
    TwoOfFour(ToSet(["a", "b", "c"]));
    WinnersAreDistinct(TIED_FOUR, r, ["a", "b", "c"]);
    SettlementOrder(TIED_FOUR, REWARD_RANK_LIMIT, r, ["a", "b", "c"]);
    SlotsInsertWhole(Settle(r, ["a", "b", "c"]));
    var rewards := InsertRewards(map[], Settle(r, ["a", "b", "c"]));
    assert forall k :: k in rewards <==> 1 <= k <= 2;
  }

  lemma TiedRowsAreRanked(rows: seq<RankedRow>)
    requires forall i :: 0 <= i < |rows| ==> rows[i] == TiedRow(rows[i].row.userId)
    ensures IsRanking(rows)
  {
    hide Higher;
    AllHigher(RowsOf(rows), 1);
  }

  lemma TwoOfFour(ids: set<UserId>)
    requires ids == ToSet(["a", "b", "c"])
    ensures Keep([TiedRow("a"), TiedRow("b"), TiedRow("d"), TiedRow("e")], ids) == [TiedRow("a"), TiedRow("b")]
  {
    var names := ["a", "b", "c"];
    assert "d"[0] == 'd' && "e"[0] == 'e';
    assert names[0] in ids && names[1] in ids && "d" !in ids && "e" !in ids;
    var none := Keep([], ids);
    assert Keep([TiedRow("e")], ids) == none;
    assert [TiedRow("d"), TiedRow("e")][1..] == [TiedRow("e")];
    assert Keep([TiedRow("d"), TiedRow("e")], ids) == none;
    assert [TiedRow("b"), TiedRow("d"), TiedRow("e")][1..] == [TiedRow("d"), TiedRow("e")];
    assert Keep([TiedRow("b"), TiedRow("d"), TiedRow("e")], ids) == [TiedRow("b")];
    assert [TiedRow("a"), TiedRow("b"), TiedRow("d"), TiedRow("e")][1..] == [TiedRow("b"), TiedRow("d"), TiedRow("e")];
  }
}
