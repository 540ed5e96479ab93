/** From a ranking to reward slots: resolveRewardWinners and assignRewardSlots of
    src/admin/admin-ranking.util.ts, put together with the ranking and the
    lottery. */
module Rewards {
  import opened Ranking
  import Lottery

  datatype Resolution = Resolution(clearWinners: seq<RankedRow>, contestedGroup: seq<RankedRow>, remainingSlots: nat)

  datatype Slot = Slot(ranked: RankedRow, slot: nat)

  // ---------------------------------------------------------------- tie groups

  /** Position `i` is where a tie group begins (or the list ends). */
  predicate Boundary(ranked: seq<RankedRow>, i: nat)
    requires i <= |ranked|
  {
    i == 0 || i == |ranked| || ranked[i - 1].rank != ranked[i].rank
  }

  /** Whole tie groups are cleared from the top while they fit; the first one
      that does not fit is contested for the places left. */
  ghost predicate Resolves(ranked: seq<RankedRow>, limit: nat, r: Resolution) {
    var c, m := |r.clearWinners|, |r.contestedGroup|;
    && c + m <= |ranked| && c <= limit && Boundary(ranked, c)
    && r.clearWinners == ranked[..c]
    && r.contestedGroup == ranked[c..c + m]
    && if m == 0 then
         r.remainingSlots == 0 && (c == |ranked| || c == limit)
       else
         && Boundary(ranked, c + m)
         && (forall i :: c < i < c + m ==> !Boundary(ranked, i))
         && r.remainingSlots == limit - c && 0 < r.remainingSlots < m
  }

  /** The description leaves no choice. */
  lemma ResolutionIsUnique(ranked: seq<RankedRow>, limit: nat, a: Resolution, b: Resolution)
    requires Resolves(ranked, limit, a) && Resolves(ranked, limit, b)
    ensures a == b
  {
    ResolutionIsNoShorter(ranked, limit, a, b);
    ResolutionIsNoShorter(ranked, limit, b, a);
    assert Boundary(ranked, |a.clearWinners| + |a.contestedGroup|);
    assert Boundary(ranked, |b.clearWinners| + |b.contestedGroup|);
  }

  /** `a` never stops clearing before `b` does: its next group does not fit. */
  lemma ResolutionIsNoShorter(ranked: seq<RankedRow>, limit: nat, a: Resolution, b: Resolution)
    requires Resolves(ranked, limit, a) && Resolves(ranked, limit, b)
    ensures |a.clearWinners| >= |b.clearWinners|
  {
    assert Boundary(ranked, |b.clearWinners|);
  }

  ghost function Concat(groups: seq<seq<RankedRow>>): seq<RankedRow> {
    if groups == [] then [] else Concat(groups[..|groups| - 1]) + groups[|groups| - 1]
  }

  ghost predicate Tied(group: seq<RankedRow>) {
    group != [] && forall i :: 0 <= i < |group| ==> group[i].rank == group[0].rank
  }

  /** Each group is tied, and consecutive groups have different ranks. */
  ghost predicate TieGroups(groups: seq<seq<RankedRow>>) {
    var n := |groups| - 1;
    groups == [] ||
    (&& TieGroups(groups[..n]) && Tied(groups[n])
     && (n > 0 ==> groups[n - 1] != [] && groups[n - 1][0].rank != groups[n][0].rank))
  }

  lemma StartGroup(groups: seq<seq<RankedRow>>, row: RankedRow)
    requires TieGroups(groups) && (groups != [] ==> groups[|groups| - 1][0].rank != row.rank)
    ensures TieGroups(groups + [[row]]) && Concat(groups + [[row]]) == Concat(groups) + [row]
  {
    assert (groups + [[row]])[..|groups|] == groups;
  }

  lemma {:induction false} TieGroupsPrefix(groups: seq<seq<RankedRow>>, g: nat)
    requires TieGroups(groups) && g <= |groups|
    ensures TieGroups(groups[..g])
  {
    if g < |groups| {
      TieGroupsPrefix(groups[..|groups| - 1], g);
      assert groups[..|groups| - 1][..g] == groups[..g];
    } else {
      assert groups[..g] == groups;
    }
  }

  /** Where group `g` lies in the list. */
  lemma {:induction false} GroupPlace(groups: seq<seq<RankedRow>>, g: nat)
    requires g < |groups|
    ensures Concat(groups[..g]) + groups[g] == Concat(groups[..g + 1])
    ensures Concat(groups[..g + 1]) <= Concat(groups)
    decreases |groups| - g
  {
    assert groups[..g + 1][..g] == groups[..g];
    if g + 1 < |groups| {
      GroupPlace(groups, g + 1);
    } else {
      assert groups[..g + 1] == groups;
    }
  }

  lemma PlacedGroup(all: seq<RankedRow>, before: seq<RankedRow>, group: seq<RankedRow>)
    requires before + group <= all && Tied(group)
    requires before != [] ==> before[|before| - 1].rank != group[0].rank
    ensures var start := |before|;
            all[start..start + |group|] == group && Boundary(all, start)
            && forall i :: start < i < start + |group| ==> !Boundary(all, i)
  {
    var start := |before|;
    assert forall k :: 0 <= k < start + |group| ==> all[k] == (before + group)[k];
    assert forall k :: start <= k < start + |group| ==> all[k] == group[k - start];
  }

  /** Groups begin at boundaries and have none inside. */
  lemma GroupBoundaries(groups: seq<seq<RankedRow>>, g: nat)
    requires TieGroups(groups) && g < |groups|
    ensures var start, end, all := |Concat(groups[..g])|, |Concat(groups[..g + 1])|, Concat(groups);
            end == start + |groups[g]| <= |all| && all[start..end] == groups[g]
            && Boundary(all, start)
            && forall i :: start < i < end ==> !Boundary(all, i)
  {
    assert g == 0 ==> Concat(groups[..g]) == [];
    hide Concat, Boundary;
    var before, group := Concat(groups[..g]), groups[g];
    GroupPlace(groups, g);
    TieGroupsPrefix(groups, g + 1);
    assert groups[..g + 1][..g] == groups[..g];
    if g > 0 {
      var prev := groups[g - 1];
      GroupPlace(groups, g - 1);
      assert before[|before| - 1] == prev[|prev| - 1];
      assert prev[|prev| - 1].rank == prev[0].rank;
    }
    PlacedGroup(Concat(groups), before, group);
  }

  lemma LastBoundary(groups: seq<seq<RankedRow>>, g: nat)
    requires TieGroups(groups) && g <= |groups|
    ensures |Concat(groups[..g])| <= |Concat(groups)|
    ensures Boundary(Concat(groups), |Concat(groups[..g])|)
    ensures Concat(groups)[..|Concat(groups[..g])|] == Concat(groups[..g])
  {
    if g < |groups| {
      GroupBoundaries(groups, g);
      GroupPlace(groups, g);
    } else {
      assert groups[..g] == groups;
    }
  }

  /** Stopping at a group that is larger than the places left. */
  lemma StopAtGroup(groups: seq<seq<RankedRow>>, g: nat, limit: nat)
    requires TieGroups(groups) && g < |groups|
    requires |Concat(groups[..g])| < limit < |Concat(groups[..g])| + |groups[g]|
    ensures var clear := Concat(groups[..g]);
            Resolves(Concat(groups), limit, Resolution(clear, groups[g], limit - |clear|))
  {
    hide Concat, TieGroups, Boundary;
    GroupBoundaries(groups, g);
    LastBoundary(groups, g);
    LastBoundary(groups, g + 1);
  }

  /** Stopping with every group cleared, or with no place left. */
  lemma StopAtLimit(groups: seq<seq<RankedRow>>, g: nat, limit: nat)
    requires TieGroups(groups) && g <= |groups| && |Concat(groups[..g])| <= limit
    requires g == |groups| || |Concat(groups[..g])| == limit
    ensures Resolves(Concat(groups), limit, Resolution(Concat(groups[..g]), [], 0))
  {
    hide Concat, TieGroups, Boundary;
    LastBoundary(groups, g);
    assert g == |groups| ==> groups[..g] == groups;
  }

  /** resolveRewardWinners. */
  method ResolveRewardWinners(ranked: seq<RankedRow>, limit: nat) returns (r: Resolution)
    ensures Resolves(ranked, limit, r)
  {
    var groups := GroupTies(ranked);
    var clearWinners, remaining := [], limit;
    var g := 0;
    assert Concat(groups[..0]) == [];
    hide Concat, TieGroups, Boundary, Resolves;
    while g < |groups| && remaining != 0
      invariant 0 <= g <= |groups|
      invariant clearWinners == Concat(groups[..g])
      invariant 0 <= remaining == limit - |clearWinners|
    {
      GroupPlace(groups, g);
      var group := groups[g];
      if |group| <= remaining {
        clearWinners := clearWinners + group;
        remaining := remaining - |group|;
      } else {
        StopAtGroup(groups, g, limit);
        return Resolution(clearWinners, group, remaining);
      }
      g := g + 1;
    }
    StopAtLimit(groups, g, limit);
    r := Resolution(clearWinners, [], 0);
  }

  lemma JoinGroup(groups: seq<seq<RankedRow>>, row: RankedRow)
    requires TieGroups(groups) && groups != [] && groups[|groups| - 1][0].rank == row.rank
    ensures var n := |groups| - 1;
            var joined := groups[n := groups[n] + [row]];
            TieGroups(joined) && Concat(joined) == Concat(groups) + [row]
  {
    var n := |groups| - 1;
    var joined := groups[n := groups[n] + [row]];
    assert joined[..n] == groups[..n];
    assert Concat(groups[..n]) + (groups[n] + [row]) == Concat(groups[..n]) + groups[n] + [row];
  }

  method GroupTies(ranked: seq<RankedRow>) returns (groups: seq<seq<RankedRow>>)
    ensures TieGroups(groups) && Concat(groups) == ranked
  {
    groups := [];
    assert Concat(groups) == [];
    hide Concat;
    for i := 0 to |ranked|
      invariant TieGroups(groups) && Concat(groups) == ranked[..i]
    {
      var row, n := ranked[i], |groups| - 1;
      if groups != [] && groups[n][0].rank == row.rank {
        JoinGroup(groups, row);
        groups := groups[n := groups[n] + [row]];
      } else {
        StartGroup(groups, row);
        groups := groups + [[row]];
      }
      assert ranked[..i + 1] == ranked[..i] + [row];
    }
    assert ranked[..|ranked|] == ranked;
  }

  // ---------------------------------------------------------------- slots

  function Keep(rows: seq<RankedRow>, ids: set<UserId>): seq<RankedRow> {
    if rows == [] then []
    else if rows[0].row.userId in ids then [rows[0]] + Keep(rows[1..], ids)
    else Keep(rows[1..], ids)
  }

  function UsersOf(rows: seq<RankedRow>): (ids: seq<UserId>)
    ensures |ids| == |rows|
    ensures forall i :: 0 <= i < |rows| ==> ids[i] == rows[i].row.userId
  {
    seq(|rows|, i requires 0 <= i < |rows| => rows[i].row.userId)
  }

  function ToSet(ids: seq<UserId>): set<UserId> {
    set id | id in ids
  }

  /** assignRewardSlots. */
  function AssignRewardSlots(clear: seq<RankedRow>, contested: seq<RankedRow>, lotteryWinnerIds: seq<UserId>)
    : (slots: seq<Slot>)
    ensures |slots| == |clear| + |Keep(contested, ToSet(lotteryWinnerIds))|
  {
    var winners := clear + Keep(contested, ToSet(lotteryWinnerIds));
    seq(|winners|, i requires 0 <= i < |winners| => Slot(winners[i], i + 1))
  }

  function Winners(slots: seq<Slot>): (rows: seq<RankedRow>)
    ensures |rows| == |slots|
  {
    seq(|slots|, i requires 0 <= i < |slots| => slots[i].ranked)
  }

  // ---------------------------------------------------------------- ranks and positions

  ghost predicate DistinctUsers(rows: seq<RankedRow>) {
    forall i, j :: 0 <= i < j < |rows| ==> rows[i].row.userId != rows[j].row.userId
  }

  /** A list in board order with competition ranks. */
  ghost predicate IsRanking(ranked: seq<RankedRow>) {
    Ordered(RowsOf(ranked)) && ranked == Annotate(RowsOf(ranked))
  }

  ghost predicate DistinctRows(rows: seq<Row>) {
    forall i, j :: 0 <= i < j < |rows| ==> rows[i].userId != rows[j].userId
  }

  lemma RankedIsRanking(rows: seq<Row>)
    requires DistinctRows(rows)
    ensures IsRanking(Ranked(rows)) && DistinctUsers(Ranked(rows))
  {
    hide Higher, Ordered;
    SortSorts(rows);
    SortKeepsDistinct(rows);
    assert RowsOf(Ranked(rows)) == Sort(rows);
  }

  lemma DistinctCons(x: Row, rows: seq<Row>)
    requires DistinctRows(rows)
    ensures (forall r :: r in rows ==> r.userId != x.userId) ==> DistinctRows([x] + rows)
  {
  }

  lemma FirstOfDistinct(rows: seq<Row>)
    requires DistinctRows(rows) && rows != []
    ensures DistinctRows(rows[1..]) && forall r :: r in rows[1..] ==> r in rows && r.userId != rows[0].userId
  {
  }

  lemma {:induction false} InsertKeepsDistinct(x: Row, rows: seq<Row>)
    requires DistinctRows(rows) && forall r :: r in rows ==> r.userId != x.userId
    ensures DistinctRows(Insert(x, rows)) && forall r :: r in Insert(x, rows) ==> r == x || r in rows
  {
    hide Above;
    if rows != [] && Above(rows[0], x) {
      InsertKeepsDistinct(x, rows[1..]);
      FirstOfDistinct(rows);
      DistinctCons(rows[0], Insert(x, rows[1..]));
    } else {
      DistinctCons(x, rows);
    }
  }

  lemma {:induction false} SortKeepsDistinct(rows: seq<Row>)
    requires DistinctRows(rows)
    ensures DistinctRows(Sort(rows)) && forall r :: r in Sort(rows) ==> r in rows
  {
    if rows != [] {
      SortKeepsDistinct(rows[1..]);
      InsertKeepsDistinct(rows[0], Sort(rows[1..]));
    }
  }

  lemma {:induction false} FilterKeepsDistinct(keep: Row -> bool, rows: seq<Row>)
    requires DistinctRows(rows)
    ensures DistinctRows(Filter(keep, rows))
  {
    if rows != [] {
      FilterKeepsDistinct(keep, rows[1..]);
      FilterIsSubset(keep, rows[1..]);
      FirstOfDistinct(rows);
      DistinctCons(rows[0], Filter(keep, rows[1..]));
    }
  }

  lemma {:induction false} JoinedRowsAreDistinct(groups: seq<Group>, users: map<UserId, Account>)
    requires OneGroupPerUser(groups)
    ensures DistinctRows(JoinRows(groups, users))
    decreases |groups|
  {
    if groups != [] {
      var front := groups[..|groups| - 1];
      JoinedRowsAreDistinct(front, users);
      forall r | r in JoinRows(front, users)
        ensures r.userId != groups[|groups| - 1].userId
      {
        JoinedRow(front, users, r);
      }
    }
  }

  /** What an admin's request ranks: no user twice, board order, competition ranks. */
  lemma EligibleRankingIsRanking(groups: seq<Group>, users: map<UserId, Account>)
    requires OneGroupPerUser(groups)
    ensures var eligible := EligibleRanking(Ranked(JoinRows(groups, users)));
            IsRanking(eligible) && DistinctUsers(eligible)
  {
    hide Ranked, JoinRows, Filter, IsRanking, OneGroupPerUser, EligibleRow;
    var rows := JoinRows(groups, users);
    JoinedRowsAreDistinct(groups, users);
    RankedIsRanking(rows);
    assert DistinctRows(RowsOf(Ranked(rows)));
    FilterKeepsDistinct(EligibleRow, RowsOf(Ranked(rows)));
    RankedIsRanking(Filter(EligibleRow, RowsOf(Ranked(rows))));
  }

  /** The groups and accounts a list of rows comes from. */
  function GroupsOf(rows: seq<Row>): (groups: seq<Group>)
    ensures |groups| == |rows|
  {
    seq(|rows|, i requires 0 <= i < |rows| => Group(rows[i].userId, rows[i].points, rows[i].lastActiveAt))
  }

  function AccountsOf(rows: seq<Row>): (users: map<UserId, Account>)
    ensures forall id :: id in users <==> exists r :: r in rows && r.userId == id
    ensures DistinctRows(rows) ==> forall r :: r in rows ==> users[r.userId] == r.account
  {
    if rows == [] then map[]
    else AccountsOf(rows[1..])[rows[0].userId := rows[0].account]
  }

  lemma {:induction false} JoinOfGroups(rows: seq<Row>, users: map<UserId, Account>)
    requires forall r :: r in rows ==> r.points > 0 && r.userId in users && users[r.userId] == r.account
    ensures JoinRows(GroupsOf(rows), users) == rows
    decreases |rows|
  {
    if rows != [] {
      var n := |rows| - 1;
      assert GroupsOf(rows)[..n] == GroupsOf(rows[..n]);
      JoinOfGroups(rows[..n], users);
      assert rows == rows[..n] + [rows[n]];
    }
  }

  lemma {:induction false} FilterKeepsAll(keep: Row -> bool, rows: seq<Row>)
    requires forall r :: r in rows ==> keep(r)
    ensures Filter(keep, rows) == rows
  {
    if rows != [] {
      FilterKeepsAll(keep, rows[1..]);
    }
  }

  /** ... and every such list of winnable rows is the ranking of some week. */
  lemma EveryRankingIsRead(eligible: seq<RankedRow>)
    requires IsRanking(eligible) && DistinctUsers(eligible)
    requires forall r :: r in RowsOf(eligible) ==> r.points > 0 && EligibleRow(r)
    ensures var groups, users := GroupsOf(RowsOf(eligible)), AccountsOf(RowsOf(eligible));
            OneGroupPerUser(groups) && eligible == EligibleRanking(Ranked(JoinRows(groups, users)))
  {
    hide EligibleRow, Ordered, Higher, AccountsOf, Sort;
    var rows := RowsOf(eligible);
    assert DistinctRows(rows);
    JoinOfGroups(rows, AccountsOf(rows));
    SortOfOrdered(rows);
    assert RowsOf(Ranked(rows)) == rows;
    FilterKeepsAll(EligibleRow, rows);
  }

  /** Tie groups are the groups of equal points, and the rank of a group is the
      position it begins at, counted from 1. */
  lemma RankIsPosition(ranked: seq<RankedRow>, i: nat)
    requires IsRanking(ranked) && i < |ranked|
    ensures ranked[i].rank <= i + 1
    ensures Boundary(ranked, i) ==> ranked[i].rank == i + 1
    ensures i > 0 ==> (Boundary(ranked, i) <==> ranked[i - 1].row.points != ranked[i].row.points)
    decreases i
  {
    hide Higher;
    var sorted := RowsOf(ranked);
    assert forall k :: 0 <= k < |ranked| ==> ranked[k] == RankedRow(sorted[k], 1 + Higher(sorted, sorted[k].points));
    if i == 0 || sorted[i - 1].points != sorted[i].points {
      HigherIsGroupStart(sorted, i);
    }
    if i > 0 {
      RankIsPosition(ranked, i - 1);
    }
  }

  lemma {:induction false} RanksGrow(ranked: seq<RankedRow>, i: nat, j: nat)
    requires IsRanking(ranked) && i <= j < |ranked|
    ensures ranked[i].rank <= ranked[j].rank
    decreases j
  {
    hide IsRanking;
    if i < j {
      RanksGrow(ranked, i, j - 1);
      RankIsPosition(ranked, j);
      RankIsPosition(ranked, j - 1);
    }
  }

  lemma {:induction false} SameGroup(ranked: seq<RankedRow>, c: nat, i: nat)
    requires c <= i < |ranked| && forall k :: c < k <= i ==> !Boundary(ranked, k)
    ensures ranked[i].rank == ranked[c].rank
  {
    if c < i {
      SameGroup(ranked, c, i - 1);
      assert !Boundary(ranked, i);
    }
  }

  /** The numbers from 0 to n - 1. */
  ghost function UpTo(n: nat): (ks: set<int>)
    ensures |ks| == n && forall k :: k in ks <==> 0 <= k < n
  {
    if n == 0 then {} else UpTo(n - 1) + {n - 1}
  }

  lemma SubsetIsSmaller(a: set<int>, b: set<int>)
    requires a <= b
    ensures |a| <= |b|
  {
    assert b == a + (b - a);
  }

  lemma SizeAgainst(ks: set<int>, n: nat)
    ensures (forall k :: k in ks ==> 0 <= k < n) ==> |ks| <= n
    ensures (forall k :: 0 <= k < n ==> k in ks) ==> |ks| >= n
  {
    if forall k :: k in ks ==> 0 <= k < n {
      SubsetIsSmaller(ks, UpTo(n));
    }
    if forall k :: 0 <= k < n ==> k in ks {
      SubsetIsSmaller(UpTo(n), ks);
    }
  }

  /** Points fall along a ranking, and strictly at a boundary. */
  lemma RowsFall(ranked: seq<RankedRow>, i: nat, j: nat)
    requires IsRanking(ranked) && i <= j < |ranked|
    ensures ranked[i].row.points >= ranked[j].row.points
    ensures i < j && Boundary(ranked, j) ==> ranked[i].row.points > ranked[j].row.points
  {
    RankingInColumns(ranked);
    if i < j {
      assert Precedes(ranked[i].row, ranked[j].row) && Precedes(ranked[i].row, ranked[j - 1].row);
      RankIsPosition(ranked, j);
      assert Precedes(ranked[j - 1].row, ranked[j].row);
    }
    hide IsRanking, Boundary;
  }

  /** On the two sides of a boundary. */
  lemma AcrossBoundary(ranked: seq<RankedRow>, b: nat, i: nat, k: nat)
    requires IsRanking(ranked) && i < |ranked| && k < |ranked| && i < b <= k && Boundary(ranked, b)
    ensures ranked[i].row.points > ranked[k].row.points
  {
    hide IsRanking, Boundary;
    RowsFall(ranked, i, b);
    RowsFall(ranked, b, k);
  }

  /** The places with more points than the i-th row, and with at least as many. */
  function MoreThan(ranked: seq<RankedRow>, i: nat): set<int>
    requires i < |ranked|
  {
    set k | 0 <= k < |ranked| && ranked[k].row.points > ranked[i].row.points
  }

  function AtLeast(ranked: seq<RankedRow>, i: nat): set<int>
    requires i < |ranked|
  {
    set k | 0 <= k < |ranked| && ranked[k].row.points >= ranked[i].row.points
  }

  /** How many have more points than the i-th row, and at least as many, against a
      boundary on either side of it. */
  lemma CountsAtBoundary(ranked: seq<RankedRow>, b: nat, i: nat)
    requires IsRanking(ranked) && i < |ranked| && b <= |ranked| && Boundary(ranked, b)
    ensures i < b ==> |AtLeast(ranked, i)| <= b
    ensures b <= i ==> |MoreThan(ranked, i)| >= b && |AtLeast(ranked, i)| > b
  {
    hide IsRanking, Boundary;
    var more, atLeast := MoreThan(ranked, i), AtLeast(ranked, i);
    if i < b {
      forall k | k in atLeast
        ensures 0 <= k < b
      {
        if k >= b {
          AcrossBoundary(ranked, b, i, k);
        }
      }
      SizeAgainst(atLeast, b);
    } else {
      forall k | 0 <= k < b
        ensures k in more
      {
        AcrossBoundary(ranked, b, k, i);
      }
      SizeAgainst(more, b);
      forall k | 0 <= k < i + 1
        ensures k in atLeast
      {
        RowsFall(ranked, k, i);
      }
      SizeAgainst(atLeast, i + 1);
    }
  }

  /** A row above, in and below the contested group. */
  lemma CountsOfRow(ranked: seq<RankedRow>, limit: nat, r: Resolution, i: nat)
    requires IsRanking(ranked) && Resolves(ranked, limit, r) && i < |ranked|
    ensures var c, m, more, atLeast :=
              |r.clearWinners|, |r.contestedGroup|, |MoreThan(ranked, i)|, |AtLeast(ranked, i)|;
            && (i < c ==> atLeast <= limit)
            && (c <= i < c + m ==> more < limit < atLeast)
            && (c + m <= i ==> limit <= more && limit < atLeast)
  {
    hide *;
    var c, m := |r.clearWinners|, |r.contestedGroup|;
    ResolutionNumbers(ranked, limit, r);
    if i < c {
      CountsAtBoundary(ranked, c, i);
    } else if i < c + m {
      GroupIsContested(ranked, limit, r, i);
    } else {
      CountsAtBoundary(ranked, c + m, i);
    }
  }

  /** Who wins outright and who is drawn for, by points alone: a row is cleared
      when it and all that have as many points or more fit the places, and it is
      contested when the rows with more points leave places, but not enough for
      all that have as many. */
  lemma ClearedAndContestedExactly(ranked: seq<RankedRow>, limit: nat, r: Resolution, i: nat)
    requires IsRanking(ranked) && Resolves(ranked, limit, r) && i < |ranked|
    ensures var more := |set k | 0 <= k < |ranked| && ranked[k].row.points > ranked[i].row.points|;
            var atLeast := |set k | 0 <= k < |ranked| && ranked[k].row.points >= ranked[i].row.points|;
            && (i < |r.clearWinners| <==> atLeast <= limit)
            && (|r.clearWinners| <= i < |r.clearWinners| + |r.contestedGroup| <==> more < limit < atLeast)
    ensures i < |r.clearWinners| ==> r.clearWinners[i] == ranked[i]
    ensures 0 <= i - |r.clearWinners| < |r.contestedGroup| ==> r.contestedGroup[i - |r.clearWinners|] == ranked[i]
  {
    hide IsRanking, Resolves;
    ResolutionRows(ranked, limit, r, i);
    CountsOfRow(ranked, limit, r, i);
  }

  lemma ResolutionNumbers(ranked: seq<RankedRow>, limit: nat, r: Resolution)
    requires Resolves(ranked, limit, r)
    ensures var c, m := |r.clearWinners|, |r.contestedGroup|;
            && c <= limit && c + m <= |ranked| && Boundary(ranked, c) && Boundary(ranked, c + m)
            && (if m == 0 then c == |ranked| || c == limit else c < limit < c + m)
  {
  }

  lemma ResolutionRows(ranked: seq<RankedRow>, limit: nat, r: Resolution, i: nat)
    requires Resolves(ranked, limit, r) && i < |ranked|
    ensures i < |r.clearWinners| ==> r.clearWinners[i] == ranked[i]
    ensures 0 <= i - |r.clearWinners| < |r.contestedGroup| ==> r.contestedGroup[i - |r.clearWinners|] == ranked[i]
  {
  }

  lemma GroupIsContested(ranked: seq<RankedRow>, limit: nat, r: Resolution, i: nat)
    requires IsRanking(ranked) && Resolves(ranked, limit, r)
    requires |r.clearWinners| <= i < |r.clearWinners| + |r.contestedGroup|
    ensures |MoreThan(ranked, i)| <= |r.clearWinners|
    ensures |AtLeast(ranked, i)| >= |r.clearWinners| + |r.contestedGroup|
  {
    var c, m, more, atLeast := |r.clearWinners|, |r.contestedGroup|, MoreThan(ranked, i), AtLeast(ranked, i);
    hide IsRanking, Boundary;
    SamePoints(ranked, r, limit, c, i);
    forall k | k in more
      ensures 0 <= k < c
    {
      if k >= c {
        RowsFall(ranked, c, k);
      }
    }
    SizeAgainst(more, c);
    SamePoints(ranked, r, limit, i, c + m - 1);
    forall k | 0 <= k < c + m
      ensures k in atLeast
    {
      RowsFall(ranked, k, c + m - 1);
    }
    SizeAgainst(atLeast, c + m);
  }

  /** The clear winners and the contested group are exactly the rows ranked
      within the limit. */
  lemma TopRanksAreClearOrContested(ranked: seq<RankedRow>, limit: nat, r: Resolution, i: nat)
    requires IsRanking(ranked) && Resolves(ranked, limit, r) && i < |ranked|
    ensures ranked[i].rank <= limit <==> i < |r.clearWinners| + |r.contestedGroup|
  {
    hide IsRanking;
    var c, m := |r.clearWinners|, |r.contestedGroup|;
    RankIsPosition(ranked, i);
    if i >= c {
      RankIsPosition(ranked, c);
      RanksGrow(ranked, c, i);
      if i < c + m {
        SameGroup(ranked, c, i);
      } else if m > 0 {
        RankIsPosition(ranked, c + m);
        RanksGrow(ranked, c + m, i);
      }
    }
  }

  // ---------------------------------------------------------------- the settlement

  lemma {:induction false} KeepOfConcat(a: seq<RankedRow>, b: seq<RankedRow>, ids: set<UserId>)
    ensures Keep(a + b, ids) == Keep(a, ids) + Keep(b, ids)
  {
    if a == [] {
      assert a + b == b;
    } else {
      assert (a + b)[1..] == a[1..] + b && (a + b)[0] == a[0];
      KeepOfConcat(a[1..], b, ids);
      assert [a[0]] + (Keep(a[1..], ids) + Keep(b, ids)) == [a[0]] + Keep(a[1..], ids) + Keep(b, ids);
    }
  }

  lemma {:induction false} KeepMembers(rows: seq<RankedRow>, ids: set<UserId>)
    ensures forall r :: r in Keep(rows, ids) <==> r in rows && r.row.userId in ids
    ensures (forall r :: r in rows ==> r.row.userId in ids) ==> Keep(rows, ids) == rows
    ensures (forall r :: r in rows ==> r.row.userId !in ids) ==> Keep(rows, ids) == []
  {
    if rows != [] {
      KeepMembers(rows[1..], ids);
      assert rows == [rows[0]] + rows[1..];
    }
  }

  /** Of rows of distinct users, as many are kept as there are names to keep. */
  lemma {:induction false} KeepCounts(rows: seq<RankedRow>, ids: set<UserId>)
    requires DistinctUsers(rows) && ids <= ToSet(UsersOf(rows))
    ensures |Keep(rows, ids)| == |ids|
  {
    if rows == [] {
      assert ids == {};
    } else {
      var first := rows[0].row.userId;
      forall id | id in ids - {first}
        ensures id in ToSet(UsersOf(rows[1..]))
      {
        var k :| 0 <= k < |rows| && UsersOf(rows)[k] == id;
        assert UsersOf(rows[1..])[k - 1] == id;
      }
      KeepCounts(rows[1..], ids - {first});
      assert forall r :: r in rows[1..] ==> r.row.userId != first;
      KeepIgnores(rows[1..], ids, first);
    }
  }

  lemma {:induction false} KeepIgnores(rows: seq<RankedRow>, ids: set<UserId>, id: UserId)
    requires forall r :: r in rows ==> r.row.userId != id
    ensures Keep(rows, ids) == Keep(rows, ids - {id})
  {
    if rows != [] {
      KeepIgnores(rows[1..], ids, id);
    }
  }

  /** The users drawn are as many distinct contestants as there are places. */
  lemma DrawnUsers(contested: seq<RankedRow>, choices: seq<nat>, places: nat)
    requires DistinctUsers(contested) && Lottery.ValidChoices(choices, |contested|) && places <= |contested|
    ensures var ids := ToSet(UsersOf(Lottery.Take(Lottery.Shuffle(contested, choices), places)));
            |ids| == places && ids <= ToSet(UsersOf(contested))
  {
    var drawn := Lottery.Take(Lottery.Shuffle(contested, choices), places);
    Lottery.WinnersAreDistinctMembers(contested, choices, places);
    forall id | id in UsersOf(drawn)
      ensures id in UsersOf(contested)
    {
      var k :| 0 <= k < |drawn| && drawn[k].row.userId == id;
      assert drawn[k] in contested;
      var j :| 0 <= j < |contested| && contested[j] == drawn[k];
      assert UsersOf(contested)[j] == id;
    }
    DistinctIds(UsersOf(drawn)) by {
      forall i, j | 0 <= i < j < |drawn|
        ensures UsersOf(drawn)[i] != UsersOf(drawn)[j]
      {
        assert drawn[i] in contested && drawn[j] in contested;
      }
    }
  }

  lemma {:induction false} DistinctIds(ids: seq<UserId>)
    requires Lottery.Distinct(ids)
    ensures |ToSet(ids)| == |ids|
  {
    if ids != [] {
      DistinctIds(ids[1..]);
      assert ToSet(ids) == {ids[0]} + ToSet(ids[1..]);
    }
  }

  /** The slots a settlement gives out for a ranking, its resolution and a draw. */
  function Settle(r: Resolution, lotteryWinnerIds: seq<UserId>): seq<Slot> {
    AssignRewardSlots(r.clearWinners, r.contestedGroup, lotteryWinnerIds)
  }

  ghost function Draw(r: Resolution, choices: seq<nat>): seq<UserId>
    requires Lottery.ValidChoices(choices, |r.contestedGroup|)
  {
    UsersOf(Lottery.Take(Lottery.Shuffle(r.contestedGroup, choices), r.remainingSlots))
  }

  lemma SettleShape(r: Resolution, ids: seq<UserId>)
    ensures Winners(Settle(r, ids)) == r.clearWinners + Keep(r.contestedGroup, ToSet(ids))
    ensures forall i :: 0 <= i < |Settle(r, ids)| ==> Settle(r, ids)[i].slot == i + 1
  {
    hide Keep;
  }

  /** More points come first, and as many in the order they were reached. */
  predicate Precedes(a: Row, b: Row) {
    a.points > b.points || (a.points == b.points && a.lastActiveAt <= b.lastActiveAt)
  }

  ghost predicate InColumns(rows: seq<RankedRow>) {
    forall i, j :: 0 <= i < j < |rows| ==> Precedes(rows[i].row, rows[j].row)
  }

  lemma RankingInColumns(ranked: seq<RankedRow>)
    requires IsRanking(ranked)
    ensures InColumns(ranked)
  {
    hide Ordered, Above, Annotate;
    OrderInColumns(RowsOf(ranked));
    assert forall i :: 0 <= i < |ranked| ==> RowsOf(ranked)[i] == ranked[i].row;
  }

  lemma {:induction false} KeepInColumns(rows: seq<RankedRow>, ids: set<UserId>)
    requires InColumns(rows)
    ensures InColumns(Keep(rows, ids))
  {
    hide Precedes;
    if rows != [] {
      var first, rest := rows[0], rows[1..];
      assert forall i :: 0 <= i < |rest| ==> rest[i] == rows[i + 1];
      KeepInColumns(rest, ids);
      KeepMembers(rest, ids);
      forall k | k in Keep(rest, ids)
        ensures Precedes(first.row, k.row)
      {
        var i :| 0 <= i < |rest| && rest[i] == k;
      }
      ConsInColumns(first, Keep(rest, ids));
    }
  }

  lemma ConsInColumns(first: RankedRow, rest: seq<RankedRow>)
    requires InColumns(rest) && forall k :: k in rest ==> Precedes(first.row, k.row)
    ensures InColumns([first] + rest)
  {
    hide Precedes;
  }

  lemma SlotsInColumns(slots: seq<Slot>)
    requires InColumns(Winners(slots))
    ensures forall i, j :: 0 <= i < j < |slots| ==>
              var a, b := slots[i].ranked.row, slots[j].ranked.row;
              a.points > b.points || (a.points == b.points && a.lastActiveAt <= b.lastActiveAt)
  {
    assert forall i :: 0 <= i < |slots| ==> Winners(slots)[i] == slots[i].ranked;
  }

  /** Who wins, whatever list of lottery winners is on record: consecutive slots
      in board order, and nobody outside has strictly more points than a winner. */
  lemma SettlementOrder(ranked: seq<RankedRow>, limit: nat, r: Resolution, ids: seq<UserId>)
    requires IsRanking(ranked) && DistinctUsers(ranked) && Resolves(ranked, limit, r)
    ensures var slots := Settle(r, ids);
            && (forall i :: 0 <= i < |slots| ==> slots[i].slot == i + 1)
            && Winners(slots) == Keep(ranked, ToSet(UsersOf(Winners(slots))))
            && (forall w, l :: w in Winners(slots) && l in ranked && l !in Winners(slots)
                  ==> l.row.points <= w.row.points)
    ensures var slots := Settle(r, ids);
            forall i, j :: 0 <= i < j < |slots| ==>
              var a, b := slots[i].ranked.row, slots[j].ranked.row;
              a.points > b.points || (a.points == b.points && a.lastActiveAt <= b.lastActiveAt)
  {
    hide IsRanking, Settle, Winners, Keep, Boundary, DistinctUsers, InColumns;
    SettleShape(r, ids);
    RankingInColumns(ranked);
    KeepInColumns(ranked, ToSet(UsersOf(Winners(Settle(r, ids)))));
    KeepMembers(r.contestedGroup, ToSet(ids));
    var c, m := |r.clearWinners|, |r.contestedGroup|;
    var kept := Keep(r.contestedGroup, ToSet(ids));
    WinnersInBoardOrder(ranked, c, m, kept, ToSet(ids));
    SlotsInColumns(Settle(r, ids));
    forall w, l | w in r.clearWinners + kept && l in ranked && l !in r.clearWinners + kept
      ensures l.row.points <= w.row.points
    {
      LoserHasNoMore(ranked, limit, r, kept, w, l);
    }
  }

  lemma LoserHasNoMore(ranked: seq<RankedRow>, limit: nat, r: Resolution, kept: seq<RankedRow>, w: RankedRow,
                       l: RankedRow)
    requires IsRanking(ranked) && Resolves(ranked, limit, r)
    requires forall k :: k in kept ==> k in r.contestedGroup
    requires w in r.clearWinners + kept && l in ranked && l !in r.clearWinners
    ensures l.row.points <= w.row.points
  {
    hide IsRanking, Boundary;
    var c, m := |r.clearWinners|, |r.contestedGroup|;
    WinnerPosition(ranked, c, m, kept, w);
    var i :| 0 <= i < c + m && ranked[i] == w;
    var j :| 0 <= j < |ranked| && ranked[j] == l;
    assert forall k :: 0 <= k < c ==> ranked[k] in r.clearWinners;
    PointsFall(ranked, r, limit, i, j);
  }

  /** The recorded winners who are still contestants. */
  function StillContesting(r: Resolution, ids: seq<UserId>): set<UserId> {
    ToSet(ids) * ToSet(UsersOf(r.contestedGroup))
  }

  /** The recorded winners who are contestants no more. */
  function Departed(r: Resolution, ids: seq<UserId>): set<UserId> {
    ToSet(ids) - ToSet(UsersOf(r.contestedGroup))
  }

  /** Of rows of distinct users, those are kept whose users are named. */
  lemma KeepCountsCommon(rows: seq<RankedRow>, ids: set<UserId>)
    requires DistinctUsers(rows)
    ensures |Keep(rows, ids)| == |ids * ToSet(UsersOf(rows))|
  {
    var common := ids * ToSet(UsersOf(rows));
    forall r | r in rows
      ensures r.row.userId in ids <==> r.row.userId in common
    {
      var k :| 0 <= k < |rows| && rows[k] == r;
      assert UsersOf(rows)[k] == r.row.userId;
    }
    KeepAgrees(rows, ids, common);
    KeepCounts(rows, common);
  }

  /** All min(limit, n) places are given out exactly when, of the recorded
      winners, as many are still contestants as there are places left: as many
      have departed as there are fewer places than winners. */
  lemma FullExactlyWhenDrawFits(ranked: seq<RankedRow>, limit: nat, r: Resolution, ids: seq<UserId>)
    requires Resolves(ranked, limit, r) && DistinctUsers(ranked)
    ensures |Settle(r, ids)| == (if limit <= |ranked| then limit else |ranked|)
       <==> |StillContesting(r, ids)| == r.remainingSlots
    ensures Lottery.Distinct(ids) ==>
              (|StillContesting(r, ids)| == r.remainingSlots <==> |Departed(r, ids)| == |ids| - r.remainingSlots)
  {
    hide Boundary, Keep, Lottery.Distinct;
    ContestantsAreDistinct(ranked, limit, r);
    KeepCountsCommon(r.contestedGroup, ToSet(ids));
    if Lottery.Distinct(ids) {
      LeftOrStayed(r, ids);
    }
  }

  lemma ContestantsAreDistinct(ranked: seq<RankedRow>, limit: nat, r: Resolution)
    requires Resolves(ranked, limit, r) && DistinctUsers(ranked)
    ensures DistinctUsers(r.contestedGroup)
  {
    hide Boundary;
    assert forall i :: 0 <= i < |r.contestedGroup| ==> r.contestedGroup[i] == ranked[|r.clearWinners| + i];
  }

  lemma LeftOrStayed(r: Resolution, ids: seq<UserId>)
    requires Lottery.Distinct(ids)
    ensures |StillContesting(r, ids)| + |Departed(r, ids)| == |ids|
  {
    DistinctIds(ids);
    assert ToSet(ids) == StillContesting(r, ids) + Departed(r, ids);
  }

  lemma WinnerPosition(ranked: seq<RankedRow>, c: nat, m: nat, kept: seq<RankedRow>, w: RankedRow)
    requires c + m <= |ranked| && w in ranked[..c] + kept
    requires forall r :: r in kept ==> r in ranked[c..c + m]
    ensures exists i :: 0 <= i < c + m && ranked[i] == w
  {
    if w in ranked[..c] {
    } else {
      assert w in ranked[c..c + m];
    }
  }

  /** Points at a cleared or contested position are at least those at any
      position from the contested group on. */
  lemma PointsFall(ranked: seq<RankedRow>, r: Resolution, limit: nat, i: nat, j: nat)
    requires IsRanking(ranked) && Resolves(ranked, limit, r)
    requires i < |r.clearWinners| + |r.contestedGroup| && |r.clearWinners| <= j < |ranked|
    ensures ranked[j].row.points <= ranked[i].row.points
  {
    hide Higher;
    var sorted := RowsOf(ranked);
    assert forall k :: 0 <= k < |ranked| ==> sorted[k] == ranked[k].row;
    if i < j {
      assert !Above(sorted[j], sorted[i]);
    } else {
      SamePoints(ranked, r, limit, j, i);
    }
  }

  lemma {:induction false} SamePoints(ranked: seq<RankedRow>, r: Resolution, limit: nat, j: nat, i: nat)
    requires IsRanking(ranked) && Resolves(ranked, limit, r)
    requires |r.clearWinners| <= j <= i < |r.clearWinners| + |r.contestedGroup|
    ensures ranked[j].row.points == ranked[i].row.points
    decreases i
  {
    hide IsRanking;
    if j < i {
      SamePoints(ranked, r, limit, j, i - 1);
      RankIsPosition(ranked, i);
    }
  }

  lemma WinnersInBoardOrder(ranked: seq<RankedRow>, c: nat, m: nat, kept: seq<RankedRow>, ids: set<UserId>)
    requires c + m <= |ranked| && DistinctUsers(ranked) && kept == Keep(ranked[c..c + m], ids)
    ensures var winners := ranked[..c] + kept; winners == Keep(ranked, ToSet(UsersOf(winners)))
  {
    hide Keep, DistinctUsers;
    var winners := ranked[..c] + kept;
    var names := ToSet(UsersOf(winners));
    var top, mid, low := ranked[..c], ranked[c..c + m], ranked[c + m..];
    assert ranked == top + mid + low;
    KeepOfConcat(top + mid, low, names);
    KeepOfConcat(top, mid, names);
    KeepMembers(mid, ids);
    forall r | r in low
      ensures r.row.userId !in names
    {
      NameIsWinner(ranked, c, m, kept, r);
    }
    forall r | r in mid
      ensures r.row.userId in names <==> r.row.userId in ids
    {
      MiddleName(ranked, c, m, kept, ids, r);
    }
    KeepMembers(low, names);
    KeepAgrees(mid, names, ids);
    TopIsKept(top, kept);
  }

  lemma TopIsKept(top: seq<RankedRow>, kept: seq<RankedRow>)
    ensures Keep(top, ToSet(UsersOf(top + kept))) == top
  {
    var names := ToSet(UsersOf(top + kept));
    forall r | r in top
      ensures r.row.userId in names
    {
      var k :| 0 <= k < |top| && top[k] == r;
      assert UsersOf(top + kept)[k] == r.row.userId;
    }
    KeepMembers(top, names);
  }

  lemma NameIsWinner(ranked: seq<RankedRow>, c: nat, m: nat, kept: seq<RankedRow>, r: RankedRow)
    requires c + m <= |ranked| && DistinctUsers(ranked) && r in ranked[c + m..]
    requires forall k :: k in kept ==> k in ranked[c..c + m]
    ensures r.row.userId !in ToSet(UsersOf(ranked[..c] + kept))
  {
    var winners := ranked[..c] + kept;
    var j :| c + m <= j < |ranked| && ranked[j] == r;
    forall i | 0 <= i < |winners|
      ensures winners[i].row.userId != r.row.userId
    {
      assert winners[i] in ranked[..c] + kept;
      WinnerPosition(ranked, c, m, kept, winners[i]);
    }
  }

  lemma MiddleName(ranked: seq<RankedRow>, c: nat, m: nat, kept: seq<RankedRow>, ids: set<UserId>, r: RankedRow)
    requires c + m <= |ranked| && DistinctUsers(ranked) && r in ranked[c..c + m]
    requires forall k :: k in kept <==> k in ranked[c..c + m] && k.row.userId in ids
    ensures r.row.userId in ToSet(UsersOf(ranked[..c] + kept)) <==> r.row.userId in ids
  {
    var winners := ranked[..c] + kept;
    if r.row.userId in ids {
      var k :| 0 <= k < |kept| && kept[k] == r;
      assert UsersOf(winners)[c + k] == r.row.userId;
    } else {
      var j :| c <= j < c + m && ranked[j] == r;
      forall k | 0 <= k < |winners|
        ensures winners[k].row.userId != r.row.userId
      {
        if k >= c {
          assert winners[k] in kept;
        }
      }
    }
  }

  lemma {:induction false} KeepAgrees(rows: seq<RankedRow>, a: set<UserId>, b: set<UserId>)
    requires forall r :: r in rows ==> (r.row.userId in a <==> r.row.userId in b)
    ensures Keep(rows, a) == Keep(rows, b)
  {
    if rows != [] {
      KeepAgrees(rows[1..], a, b);
    }
  }

  /** A settlement whose draw is made from its own contested group fills every
      slot: there are min(limit, n) winners. */
  lemma SettlementIsFull(ranked: seq<RankedRow>, limit: nat, r: Resolution, choices: seq<nat>)
    requires IsRanking(ranked) && DistinctUsers(ranked) && Resolves(ranked, limit, r)
    requires Lottery.ValidChoices(choices, |r.contestedGroup|)
    ensures |Settle(r, Draw(r, choices))| == if limit <= |ranked| then limit else |ranked|
  {
    hide IsRanking;
    assert forall i :: 0 <= i < |r.contestedGroup| ==> r.contestedGroup[i] == ranked[|r.clearWinners| + i];
    DrawnUsers(r.contestedGroup, choices, r.remainingSlots);
    assert StillContesting(r, Draw(r, choices)) == ToSet(Draw(r, choices));
    FullExactlyWhenDrawFits(ranked, limit, r, Draw(r, choices));
  }
}
