/** The status of FormMate's proposed changes when requests overlap
    (src/survey/formmate/formmate.service.ts): `applyChanges` reads the survey and
    then the changes, checks their status, and writes in a transaction that only
    the survey's version guards. */
module ChangeLog {
  import opened Options

  type Id = string

  datatype Status = PENDING | APPLIED | REVERTED

  /** A request that has read the survey at version `seen`, and one that has also
      found its changes to be fit, at version `at`. */
  datatype Request =
    | Opened(sent: nat, seen: nat)
    | Checked(sent: nat, seen: nat, ids: seq<Id>, revert: bool, at: nat)

  datatype State = State(version: nat, changes: map<Id, Status>, waiting: map<nat, Request>, next: nat)

  /** `Write` is whatever else writes the survey; `merges` tells whether the
      question list of a commit can be stored. */
  datatype Event =
    | Propose(id: Id)
    | Write
    | Open(sent: nat)
    | Check(req: nat, ids: seq<Id>, revert: bool)
    | Commit(req: nat, merges: bool)

  function Expected(revert: bool): Status {
    if revert then APPLIED else PENDING
  }

  function Reached(revert: bool): Status {
    if revert then REVERTED else APPLIED
  }

  /** A change that is still to be proposed counts as pending. */
  function StatusOf(s: State, id: Id): Status {
    if id in s.changes then s.changes[id] else PENDING
  }

  /** As many rows are found as ids were sent, and all of them are fit. */
  predicate Passes(s: State, ids: seq<Id>, revert: bool) {
    var found := set id | id in ids && id in s.changes;
    |found| == |ids| && forall id :: id in found ==> s.changes[id] == Expected(revert)
  }

  predicate Commits(s: State, e: Event) {
    && e.Commit? && e.req in s.waiting && s.waiting[e.req].Checked?
    && s.waiting[e.req].sent == s.version && e.merges
  }

  function Mark(changes: map<Id, Status>, ids: seq<Id>, status: Status): map<Id, Status> {
    map id | id in changes :: if id in ids then status else changes[id]
  }

  function Next(s: State, e: Event): State {
    match e
    case Propose(id) => if id in s.changes then s else s.(changes := s.changes[id := PENDING])
    case Write => s.(version := s.version + 1)
    case Open(sent) => s.(waiting := s.waiting[s.next := Opened(sent, s.version)], next := s.next + 1)
    case Check(req, ids, revert) =>
      if req !in s.waiting || !s.waiting[req].Opened? then s
      else if !Passes(s, ids, revert) then s.(waiting := s.waiting - {req})
      else
        var r := s.waiting[req];
        s.(waiting := s.waiting[req := Checked(r.sent, r.seen, ids, revert, s.version)])
    case Commit(req, merges) =>
      if Commits(s, e) then
        var r := s.waiting[req];
        s.(version := s.version + 1, changes := Mark(s.changes, r.ids, Reached(r.revert)), waiting := s.waiting - {req})
      else s.(waiting := s.waiting - {req})
  }

  function Run(s: State, events: seq<Event>): State
    decreases |events|
  {
    if events == [] then s else Run(Next(s, events[0]), events[1..])
  }

  /** What each event leaves: a new change is pending; a request that opens notes
      the version; one that checks goes on if its changes are there and fit, and
      ends otherwise; one that commits marks its changes and raises the version if
      that is the one sent and its questions can be stored, and ends in any case. */
  lemma EventsWrite(s: State, e: Event)
    ensures var t := Next(s, e);
            match e
            case Propose(id) =>
              && id in t.changes && t.changes[id] == (if id in s.changes then s.changes[id] else PENDING)
              && t.changes - {id} == s.changes - {id} && t == s.(changes := t.changes)
            case Write => t == s.(version := s.version + 1)
            case Open(sent) =>
              t == s.(waiting := s.waiting[s.next := Opened(sent, s.version)], next := s.next + 1)
            case Check(req, ids, revert) =>
              if req !in s.waiting || s.waiting[req].Checked? then t == s
              else
                && t == s.(waiting := t.waiting) && t.waiting - {req} == s.waiting - {req}
                && (req in t.waiting <==> Passes(s, ids, revert))
                && (req in t.waiting ==>
                      t.waiting[req] == Checked(s.waiting[req].sent, s.waiting[req].seen, ids, revert, s.version))
            case Commit(req, merges) =>
              && t.next == s.next && t.waiting == s.waiting - {req}
              && if && req in s.waiting && s.waiting[req].Checked? && s.waiting[req].sent == s.version && merges
                 then
                   && t.version == s.version + 1 && t.changes.Keys == s.changes.Keys
                   && forall id :: id in s.changes ==>
                        t.changes[id] == if id !in s.waiting[req].ids then s.changes[id]
                                         else if s.waiting[req].revert then REVERTED else APPLIED
                 else t.version == s.version && t.changes == s.changes
  {
    hide Passes;
  }

  // ---------------------------------------------------------------- once

  /** Whether `e` writes change `id`. */
  predicate Applies(s: State, e: Event, id: Id) {
    Commits(s, e) && id in s.waiting[e.req].ids && !s.waiting[e.req].revert
  }

  predicate Reverts(s: State, e: Event, id: Id) {
    Commits(s, e) && id in s.waiting[e.req].ids && s.waiting[e.req].revert
  }

  function Applications(s: State, events: seq<Event>, id: Id): nat
    decreases |events|
  {
    if events == [] then 0
    else (if Applies(s, events[0], id) then 1 else 0) + Applications(Next(s, events[0]), events[1..], id)
  }

  function Reversions(s: State, events: seq<Event>, id: Id): nat
    decreases |events|
  {
    if events == [] then 0
    else (if Reverts(s, events[0], id) then 1 else 0) + Reversions(Next(s, events[0]), events[1..], id)
  }

  predicate IsSound(s: State, r: Request) {
    && r.seen <= s.version
    && (r.Checked? ==>
          && r.seen <= r.at <= s.version
          && (forall id :: id in r.ids ==> id in s.changes)
          && (r.at == s.version ==> forall id :: id in r.ids ==> s.changes[id] == Expected(r.revert)))
  }

  /** While the version is the one a request checked at, what it checked stands. */
  predicate Inv(s: State) {
    forall q :: q in s.waiting ==> q < s.next && IsSound(s, s.waiting[q])
  }

  /** Clients send versions they have seen. */
  predicate Observed(s: State) {
    forall q :: q in s.waiting ==> s.waiting[q].sent <= s.waiting[q].seen
  }

  predicate SendsSeen(s: State, e: Event) {
    e.Open? ==> e.sent <= s.version
  }

  predicate AllSendSeen(s: State, events: seq<Event>)
    decreases |events|
  {
    events == [] || (SendsSeen(s, events[0]) && AllSendSeen(Next(s, events[0]), events[1..]))
  }

  lemma PassingIdsAreFit(s: State, ids: seq<Id>, revert: bool)
    requires Passes(s, ids, revert)
    ensures forall id :: id in ids ==> id in s.changes && s.changes[id] == Expected(revert)
  {
    var found, sent := set id | id in ids && id in s.changes, set id | id in ids;
    SetOfSeq(ids);
    SmallerSubset(found, sent);
    assert forall id :: id in ids ==> id in sent;
  }

  lemma {:induction false} SetOfSeq(ids: seq<Id>)
    ensures |set id | id in ids| <= |ids|
  {
    if ids != [] {
      SetOfSeq(ids[1..]);
      assert (set id | id in ids) == {ids[0]} + set id | id in ids[1..];
    }
  }

  lemma {:induction false} SmallerSubset(a: set<Id>, b: set<Id>)
    requires a <= b && |b| <= |a|
    ensures a == b
  {
    if x :| x in a {
      SmallerSubset(a - {x}, b - {x});
    }
  }

  lemma StaysSound(s: State, e: Event, r: Request)
    requires IsSound(s, r)
    ensures IsSound(Next(s, e), r)
  {
    hide Passes;
  }

  lemma StepKeepsInvariant(s: State, e: Event)
    requires Inv(s)
    ensures Inv(Next(s, e))
    ensures Observed(s) && SendsSeen(s, e) ==> Observed(Next(s, e))
  {
    hide IsSound, Passes, Mark;
    var t := Next(s, e);
    forall q | q in t.waiting
      ensures q < t.next && IsSound(t, t.waiting[q])
    {
      if q in s.waiting && t.waiting[q] == s.waiting[q] {
        StaysSound(s, e, s.waiting[q]);
      } else if e.Check? {
        CheckedIsSound(s, e);
      } else {
        OpenedIsSound(s, e);
      }
    }
  }

  lemma CheckedIsSound(s: State, e: Event)
    requires e.Check? && e.req in s.waiting && s.waiting[e.req].Opened? && IsSound(s, s.waiting[e.req])
    ensures Passes(s, e.ids, e.revert) ==> IsSound(Next(s, e), Next(s, e).waiting[e.req])
  {
    if Passes(s, e.ids, e.revert) {
      PassingIdsAreFit(s, e.ids, e.revert);
    }
  }

  lemma OpenedIsSound(s: State, e: Event)
    requires e.Open?
    ensures IsSound(Next(s, e), Opened(e.sent, s.version))
  {
  }

  /** Every event moves a change on by one stage at most: only a commit that
      applies it takes it out of PENDING, only one that reverts it out of APPLIED. */
  lemma StepMovesChange(s: State, e: Event, id: Id)
    requires Inv(s) && Observed(s)
    ensures Applies(s, e, id) ==> StatusOf(s, id) == PENDING && StatusOf(Next(s, e), id) == APPLIED
    ensures Reverts(s, e, id) ==> StatusOf(s, id) == APPLIED && StatusOf(Next(s, e), id) == REVERTED
    ensures !Applies(s, e, id) && !Reverts(s, e, id) ==> StatusOf(Next(s, e), id) == StatusOf(s, id)
  {
    hide Passes;
    if Commits(s, e) {
      assert IsSound(s, s.waiting[e.req]);
    }
  }

  /** Over every run of clients that send versions they have seen, each change is
      applied once at most and reverted once at most: as often as its status says. */
  lemma {:induction false} EachChangeIsAppliedOnce(s: State, events: seq<Event>, id: Id)
    requires Inv(s) && Observed(s) && AllSendSeen(s, events)
    ensures Applications(s, events, id) + (if StatusOf(s, id) == PENDING then 0 else 1)
         == if StatusOf(Run(s, events), id) == PENDING then 0 else 1
    ensures Reversions(s, events, id) + (if StatusOf(s, id) == REVERTED then 1 else 0)
         == if StatusOf(Run(s, events), id) == REVERTED then 1 else 0
    decreases |events|
  {
    if events != [] {
      hide Inv, Observed, Next, Applies, Reverts, SendsSeen, StatusOf;
      StepKeepsInvariant(s, events[0]);
      StepMovesChange(s, events[0], id);
      EachChangeIsAppliedOnce(Next(s, events[0]), events[1..], id);
    }
  }

  // ---------------------------------------------------------------- guessed versions

  /** Request `q` would now write change `id` although its check no longer holds. */
  predicate WritesAgain(s: State, q: nat, id: Id) {
    && q in s.waiting && s.waiting[q].Checked? && s.waiting[q].sent == s.version
    && id in s.waiting[q].ids && StatusOf(s, id) != Expected(s.waiting[q].revert)
  }

  lemma {:induction false} CheckedIsKept(s: State, events: seq<Event>, q: nat)
    requires Inv(s) && q < s.next && (q in s.waiting ==> s.waiting[q].Checked?)
    ensures var t := Run(s, events);
            && Inv(t) && t.version >= s.version
            && (q in t.waiting ==> q in s.waiting && t.waiting[q] == s.waiting[q])
    decreases |events|
  {
    if events != [] {
      StepKeepsInvariant(s, events[0]);
      StepKeepsChecked(s, events[0], q);
      hide Inv, Next;
      CheckedIsKept(Next(s, events[0]), events[1..], q);
    }
  }

  lemma StepKeepsChecked(s: State, e: Event, q: nat)
    requires q < s.next && (q in s.waiting ==> s.waiting[q].Checked?)
    ensures var t := Next(s, e);
            && t.version >= s.version && q < t.next
            && (q in t.waiting ==> q in s.waiting && t.waiting[q] == s.waiting[q])
  {
    hide Passes, Mark;
  }

  lemma {:induction false} Writes(s: State, n: nat)
    ensures Run(s, seq(n, _ => Write)) == s.(version := s.version + n)
    decreases n
  {
    if n > 0 {
      assert seq(n, _ => Write)[1..] == seq(n - 1, _ => Write);
      Writes(s.(version := s.version + 1), n - 1);
    }
  }

  lemma {:induction false} RunOfConcat(s: State, a: seq<Event>, b: seq<Event>)
    ensures Run(s, a + b) == Run(Run(s, a), b)
    decreases |a|
  {
    hide Next;
    if a == [] {
      assert a + b == b;
    } else {
      assert (a + b)[0] == a[0] && (a + b)[1..] == a[1..] + b;
      RunOfConcat(Next(s, a[0]), a[1..], b);
    }
  }

  lemma ThreeEvents(s: State, a: Event, b: Event, c: Event)
    ensures Run(s, [a, b, c]) == Next(Next(Next(s, a), b), c)
  {
    hide Next;
    assert [a, b, c][1..] == [b, c] && [b, c][1..] == [c] && [c][1..] == [];
    assert Run(Next(Next(s, a), b), [c]) == Next(Next(Next(s, a), b), c);
  }

  lemma FourEvents(s: State, a: Event, b: Event, c: Event, d: Event)
    ensures Run(s, [a, b, c, d]) == Next(Next(Next(Next(s, a), b), c), d)
  {
    hide Next;
    assert [a, b, c, d][1..] == [b, c, d];
    ThreeEvents(Next(s, a), b, c, d);
  }

  /** Another client applies the same changes in between. */
  lemma SameAgain(s: State, ids: seq<Id>, revert: bool)
    requires s.next !in s.waiting && Passes(s, ids, revert)
    ensures Run(s, [Open(s.version), Check(s.next, ids, revert), Commit(s.next, true)])
         == State(s.version + 1, Mark(s.changes, ids, Reached(revert)), s.waiting, s.next + 1)
  {
    ThreeEvents(s, Open(s.version), Check(s.next, ids, revert), Commit(s.next, true));
    hide Passes, Mark, Run;
    var seen := Next(s, Open(s.version));
    assert Passes(seen, ids, revert) by { SamePasses(s, seen, ids, revert); }
    var checked := Next(seen, Check(s.next, ids, revert));
    assert checked.waiting == s.waiting[s.next := Checked(s.version, s.version, ids, revert, s.version)];
    assert checked.waiting - {s.next} == s.waiting;
  }

  lemma SamePasses(s: State, t: State, ids: seq<Id>, revert: bool)
    requires s.changes == t.changes
    ensures Passes(s, ids, revert) <==> Passes(t, ids, revert)
  {
  }

  lemma WrittenByAnother(s: State, q: nat, id: Id) returns (events: seq<Event>)
    requires Inv(s) && q in s.waiting && s.waiting[q].Checked? && id in s.waiting[q].ids
    requires Passes(s, s.waiting[q].ids, s.waiting[q].revert) && s.waiting[q].sent > s.version
    ensures WritesAgain(Run(s, events), q, id)
  {
    hide Passes, Run, Next;
    var r := s.waiting[q];
    assert s.next !in s.waiting && IsSound(s, r);
    var first := [Open(s.version), Check(s.next, r.ids, r.revert), Commit(s.next, true)];
    var rest := seq(r.sent - s.version - 1, _ => Write);
    events := first + rest;
    SameAgain(s, r.ids, r.revert);
    RunOfConcat(s, first, rest);
    Writes(Run(s, first), r.sent - s.version - 1);
  }

  /** A request that has just passed its check can come to write a change whose
      status has moved on exactly when it sent a version later than the present
      one. */
  lemma GuessedVersionWritesAgainExactly(s: State, q: nat, id: Id)
    requires Inv(s) && q in s.waiting && s.waiting[q].Checked? && id in s.waiting[q].ids
    requires s.waiting[q].at == s.version && Passes(s, s.waiting[q].ids, s.waiting[q].revert)
    ensures (exists events :: WritesAgain(Run(s, events), q, id)) <==> s.waiting[q].sent > s.version
  {
    hide Passes, Run, Next;
    if s.waiting[q].sent > s.version {
      var events := WrittenByAnother(s, q, id);
    } else {
      forall events
        ensures !WritesAgain(Run(s, events), q, id)
      {
        CheckedIsKept(s, events, q);
        SeenVersionIsSafe(Run(s, events), q, id);
      }
    }
  }

  lemma SeenVersionIsSafe(s: State, q: nat, id: Id)
    requires Inv(s) && (q in s.waiting && s.waiting[q].Checked? ==> s.waiting[q].sent <= s.waiting[q].at)
    ensures !WritesAgain(s, q, id)
  {
    assert q in s.waiting ==> IsSound(s, s.waiting[q]);
  }

  lemma BothPassTheCheck(v: nat, id: Id)
    ensures Run(State(v, map[id := PENDING], map[], 0),
                [Open(v), Open(v + 1), Check(0, [id], false), Check(1, [id], false)])
         == State(v, map[id := PENDING],
                  map[0 := Checked(v, v, [id], false, v), 1 := Checked(v + 1, v, [id], false, v)], 2)
  {
    hide Passes, Run;
    var s := State(v, map[id := PENDING], map[], 0);
    FourEvents(s, Open(v), Open(v + 1), Check(0, [id], false), Check(1, [id], false));
    var waiting: map<nat, Request> := map[0 := Opened(v, v), 1 := Opened(v + 1, v)];
    assert Next(Next(s, Open(v)), Open(v + 1)) == State(v, map[id := PENDING], waiting, 2);
    OneFit(State(v, map[id := PENDING], waiting, 2), id);
    OneFit(State(v, map[id := PENDING], waiting[0 := Checked(v, v, [id], false, v)], 2), id);
  }

  /** Two clients apply one change at the same time; the one that guessed the next
      version applies it a second time. */
  lemma GuessingClientAppliesTwice(v: nat, id: Id)
    ensures var s := State(v, map[id := PENDING], map[], 0);
            var t := Run(s, [Open(v), Open(v + 1), Check(0, [id], false), Check(1, [id], false)]);
            Inv(s) && Applications(t, [Commit(0, true), Commit(1, true)], id) == 2
  {
    BothPassTheCheck(v, id);
    hide Run;
    var b := Checked(v + 1, v, [id], false, v);
    var t := State(v, map[id := PENDING], map[0 := Checked(v, v, [id], false, v), 1 := b], 2);
    assert Next(t, Commit(0, true)) == State(v + 1, map[id := APPLIED], map[1 := b], 2);
    assert [Commit(0, true), Commit(1, true)][1..] == [Commit(1, true)];
    assert Applications(State(v + 1, map[id := APPLIED], map[1 := b], 2), [Commit(1, true)], id) == 1;
  }

  lemma OneFit(s: State, id: Id)
    requires id in s.changes && s.changes[id] == PENDING
    ensures Passes(s, [id], false)
  {
    assert (set i | i in [id] && i in s.changes) == {id};
  }
}
