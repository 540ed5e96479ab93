/** What the result of a question says (src/result/result.service.ts), in terms
    of the stored answers of the sessions. */
module ResultMeaning {
  import opened Options
  import opened Survey
  import opened Answers
  import opened Publish
  import opened Results

  /** The sessions whose stored value is `v`. */
  function WithValue(sessions: seq<Session>, key: string, v: Json): set<int> {
    set i | 0 <= i < |sessions| && Get(sessions[i].answers, key) == Some(v)
  }

  /** The sessions that chose the one option `id`, or have it among their selections. */
  function WithChoice(sessions: seq<Session>, key: string, id: string): set<int> {
    set i | 0 <= i < |sessions| && Get(sessions[i].answers, key).Some?
            && TextField(Get(sessions[i].answers, key).value, "optionId") == Some(id)
  }

  function WithSelection(sessions: seq<Session>, key: string, id: string): set<int> {
    set i | 0 <= i < |sessions| && Get(sessions[i].answers, key).Some?
            && Get(sessions[i].answers, key).value.Arr? && Str(id) in Get(sessions[i].answers, key).value.items
  }

  /** The sessions whose text is shown as `shown`. */
  function WithText(sessions: seq<Session>, key: string, mask: string -> string, shown: string): set<int> {
    set i | 0 <= i < |sessions| && ShowsText(Get(sessions[i].answers, key), mask, shown)
  }

  predicate ShowsText(raw: Option<Json>, mask: string -> string, shown: string) {
    raw.Some? && raw.value.Str? && Trim(raw.value.s) != "" && mask(Trim(raw.value.s)) == shown
  }

  /** One session more. */
  lemma GrowsByOne(front: set<int>, all: set<int>, n: int, isIn: bool)
    requires forall i :: i in all <==> i in front || (i == n && isIn)
    requires n !in front
    ensures |all| == |front| + if isIn then 1 else 0
  {
    var grown := if isIn then front + {n} else front;
    forall i
      ensures i in all <==> i in grown
    {
    }
    assert all == grown;
  }

  lemma CountOfConcat(a: seq<Json>, b: seq<Json>, v: Json)
    ensures multiset(a + b)[v] == multiset(a)[v] + multiset(b)[v]
  {
  }

  lemma CountOfOne(b: seq<Json>, v: Json)
    requires |b| <= 1
    ensures multiset(b)[v] == if b == [v] then 1 else 0
  {
    if |b| == 1 {
      assert b == [b[0]];
    }
  }

  // ---------------------------------------------------------------- values

  /** A value that counts as an answer counts once for each session that holds it. */
  lemma {:induction false} AnsweredCounts(q: Question, sessions: seq<Session>, v: Json)
    requires v != Null && CountsAsAnswer(q.kind, v)
    ensures multiset(Answered(q, sessions))[v] == |WithValue(sessions, q.stableKey, v)|
    decreases |sessions|
  {
    hide Answered, CountsAsAnswer, Get;
    if sessions == [] {
      NothingAnswered(q);
      assert WithValue(sessions, q.stableKey, v) == {};
    } else {
      var n := |sessions| - 1;
      var front, added := sessions[..n], AddedBy(q, sessions[n]);
      AnsweredCounts(q, front, v);
      AnsweredStep(q, sessions);
      CountOfConcat(Answered(q, front), added, v);
      CountOfOne(added, v);
      GrowsByOne(WithValue(front, q.stableKey, v), WithValue(sessions, q.stableKey, v), n,
                 Get(sessions[n].answers, q.stableKey) == Some(v));
    }
  }

  /** The count of score k is the number of sessions that answered k. */
  lemma ScaleCountsMeaning(q: Question, sessions: seq<Session>, mask: string -> string, k: int)
    requires q.kind == SCALE && 1 <= k <= 5
    ensures |ResultOf(q, sessions, mask).scaleCounts| == 5
    ensures ResultOf(q, sessions, mask).scaleCounts[k - 1] == |WithValue(sessions, q.stableKey, Num(k as real))|
  {
    hide Answered, WithValue, RoundToTenth, Average;
    AnsweredCounts(q, sessions, Num(k as real));
  }

  // ---------------------------------------------------------------- the average

  function Weighted(counts: multiset<Json>): nat {
    counts[Num(1.0)] + 2 * counts[Num(2.0)] + 3 * counts[Num(3.0)] + 4 * counts[Num(4.0)] + 5 * counts[Num(5.0)]
  }

  lemma WeightedOfAdded(counts: multiset<Json>, n: int)
    requires 1 <= n <= 5
    ensures Weighted(counts + multiset{Score(n)}) == Weighted(counts) + n
  {
  }

  lemma {:induction false} SumOfScores(values: seq<Json>)
    requires AreScores(values) && forall v :: v in values ==> v.Num?
    ensures Sum(values) == Weighted(multiset(values)) as real
    decreases |values|
  {
    hide Weighted;
    if values == [] {
      NothingWeighted();
    } else {
      var n := |values| - 1;
      var front := values[..n];
      assert values == front + [values[n]];
      SumOfScores(front);
      assert IsScore(values[n]);
      var score: int :| values[n] == Score(score) && 1 <= score <= 5;
      WeightedOfAdded(multiset(front), score);
    }
  }

  lemma NothingWeighted()
    ensures Weighted(multiset{}) == 0
  {
  }

  /** Math.round: the multiple of a tenth nearest to `x`, the upper one in the middle. */
  lemma RoundingMeaning(x: real) returns (tenths: int)
    ensures RoundToTenth(x) == tenths as real / 10.0
    ensures RoundToTenth(x) - 0.05 <= x < RoundToTenth(x) + 0.05
  {
    tenths := (x * 10.0 + 0.5).Floor;
  }

  lemma BetweenMultiples(low: real, x: real, high: real, sum: real, n: real)
    requires n > 0.0 && x * n == sum && low <= x < high
    ensures low * n <= sum < high * n
  {
    assert (x - low) * n >= 0.0 && (high - x) * n > 0.0;
  }

  lemma AverageOfScores(values: seq<Json>) returns (tenths: int)
    requires AreScores(values) && (forall v :: v in values ==> v.Num?) && values != []
    ensures var average, n := RoundToTenth(Average(values)), |values| as real;
            && average == tenths as real / 10.0
            && (average - 0.05) * n <= Weighted(multiset(values)) as real < (average + 0.05) * n
  {
    hide AreScores, Sum, RoundToTenth, Weighted, Average;
    SumOfScores(values);
    AverageTimesCount(values);
    var x := Average(values);
    tenths := RoundingMeaning(x);
    BetweenMultiples(RoundToTenth(x) - 0.05, x, RoundToTenth(x) + 0.05, Sum(values), |values| as real);
  }

  lemma AverageTimesCount(values: seq<Json>)
    requires values != [] && forall v :: v in values ==> v.Num?
    ensures Average(values) * |values| as real == Sum(values)
  {
    hide Sum;
  }

  lemma ScaleResultOf(q: Question, sessions: seq<Session>, mask: string -> string)
    requires q.kind == SCALE
    ensures var r, values := ResultOf(q, sessions, mask), Answered(q, sessions);
            && |r.scaleCounts| == 5 && r.responseCount == |values| && r.average == RoundToTenth(Average(values))
            && Weighted(multiset(values))
               == r.scaleCounts[0] + 2 * r.scaleCounts[1] + 3 * r.scaleCounts[2] + 4 * r.scaleCounts[3]
                  + 5 * r.scaleCounts[4]
  {
    hide Answered, Average, RoundToTenth;
  }

  /** The average is a whole number of tenths, and the only one nearest to the
      sum of all scores over their number. */
  lemma AverageMeaning(questions: seq<Question>, q: Question, sessions: seq<Session>, mask: string -> string)
    returns (tenths: int)
    requires q in questions && q.kind == SCALE && AllAccepted(questions, sessions)
    requires SCALE_MIN <= MinScale(q) && MaxScale(q) <= SCALE_MAX
    ensures var r := ResultOf(q, sessions, mask);
            && r.average == tenths as real / 10.0 && |r.scaleCounts| == 5
            && (r.responseCount == 0 ==> r.average == 0.0)
            && (r.responseCount > 0 ==>
                  var c, n := r.scaleCounts, r.responseCount as real;
                  var sum := (c[0] + 2 * c[1] + 3 * c[2] + 4 * c[3] + 5 * c[4]) as real;
                  (r.average - 0.05) * n <= sum < (r.average + 0.05) * n)
  {
    hide *;
    AcceptedIsFine(questions, q, sessions);
    AnsweredAreScores(q, sessions);
    ScoresAreNumbers(Answered(q, sessions));
    ScaleResultOf(q, sessions, mask);
    if Answered(q, sessions) == [] {
      AverageOfNothing();
      tenths := 0;
    } else {
      tenths := AverageOfScores(Answered(q, sessions));
    }
  }

  lemma ScoresAreNumbers(values: seq<Json>)
    requires AreScores(values)
    ensures forall v :: v in values ==> v.Num?
  {
  }

  lemma AverageOfNothing()
    ensures RoundToTenth(Average([])) == 0.0
  {
    RoundOfZero();
  }

  // ---------------------------------------------------------------- options

  lemma {:induction false} ChosenCounts(q: Question, sessions: seq<Session>, id: string)
    requires q.kind == SINGLE_CHOICE
    ensures multiset(ChosenIds(Answered(q, sessions)))[Str(id)] == |WithChoice(sessions, q.stableKey, id)|
    decreases |sessions|
  {
    hide Answered, Get, ChosenIds, TextField, OptionIdOf, HasOptionId;
    if sessions == [] {
      NothingAnswered(q);
      NothingChosen();
      assert WithChoice(sessions, q.stableKey, id) == {};
    } else {
      var n := |sessions| - 1;
      var front, before, added := sessions[..n], Answered(q, sessions[..n]), AddedBy(q, sessions[n]);
      ChosenCounts(q, front, id);
      AnsweredStep(q, sessions);
      var raw := Get(sessions[n].answers, q.stableKey);
      AddedChoice(q, sessions[n], id);
      if added == [] {
        assert before + added == before;
      } else {
        assert added == [added[0]];
        ChosenOfAdded(before, added[0]);
      }
      GrowsByOne(WithChoice(front, q.stableKey, id), WithChoice(sessions, q.stableKey, id), n,
                 raw.Some? && TextField(raw.value, "optionId") == Some(id));
    }
  }

  lemma NothingChosen()
    ensures ChosenIds([]) == [] && SelectedIds([]) == []
  {
  }

  lemma AddedChoice(q: Question, s: Session, id: string)
    requires q.kind == SINGLE_CHOICE
    ensures var raw, added := Get(s.answers, q.stableKey), AddedBy(q, s);
            && (added == [] <==> !(raw.Some? && HasOptionId(raw.value)))
            && (added != [] ==> added == [raw.value] && HasOptionId(added[0]))
            && (raw.Some? && TextField(raw.value, "optionId") == Some(id)
                <==> added != [] && Str(OptionIdOf(added[0])) == Str(id))
  {
    hide Get;
  }

  lemma {:induction false} SelectedCounts(q: Question, sessions: seq<Session>, id: string)
    requires q.kind == MULTI_CHOICE && AllFine(q, sessions)
    ensures multiset(SelectedIds(Answered(q, sessions)))[Str(id)] == |WithSelection(sessions, q.stableKey, id)|
    decreases |sessions|
  {
    hide Answered, Get, SelectedIds, FineFor, AddedBy;
    if sessions == [] {
      NothingAnswered(q);
      NothingChosen();
      assert WithSelection(sessions, q.stableKey, id) == {};
    } else {
      var n := |sessions| - 1;
      var front, before, added := sessions[..n], Answered(q, sessions[..n]), AddedBy(q, sessions[n]);
      SelectedCounts(q, front, id);
      AnsweredStep(q, sessions);
      assert sessions[n] in sessions;
      var raw := Get(sessions[n].answers, q.stableKey);
      AddedSelection(q, sessions[n], id);
      if added == [] {
        assert before + added == before;
      } else {
        assert added == [added[0]];
        SelectedOfAdded(before, added[0]);
        CountOfConcat(SelectedIds(before), added[0].items, Str(id));
      }
      GrowsByOne(WithSelection(front, q.stableKey, id), WithSelection(sessions, q.stableKey, id), n,
                 raw.Some? && raw.value.Arr? && Str(id) in raw.value.items);
    }
  }

  lemma AddedSelection(q: Question, s: Session, id: string)
    requires q.kind == MULTI_CHOICE && FineFor(q, Get(s.answers, q.stableKey))
    ensures var raw, added := Get(s.answers, q.stableKey), AddedBy(q, s);
            && |added| <= 1 && (added != [] ==> added[0].Arr?)
            && (added == [] ==> !(raw.Some? && raw.value.Arr? && Str(id) in raw.value.items))
            && (added != [] ==>
                  && raw == Some(added[0])
                  && multiset(added[0].items)[Str(id)] == if Str(id) in added[0].items then 1 else 0)
  {
    AddedMeaning(q, s);
    if AddedBy(q, s) != [] {
      SelectionIsValid(q, s);
      DistinctOnce(AddedBy(q, s)[0].items, Str(id));
    }
    hide Get, Distinct, IsOption;
  }

  /** The rows of a choice question: its options in order of their number, each
      with its own text and its share of the answers. */
  ghost predicate RowsFollow(rows: seq<ResultOption>, sorted: seq<Choice>, options: seq<Choice>, total: nat) {
    && multiset(sorted) == multiset(options) && |rows| == |sorted|
    && (forall i, j :: 0 <= i < j < |sorted| ==> sorted[i].orderNo <= sorted[j].orderNo)
    && (forall i :: 0 <= i < |rows| ==>
          && rows[i].id == sorted[i].id && rows[i].text == sorted[i].text
          && IsShare(rows[i].percent, rows[i].count, total))
  }

  predicate IsShare(percent: real, count: nat, total: nat) {
    if total == 0 then percent == 0.0 else percent * total as real == 100.0 * count as real
  }

  lemma {:induction false} RowAt(options: seq<Choice>, counts: multiset<Json>, total: nat, i: nat)
    requires i < |options|
    ensures |RowsOf(options, counts, total)| == |options|
    ensures RowsOf(options, counts, total)[i] == Results.RowOf(options[i], counts, total)
  {
    hide Results.RowOf;
    if |options| > 1 {
      RowAt(options[1..], counts, total, if i == 0 then 0 else i - 1);
    }
  }

  lemma ShareOfTotal(o: Choice, counts: multiset<Json>, total: nat)
    ensures var row := Results.RowOf(o, counts, total);
            && row.id == o.id && row.text == o.text && row.count == counts[Str(o.id)]
            && IsShare(row.percent, row.count, total)
  {
    if total != 0 {
      var c, t := counts[Str(o.id)] as real, total as real;
      assert c / t * t == c;
      assert c / t * 100.0 * t == c / t * t * 100.0;
    }
  }

  lemma RowsInOrder(options: seq<Choice>, counts: multiset<Json>, total: nat)
    ensures var sorted, rows := SortBy(ChoiceOrder, options), RowsOf(SortBy(ChoiceOrder, options), counts, total);
            && RowsFollow(rows, sorted, options, total)
            && forall i :: 0 <= i < |rows| ==> rows[i].count == counts[Str(rows[i].id)]
  {
    var sorted := SortBy(ChoiceOrder, options);
    var rows := RowsOf(sorted, counts, total);
    SortBySorts(ChoiceOrder, options);
    OrderedByNumber(sorted);
    NoRows(counts, total);
    hide SortBy, RowsOf, Results.RowOf, IsShare;
    forall i | 0 <= i < |sorted|
      ensures |rows| == |sorted| && rows[i] == Results.RowOf(sorted[i], counts, total)
    {
      RowAt(sorted, counts, total, i);
    }
    assert |rows| == |sorted| by {
      if sorted != [] {
        RowAt(sorted, counts, total, 0);
      }
    }
    forall i | 0 <= i < |rows|
      ensures rows[i].id == sorted[i].id && rows[i].text == sorted[i].text && rows[i].count == counts[Str(rows[i].id)]
      ensures IsShare(rows[i].percent, rows[i].count, total)
    {
      ShareOfTotal(sorted[i], counts, total);
    }
  }

  lemma OrderedByNumber(sorted: seq<Choice>)
    requires NonDecreasing(ChoiceOrder, sorted)
    ensures forall i, j :: 0 <= i < j < |sorted| ==> sorted[i].orderNo <= sorted[j].orderNo
  {
    forall i, j | 0 <= i < j < |sorted|
      ensures sorted[i].orderNo <= sorted[j].orderNo
    {
      assert ChoiceOrder(sorted[i]) <= ChoiceOrder(sorted[j]);
    }
  }

  lemma NoRows(counts: multiset<Json>, total: nat)
    ensures RowsOf([], counts, total) == []
  {
  }

  /** Single choice: each option is counted once for each session that chose it. */
  lemma ChoiceRowsMeaning(q: Question, sessions: seq<Session>, mask: string -> string) returns (sorted: seq<Choice>)
    requires q.kind == SINGLE_CHOICE
    ensures var r := ResultOf(q, sessions, mask);
            && RowsFollow(r.options, sorted, q.options, r.responseCount)
            && forall i :: 0 <= i < |r.options| ==>
                 r.options[i].count == |WithChoice(sessions, q.stableKey, r.options[i].id)|
  {
    hide Answered, RowsOf, ChosenIds, EtcTexts, SortBy, WithChoice, RowsFollow;
    var answered := Answered(q, sessions);
    sorted := SortBy(ChoiceOrder, q.options);
    RowsInOrder(q.options, multiset(ChosenIds(answered)), |answered|);
    forall id: string
      ensures multiset(ChosenIds(answered))[Str(id)] == |WithChoice(sessions, q.stableKey, id)|
    {
      ChosenCounts(q, sessions, id);
    }
  }

  /** Multiple choice: each option is counted once for each session that has it
      among its selections. */
  lemma SelectionRowsMeaning(questions: seq<Question>, q: Question, sessions: seq<Session>, mask: string -> string)
    returns (sorted: seq<Choice>)
    requires q in questions && q.kind == MULTI_CHOICE && AllAccepted(questions, sessions)
    ensures var r := ResultOf(q, sessions, mask);
            && RowsFollow(r.options, sorted, q.options, r.responseCount) && r.etcAnswers == []
            && forall i :: 0 <= i < |r.options| ==>
                 r.options[i].count == |WithSelection(sessions, q.stableKey, r.options[i].id)|
  {
    hide Answered, RowsOf, SelectedIds, SortBy, WithSelection, RowsFollow, AllAccepted, AllFine;
    AcceptedIsFine(questions, q, sessions);
    var answered := Answered(q, sessions);
    sorted := SortBy(ChoiceOrder, q.options);
    RowsInOrder(q.options, multiset(SelectedIds(answered)), |answered|);
    forall id: string
      ensures multiset(SelectedIds(answered))[Str(id)] == |WithSelection(sessions, q.stableKey, id)|
    {
      SelectedCounts(q, sessions, id);
    }
  }

  // ---------------------------------------------------------------- texts

  /** A session's text for the "other" option it chose. */
  ghost predicate WritesOther(q: Question, s: Session, text: string) {
    var raw := Get(s.answers, q.stableKey);
    && raw.Some? && TextField(raw.value, "etcText") == Some(text) && Trim(text) != ""
    && exists o :: o in q.options && o.isEtc && TextField(raw.value, "optionId") == Some(o.id)
  }

  /** `at` are the sessions that wrote a text for the "other" option, in order. */
  ghost predicate OthersAt(q: Question, sessions: seq<Session>, at: seq<nat>) {
    && (forall j :: 0 <= j < |at| ==> at[j] < |sessions|)
    && (forall j, k :: 0 <= j < k < |at| ==> at[j] < at[k])
    && (forall i :: 0 <= i < |sessions| ==> (i in at <==> exists text :: WritesOther(q, sessions[i], text)))
  }

  ghost predicate TextsAt(q: Question, sessions: seq<Session>, mask: string -> string, texts: seq<string>, at: seq<nat>)
    requires forall j :: 0 <= j < |at| ==> at[j] < |sessions|
  {
    && |texts| == |at|
    && forall j, text :: 0 <= j < |at| && WritesOther(q, sessions[at[j]], text) ==> texts[j] == mask(Trim(text))
  }

  lemma OneMoreText(q: Question, sessions: seq<Session>, mask: string -> string, texts: seq<string>, at: seq<nat>,
                    shown: seq<string>, last: Session)
    requires sessions != [] && last == sessions[|sessions| - 1]
    requires var front := sessions[..|sessions| - 1]; OthersAt(q, front, at) && TextsAt(q, front, mask, texts, at)
    requires shown == [] ==> !exists text :: WritesOther(q, last, text)
    requires shown != [] ==>
               && |shown| == 1 && (exists text :: WritesOther(q, last, text))
               && forall text :: WritesOther(q, last, text) ==> shown == [mask(Trim(text))]
    ensures var now := if shown == [] then at else at + [|sessions| - 1];
            OthersAt(q, sessions, now) && TextsAt(q, sessions, mask, texts + shown, now)
  {
    hide WritesOther, Trim;
    var n := |sessions| - 1;
    var now := if shown == [] then at else at + [n];
    assert forall i :: 0 <= i < n ==> sessions[..n][i] == sessions[i];
    assert forall i :: i in now <==> i in at || (shown != [] && i == n);
  }

  /** The texts listed are, session by session, the masked and trimmed texts of
      those who chose the "other" option and wrote one. */
  lemma {:induction false} OtherTextsMeaning(q: Question, sessions: seq<Session>, mask: string -> string)
    returns (at: seq<nat>)
    requires q.kind == SINGLE_CHOICE && OptionIdsAreKeys(q.options)
    ensures OthersAt(q, sessions, at)
    ensures TextsAt(q, sessions, mask, ResultOf(q, sessions, mask).etcAnswers, at)
    decreases |sessions|
  {
    hide Answered, EtcTexts, AddedBy, WritesOther, RowsOf, ChosenIds, OptionIdsAreKeys, SortBy, EtcText, HasOptionId;
    if sessions == [] {
      NothingAnswered(q);
      NoTexts(q, mask);
      at := [];
    } else {
      var n := |sessions| - 1;
      var before := OtherTextsMeaning(q, sessions[..n], mask);
      AnsweredStep(q, sessions);
      var answered, added := Answered(q, sessions[..n]), AddedBy(q, sessions[n]);
      var texts := EtcTexts(q.options, answered, mask);
      AddedOther(q, sessions[n], mask);
      hide OthersAt, TextsAt;
      if added == [] {
        assert answered + added == answered && texts + [] == texts;
        OneMoreText(q, sessions, mask, texts, before, [], sessions[n]);
        at := before;
      } else {
        assert added == [added[0]];
        EtcTextsStep(q.options, answered, added[0], mask);
        var shown := EtcText(q.options, added[0], mask);
        OneMoreText(q, sessions, mask, texts, before, shown, sessions[n]);
        at := if shown == [] then before else before + [n];
      }
    }
  }

  lemma AddedOther(q: Question, s: Session, mask: string -> string)
    requires q.kind == SINGLE_CHOICE && OptionIdsAreKeys(q.options)
    ensures |AddedBy(q, s)| <= 1
    ensures AddedBy(q, s) == [] ==> !exists text :: WritesOther(q, s, text)
    ensures AddedBy(q, s) != [] ==> HasOptionId(AddedBy(q, s)[0])
    ensures AddedBy(q, s) != [] ==>
              var shown := EtcText(q.options, AddedBy(q, s)[0], mask);
              if shown == [] then !exists text :: WritesOther(q, s, text)
              else && |shown| == 1 && (exists text :: WritesOther(q, s, text))
                   && forall text :: WritesOther(q, s, text) ==> shown == [mask(Trim(text))]
  {
    hide Get, Trim, OptionIdsAreKeys;
    if AddedBy(q, s) != [] {
      var v := AddedBy(q, s)[0];
      assert Get(s.answers, q.stableKey) == Some(v);
      var found := FindOption(q.options, OptionIdOf(v));
      forall o | o in q.options && o.id == OptionIdOf(v)
        ensures found == Some(o)
      {
        FindsOnly(q.options, o);
      }
      if found.Some? && found.value.isEtc && HasEtcText(v) {
        assert WritesOther(q, s, EtcTextOf(v));
      }
    }
  }

  lemma {:induction false} TextCounts(q: Question, sessions: seq<Session>, mask: string -> string, shown: string)
    requires q.kind == SHORT_ANSWER || q.kind == NARRATIVE || q.kind == ETC
    ensures var texts := TextsOf(Answered(q, sessions), mask);
            texts[shown] == |WithText(sessions, q.stableKey, mask, shown)| && |texts| == |Answered(q, sessions)|
    decreases |sessions|
  {
    hide Answered, TextsOf, Get, Trim, AddedBy, ShowsText;
    if sessions == [] {
      NothingAnswered(q);
      NoTextsOf(mask);
      assert WithText(sessions, q.stableKey, mask, shown) == {};
    } else {
      var n := |sessions| - 1;
      var front, answered, added := sessions[..n], Answered(q, sessions[..n]), AddedBy(q, sessions[n]);
      TextCounts(q, front, mask, shown);
      AnsweredStep(q, sessions);
      AddedText(q, sessions[n], mask, shown);
      if added == [] {
        assert answered + added == answered;
      } else {
        assert added == [added[0]];
        TextsOfAdded(answered, added[0], mask);
      }
      GrowsByOne(WithText(front, q.stableKey, mask, shown), WithText(sessions, q.stableKey, mask, shown), n,
                 ShowsText(Get(sessions[n].answers, q.stableKey), mask, shown));
    }
  }

  /** Each text is listed as often as there are sessions that show it. */
  lemma TextsMeaning(q: Question, sessions: seq<Session>, mask: string -> string, shown: string)
    requires q.kind == SHORT_ANSWER || q.kind == NARRATIVE || q.kind == ETC
    ensures var r := ResultOf(q, sessions, mask);
            && r.answers[shown] == |WithText(sessions, q.stableKey, mask, shown)| && |r.answers| == r.responseCount
  {
    hide Answered, TextsOf, WithText;
    TextCounts(q, sessions, mask, shown);
  }

  lemma NoTextsOf(mask: string -> string)
    ensures TextsOf([], mask) == multiset{}
  {
  }

  lemma TextsOfAdded(answered: seq<Json>, v: Json, mask: string -> string)
    requires (forall a :: a in answered ==> a.Str?) && v.Str?
    ensures forall a :: a in answered + [v] ==> a.Str?
    ensures TextsOf(answered + [v], mask) == TextsOf(answered, mask) + multiset{mask(Trim(v.s))}
  {
    hide Trim;
    assert (answered + [v])[..|answered|] == answered;
  }

  lemma AddedText(q: Question, s: Session, mask: string -> string, shown: string)
    requires q.kind == SHORT_ANSWER || q.kind == NARRATIVE || q.kind == ETC
    ensures var raw, added := Get(s.answers, q.stableKey), AddedBy(q, s);
            && |added| <= 1 && (added != [] ==> added[0].Str?)
            && (ShowsText(raw, mask, shown) <==> added != [] && mask(Trim(added[0].s)) == shown)
  {
    hide Get, Trim;
  }
}
