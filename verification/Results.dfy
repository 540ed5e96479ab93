/** Result aggregation (src/result/result.service.ts): the counting loops, and
    what they conserve of the answers the submission check accepted. */
module Results {
  import opened Options
  import opened Survey
  import opened Answers
  import opened Publish

  /** A submitted session that is not excluded. */
  datatype Session = Session(submittedAt: Option<int>, answers: seq<Entry>)

  datatype ResultOption = ResultOption(id: string, text: string, count: nat, percent: real)

  /** `average` and the counts over reals; the order of text answers is left open. */
  datatype QuestionResult =
    | ChoiceResult(responseCount: nat, unansweredCount: int, options: seq<ResultOption>, etcAnswers: seq<string>)
    | ScaleResult(responseCount: nat, unansweredCount: int, average: real, scaleCounts: seq<nat>)
    | TextResult(responseCount: nat, unansweredCount: int, answers: multiset<string>)

  // ---------------------------------------------------------------- selecting values

  /** A session's stored answer; null counts as none. */
  function Stored(q: Question, s: Session): Option<Json> {
    var raw := Get(s.answers, q.stableKey);
    if raw == Some(Null) then None else raw
  }

  function RawValues(q: Question, sessions: seq<Session>): seq<Json> {
    if sessions == [] then []
    else
      var n := |sessions| - 1;
      RawValues(q, sessions[..n])
      + match Stored(q, sessions[n]) case None => [] case Some(v) => [v]
  }

  function Filter(p: Json -> bool, values: seq<Json>): (kept: seq<Json>)
    ensures forall v :: v in kept ==> p(v)
  {
    if values == [] then []
    else
      var n := |values| - 1;
      Filter(p, values[..n]) + if p(values[n]) then [values[n]] else []
  }

  predicate HasOptionId(v: Json) { TextField(v, "optionId").Some? }
  predicate IsSelection(v: Json) { v.Arr? && v.items != [] }
  predicate IsNumber(v: Json) { v.Num? }
  predicate IsText(v: Json) { v.Str? && !Blank(v.s) }

  /** The values a question of this kind counts as answers. */
  predicate CountsAsAnswer(kind: QuestionType, v: Json) {
    match kind
    case SINGLE_CHOICE => HasOptionId(v)
    case MULTI_CHOICE => IsSelection(v)
    case SCALE => IsNumber(v)
    case _ => IsText(v)
  }

  function Answered(q: Question, sessions: seq<Session>): (values: seq<Json>)
    ensures forall v :: v in values ==> CountsAsAnswer(q.kind, v)
  {
    Filter(v => CountsAsAnswer(q.kind, v), RawValues(q, sessions))
  }

  // ---------------------------------------------------------------- the specification

  function OptionIdOf(v: Json): (id: string)
    requires HasOptionId(v)
    ensures TextField(v, "optionId") == Some(id)
  {
    TextField(v, "optionId").value
  }

  function EtcTextOf(v: Json): (text: string)
    requires HasEtcText(v)
    ensures TextField(v, "etcText") == Some(text)
  {
    TextField(v, "etcText").value
  }

  function ChosenIds(answered: seq<Json>): (ids: seq<Json>)
    requires forall v :: v in answered ==> HasOptionId(v)
    ensures |ids| == |answered|
  {
    if answered == [] then []
    else
      var n := |answered| - 1;
      assert answered[n] in answered;
      ChosenIds(answered[..n]) + [Str(OptionIdOf(answered[n]))]
  }

  function SelectedIds(answered: seq<Json>): seq<Json>
    requires forall v :: v in answered ==> v.Arr?
  {
    if answered == [] then []
    else
      var n := |answered| - 1;
      SelectedIds(answered[..n]) + answered[n].items
  }

  function EtcText(options: seq<Choice>, v: Json, mask: string -> string): seq<string>
    requires HasOptionId(v)
  {
    var option := FindOption(options, OptionIdOf(v));
    if option.Some? && option.value.isEtc && HasEtcText(v) then [mask(Trim(EtcTextOf(v)))] else []
  }

  function EtcTexts(options: seq<Choice>, answered: seq<Json>, mask: string -> string): seq<string>
    requires forall v :: v in answered ==> HasOptionId(v)
  {
    if answered == [] then []
    else
      var n := |answered| - 1;
      EtcTexts(options, answered[..n], mask) + EtcText(options, answered[n], mask)
  }

  function ChoiceOrder(o: Choice): int { o.orderNo }

  function RowOf(o: Choice, counts: multiset<Json>, total: nat): ResultOption {
    var count := counts[Str(o.id)];
    ResultOption(o.id, o.text, count, if total == 0 then 0.0 else count as real / total as real * 100.0)
  }

  function RowsOf(options: seq<Choice>, counts: multiset<Json>, total: nat): seq<ResultOption> {
    if options == [] then [] else [RowOf(options[0], counts, total)] + RowsOf(options[1..], counts, total)
  }

  function Sum(values: seq<Json>): real
    requires forall v :: v in values ==> v.Num?
  {
    if values == [] then 0.0
    else
      var n := |values| - 1;
      Sum(values[..n]) + values[n].n
  }

  function Average(values: seq<Json>): real
    requires forall v :: v in values ==> v.Num?
  {
    if values == [] then 0.0 else Sum(values) / |values| as real
  }

  /** `Math.round(x * 10) / 10`. */
  function RoundToTenth(x: real): real {
    (x * 10.0 + 0.5).Floor as real / 10.0
  }

  function TextsOf(answered: seq<Json>, mask: string -> string): multiset<string>
    requires forall v :: v in answered ==> v.Str?
  {
    if answered == [] then multiset{}
    else
      var n := |answered| - 1;
      TextsOf(answered[..n], mask) + multiset{mask(Trim(answered[n].s))}
  }

  /** The result of a question: how often each option, score or text occurs
      among the answers. */
  function ResultOf(q: Question, sessions: seq<Session>, mask: string -> string): QuestionResult {
    var answered := Answered(q, sessions);
    var total := |answered|;
    var unanswered := |sessions| - total;
    match q.kind
    case SINGLE_CHOICE =>
      ChoiceResult(total, unanswered,
                   RowsOf(SortBy(ChoiceOrder, q.options), multiset(ChosenIds(answered)), total),
                   EtcTexts(q.options, answered, mask))
    case MULTI_CHOICE =>
      ChoiceResult(total, unanswered,
                   RowsOf(SortBy(ChoiceOrder, q.options), multiset(SelectedIds(answered)), total), [])
    case SCALE =>
      ScaleResult(total, unanswered, RoundToTenth(Average(answered)), ScaleCounts(multiset(answered)))
    case _ => TextResult(total, unanswered, TextsOf(answered, mask))
  }

  function ScaleCounts(values: multiset<Json>): seq<nat> {
    [values[Score(1)], values[Score(2)], values[Score(3)], values[Score(4)], values[Score(5)]]
  }

  // ---------------------------------------------------------------- the loops

  /** `counts` holds what it should of `values`, and a zero for every option. */
  ghost predicate Tallies(counts: map<Json, nat>, options: seq<Choice>, values: multiset<Json>) {
    && (forall v :: v in values ==> v in counts)
    && (forall v :: v in counts ==> counts[v] == values[v])
    && (forall o :: o in options ==> Str(o.id) in counts)
  }

  function ZeroCounts(options: seq<Choice>): map<Json, nat> {
    map o | o in options :: Str(o.id) := 0
  }

  /** `counts.set(id, (counts.get(id) ?? 0) + 1)`. */
  function Counted(counts: map<Json, nat>, v: Json): map<Json, nat> {
    counts[v := (if v in counts then counts[v] else 0) + 1]
  }

  lemma CountedTallies(counts: map<Json, nat>, options: seq<Choice>, values: multiset<Json>, v: Json)
    requires Tallies(counts, options, values)
    ensures Tallies(Counted(counts, v), options, values + multiset{v})
  {
  }

  method CountChoices(options: seq<Choice>, answered: seq<Json>, mask: string -> string)
    returns (counts: map<Json, nat>, etcAnswers: seq<string>)
    requires forall v :: v in answered ==> HasOptionId(v)
    ensures Tallies(counts, options, multiset(ChosenIds(answered)))
    ensures etcAnswers == EtcTexts(options, answered, mask)
  {
    counts, etcAnswers := ZeroCounts(options), [];
    assert Tallies(counts, options, multiset(ChosenIds(answered[..0])));
    hide Tallies, Counted, FindOption, HasOptionId, TextField, HasEtcText, ChosenIds, EtcTexts, Trim;
    for i := 0 to |answered|
      invariant Tallies(counts, options, multiset(ChosenIds(answered[..i])))
      invariant etcAnswers == EtcTexts(options, answered[..i], mask)
    {
      var value := answered[i];
      NextChoice(options, answered, i, mask);
      var optionId := OptionIdOf(value);
      CountedTallies(counts, options, multiset(ChosenIds(answered[..i])), Str(optionId));
      counts := Counted(counts, Str(optionId));
      var option := FindOption(options, optionId);
      if option.Some? && option.value.isEtc && HasEtcText(value) {
        etcAnswers := etcAnswers + [mask(Trim(EtcTextOf(value)))];
      }
    }
    assert answered[..|answered|] == answered;
  }

  lemma NextChoice(options: seq<Choice>, answered: seq<Json>, i: nat, mask: string -> string)
    requires i < |answered| && forall v :: v in answered ==> HasOptionId(v)
    ensures HasOptionId(answered[i])
    ensures multiset(ChosenIds(answered[..i + 1])) == multiset(ChosenIds(answered[..i]))
            + multiset{Str(OptionIdOf(answered[i]))}
    ensures EtcTexts(options, answered[..i + 1], mask) == EtcTexts(options, answered[..i], mask)
            + EtcText(options, answered[i], mask)
  {
    hide HasOptionId, EtcText;
    assert answered[i] in answered && answered[..i + 1][..i] == answered[..i];
  }

  method CountItems(options: seq<Choice>, optionIds: seq<Json>, before: map<Json, nat>, ghost values: multiset<Json>)
    returns (counts: map<Json, nat>)
    requires Tallies(before, options, values)
    ensures Tallies(counts, options, values + multiset(optionIds))
  {
    hide Tallies, Counted;
    counts := before;
    assert values + multiset(optionIds[..0]) == values;
    for k := 0 to |optionIds|
      invariant Tallies(counts, options, values + multiset(optionIds[..k]))
    {
      assert optionIds[..k + 1] == optionIds[..k] + [optionIds[k]];
      CountedTallies(counts, options, values + multiset(optionIds[..k]), optionIds[k]);
      assert values + multiset(optionIds[..k]) + multiset{optionIds[k]} == values + multiset(optionIds[..k + 1]);
      counts := Counted(counts, optionIds[k]);
    }
    assert optionIds[..|optionIds|] == optionIds;
  }

  method CountSelections(options: seq<Choice>, answered: seq<Json>) returns (counts: map<Json, nat>)
    requires forall v :: v in answered ==> v.Arr?
    ensures Tallies(counts, options, multiset(SelectedIds(answered)))
  {
    counts := ZeroCounts(options);
    assert Tallies(counts, options, multiset(SelectedIds(answered[..0])));
    hide Tallies;
    for i := 0 to |answered|
      invariant Tallies(counts, options, multiset(SelectedIds(answered[..i])))
    {
      assert answered[i] in answered && answered[..i + 1][..i] == answered[..i];
      counts := CountItems(options, answered[i].items, counts, multiset(SelectedIds(answered[..i])));
    }
    assert answered[..|answered|] == answered;
  }

  method OptionRows(options: seq<Choice>, counts: map<Json, nat>, total: nat, ghost values: multiset<Json>)
    returns (rows: seq<ResultOption>)
    requires Tallies(counts, options, values)
    ensures rows == RowsOf(options, values, total)
  {
    rows := [];
    for i := |options| downto 0
      invariant rows == RowsOf(options[i..], values, total)
    {
      var o := options[i];
      assert o in options && options[i..][1..] == options[i + 1..];
      var count := counts[Str(o.id)];
      rows := [ResultOption(o.id, o.text, count, if total == 0 then 0.0 else count as real / total as real * 100.0)]
        + rows;
    }
  }

  /** buildQuestionResult. */
  method BuildQuestionResult(q: Question, sessions: seq<Session>, mask: string -> string) returns (r: QuestionResult)
    ensures r == ResultOf(q, sessions, mask)
  {
    hide Tallies, ChosenIds, SelectedIds, RowsOf, EtcTexts, TextsOf, Average, ScaleCounts, Answered;
    var answered := Answered(q, sessions);
    var total := |answered|;
    var unanswered := |sessions| - total;
    var options := SortBy(ChoiceOrder, q.options);
    SortKeepsOptions(q.options);
    match q.kind {
      case SINGLE_CHOICE =>
        var counts, etcAnswers := CountChoices(q.options, answered, mask);
        ghost var values := multiset(ChosenIds(answered));
        TalliesOfSame(counts, q.options, options, values);
        var rows := OptionRows(options, counts, total, values);
        r := ChoiceResult(total, unanswered, rows, etcAnswers);
      case MULTI_CHOICE =>
        var counts := CountSelections(q.options, answered);
        ghost var values := multiset(SelectedIds(answered));
        TalliesOfSame(counts, q.options, options, values);
        var rows := OptionRows(options, counts, total, values);
        r := ChoiceResult(total, unanswered, rows, []);
      case SCALE =>
        r := ScaleResult(total, unanswered, RoundToTenth(Average(answered)), ScaleCounts(multiset(answered)));
      case _ =>
        r := TextResult(total, unanswered, TextsOf(answered, mask));
    }
  }

  lemma SortKeepsOptions(options: seq<Choice>)
    ensures forall o :: o in SortBy(ChoiceOrder, options) <==> o in options
  {
    SortBySorts(ChoiceOrder, options);
    forall o
      ensures o in SortBy(ChoiceOrder, options) <==> o in options
    {
      assert o in SortBy(ChoiceOrder, options) <==> o in multiset(options);
    }
  }

  lemma TalliesOfSame(counts: map<Json, nat>, options: seq<Choice>, sorted: seq<Choice>, values: multiset<Json>)
    requires Tallies(counts, options, values) && forall o :: o in sorted <==> o in options
    ensures Tallies(counts, sorted, values)
  {
  }

  // ---------------------------------------------------------------- what is conserved

  /** Every session was accepted as a submission to this survey. */
  ghost predicate AllAccepted(questions: seq<Question>, sessions: seq<Session>) {
    forall s :: s in sessions ==> Accepts(questions, s.answers)
  }

  /** Every session's answer to the question is blank or valid. */
  ghost predicate AllFine(q: Question, sessions: seq<Session>) {
    forall s :: s in sessions ==> FineFor(q, Get(s.answers, q.stableKey))
  }

  predicate IsBlankIn(q: Question, s: Session) {
    IsBlankAnswer(q.kind, Get(s.answers, q.stableKey))
  }

  /** A blank option id: text that the submission check reads as no answer. */
  predicate HasBlankId(q: Question, s: Session) {
    IsBlankIn(q, s) && Stored(q, s).Some? && HasOptionId(Stored(q, s).value)
  }

  function FilledIn(q: Question, sessions: seq<Session>): nat {
    if sessions == [] then 0
    else
      var n := |sessions| - 1;
      FilledIn(q, sessions[..n]) + if IsBlankIn(q, sessions[n]) then 0 else 1
  }

  function BlankIds(q: Question, sessions: seq<Session>): nat {
    if sessions == [] then 0
    else
      var n := |sessions| - 1;
      BlankIds(q, sessions[..n]) + if HasBlankId(q, sessions[n]) then 1 else 0
  }

  /** What the last session adds to the answered values. */
  function AddedBy(q: Question, s: Session): seq<Json> {
    match Stored(q, s)
    case None => []
    case Some(v) => if CountsAsAnswer(q.kind, v) then [v] else []
  }

  lemma AnsweredStep(q: Question, sessions: seq<Session>)
    requires sessions != []
    ensures var n := |sessions| - 1; Answered(q, sessions) == Answered(q, sessions[..n]) + AddedBy(q, sessions[n])
  {
    hide Stored, CountsAsAnswer;
    var n := |sessions| - 1;
    var front := RawValues(q, sessions[..n]);
    if Stored(q, sessions[n]).Some? {
      assert (front + [Stored(q, sessions[n]).value])[..|front|] == front;
    } else {
      assert front + [] == front;
    }
  }

  /** What an accepted answer counts as. */
  lemma AddedMeaning(q: Question, s: Session)
    requires FineFor(q, Get(s.answers, q.stableKey))
    ensures AddedBy(q, s) == [] <==> IsBlankIn(q, s) && !(q.kind == SINGLE_CHOICE && HasBlankId(q, s))
    ensures |AddedBy(q, s)| <= 1
    ensures !IsBlankIn(q, s) ==> AddedBy(q, s) == [Stored(q, s).value] && ValidValue(q, Stored(q, s).value)
    ensures IsBlankIn(q, s) && AddedBy(q, s) != [] ==> AddedBy(q, s) == [Stored(q, s).value] && HasBlankId(q, s)
  {
    hide Get, ValidValue, Trim;
  }

  /** An answer counts exactly when the submission check took it for one, but for
      single choices with a blank option id. */
  lemma {:induction false} AnsweredMatchesValidator(q: Question, sessions: seq<Session>)
    requires AllFine(q, sessions)
    ensures |Answered(q, sessions)|
         == FilledIn(q, sessions) + if q.kind == SINGLE_CHOICE then BlankIds(q, sessions) else 0
    decreases |sessions|
  {
    hide Answered, FineFor, Stored, CountsAsAnswer, HasBlankId, IsBlankIn, AddedBy, Get;
    if sessions == [] {
      NothingAnswered(q);
    } else {
      var n := |sessions| - 1;
      AnsweredMatchesValidator(q, sessions[..n]);
      AnsweredStep(q, sessions);
      assert sessions[n] in sessions;
      AddedMeaning(q, sessions[n]);
      BlankIdIsBlank(q, sessions[n]);
    }
  }

  lemma BlankIdIsBlank(q: Question, s: Session)
    ensures HasBlankId(q, s) ==> IsBlankIn(q, s)
  {
  }

  lemma NothingAnswered(q: Question)
    ensures Answered(q, []) == []
  {
  }

  lemma {:induction false} FilledInIsAtMostAll(q: Question, sessions: seq<Session>)
    ensures FilledIn(q, sessions) + BlankIds(q, sessions) <= |sessions|
    ensures (forall s :: s in sessions ==> !IsBlankIn(q, s)) ==> FilledIn(q, sessions) == |sessions|
    decreases |sessions|
  {
    hide IsBlankIn, HasBlankId;
    if sessions != [] {
      var n := |sessions| - 1;
      assert sessions == sessions[..n] + [sessions[n]];
      FilledInIsAtMostAll(q, sessions[..n]);
      BlankIdIsBlank(q, sessions[n]);
    }
  }

  // ---------------------------------------------------------------- option counts

  function SumOver(options: seq<Choice>, counts: multiset<Json>): nat {
    if options == [] then 0 else counts[Str(options[0].id)] + SumOver(options[1..], counts)
  }

  function SumOfRows(rows: seq<ResultOption>): nat {
    if rows == [] then 0 else rows[0].count + SumOfRows(rows[1..])
  }

  lemma {:induction false} RowsSum(options: seq<Choice>, counts: multiset<Json>, total: nat)
    ensures SumOfRows(RowsOf(options, counts, total)) == SumOver(options, counts)
  {
    if options != [] {
      RowsSum(options[1..], counts, total);
    }
  }

  lemma {:induction false} SumOfInserted(options: seq<Choice>, o: Choice, counts: multiset<Json>)
    ensures SumOver(InsertBy(ChoiceOrder, o, options), counts) == counts[Str(o.id)] + SumOver(options, counts)
  {
    if options == [] || ChoiceOrder(o) <= ChoiceOrder(options[0]) {
      assert ([o] + options)[1..] == options;
    } else {
      SumOfInserted(options[1..], o, counts);
    }
  }

  lemma {:induction false} SumOfSorted(options: seq<Choice>, counts: multiset<Json>)
    ensures SumOver(SortBy(ChoiceOrder, options), counts) == SumOver(options, counts)
  {
    if options != [] {
      SumOfSorted(options[1..], counts);
      SumOfInserted(SortBy(ChoiceOrder, options[1..]), options[0], counts);
    }
  }

  predicate IsOption(options: seq<Choice>, v: Json) {
    exists o :: o in options && Str(o.id) == v
  }

  lemma {:induction false} SumOfAdded(options: seq<Choice>, counts: multiset<Json>, v: Json)
    requires OptionIdsAreKeys(options)
    ensures SumOver(options, counts + multiset{v}) == SumOver(options, counts) + if IsOption(options, v) then 1 else 0
  {
    hide Blank;
    if options != [] {
      var first, rest := options[0], options[1..];
      assert options == [first] + rest;
      assert OptionIdsAreKeys(rest);
      SumOfAdded(rest, counts, v);
      assert options[0] == first && forall i :: 0 <= i < |rest| ==> rest[i] == options[i + 1];
    }
  }

  lemma {:induction false} SumOfAll(options: seq<Choice>, counts: multiset<Json>, items: seq<Json>)
    requires OptionIdsAreKeys(options) && forall i :: 0 <= i < |items| ==> IsOption(options, items[i])
    ensures SumOver(options, counts + multiset(items)) == SumOver(options, counts) + |items|
    decreases |items|
  {
    hide IsOption, OptionIdsAreKeys;
    if items == [] {
      assert counts + multiset(items) == counts;
    } else {
      var n := |items| - 1;
      SumOfAll(options, counts, items[..n]);
      assert items == items[..n] + [items[n]];
      SumOfAdded(options, counts + multiset(items[..n]), items[n]);
      assert counts + multiset(items) == counts + multiset(items[..n]) + multiset{items[n]};
    }
  }

  lemma {:induction false} SumOfNone(options: seq<Choice>)
    ensures SumOver(options, multiset{}) == 0
  {
    if options != [] {
      SumOfNone(options[1..]);
    }
  }

  // ---------------------------------------------------------------- single choice

  lemma ChosenOfAdded(answered: seq<Json>, v: Json)
    requires (forall a :: a in answered ==> HasOptionId(a)) && HasOptionId(v)
    ensures forall a :: a in answered + [v] ==> HasOptionId(a)
    ensures ChosenIds(answered + [v]) == ChosenIds(answered) + [Str(OptionIdOf(v))]
  {
    hide HasOptionId;
    assert (answered + [v])[..|answered|] == answered;
  }

  /** A single choice that is filled in names an option, a blank id does not. */
  lemma ChoiceNamesOption(q: Question, s: Session)
    requires q.kind == SINGLE_CHOICE && OptionIdsAreKeys(q.options) && FineFor(q, Get(s.answers, q.stableKey))
    requires AddedBy(q, s) != []
    ensures HasOptionId(AddedBy(q, s)[0])
    ensures IsOption(q.options, Str(OptionIdOf(AddedBy(q, s)[0]))) <==> !IsBlankIn(q, s)
  {
    hide Get, Trim, Blank;
    AddedMeaning(q, s);
    var id := OptionIdOf(AddedBy(q, s)[0]);
    if !IsBlankIn(q, s) {
      var k :| 0 <= k < |q.options| && Some(q.options[k].id) == Some(id);
      assert q.options[k] in q.options;
    } else {
      assert Blank(id);
    }
  }

  lemma ChosenSumStep(q: Question, front: seq<Json>, s: Session)
    requires q.kind == SINGLE_CHOICE && OptionIdsAreKeys(q.options) && FineFor(q, Get(s.answers, q.stableKey))
    requires forall a :: a in front ==> HasOptionId(a)
    ensures forall a :: a in front + AddedBy(q, s) ==> HasOptionId(a)
    ensures SumOver(q.options, multiset(ChosenIds(front + AddedBy(q, s))))
         == SumOver(q.options, multiset(ChosenIds(front))) + if IsBlankIn(q, s) then 0 else 1
  {
    hide FineFor, Get, AddedBy, IsBlankIn, IsOption, OptionIdsAreKeys, HasOptionId, OptionIdOf, ChosenIds, SumOver,
         Stored, HasBlankId, ValidValue;
    AddedMeaning(q, s);
    var added := AddedBy(q, s);
    if added == [] {
      assert front + added == front;
    } else {
      ChoiceNamesOption(q, s);
      assert added == [added[0]];
      ChosenOfAdded(front, added[0]);
      SumOfAdded(q.options, multiset(ChosenIds(front)), Str(OptionIdOf(added[0])));
    }
  }

  lemma {:induction false} ChosenSum(q: Question, sessions: seq<Session>)
    requires q.kind == SINGLE_CHOICE && OptionIdsAreKeys(q.options) && AllFine(q, sessions)
    ensures SumOver(q.options, multiset(ChosenIds(Answered(q, sessions)))) == FilledIn(q, sessions)
    decreases |sessions|
  {
    hide Answered, FineFor, Get, AddedBy, IsBlankIn, OptionIdsAreKeys, HasOptionId, ChosenIds, SumOver;
    if sessions == [] {
      NothingAnswered(q);
      NothingChosen(q);
    } else {
      var n := |sessions| - 1;
      ChosenSum(q, sessions[..n]);
      AnsweredStep(q, sessions);
      assert sessions[n] in sessions;
      ChosenSumStep(q, Answered(q, sessions[..n]), sessions[n]);
    }
  }

  lemma NothingChosen(q: Question)
    ensures SumOver(q.options, multiset(ChosenIds([]))) == 0
  {
    SumOfNone(q.options);
    assert multiset(ChosenIds([])) == multiset{};
  }

  lemma {:induction false} BlankIdsMeaning(q: Question, sessions: seq<Session>)
    ensures BlankIds(q, sessions) == 0 <==> forall s :: s in sessions ==> !HasBlankId(q, s)
    decreases |sessions|
  {
    hide HasBlankId;
    if sessions != [] {
      var n := |sessions| - 1;
      assert sessions == sessions[..n] + [sessions[n]];
      BlankIdsMeaning(q, sessions[..n]);
    }
  }

  lemma AcceptedIsFine(questions: seq<Question>, q: Question, sessions: seq<Session>)
    requires q in questions && AllAccepted(questions, sessions)
    ensures AllFine(q, sessions)
    ensures q.required ==> forall s :: s in sessions ==> !IsBlankIn(q, s)
  {
    hide FineFor, Get, IsBlankAnswer, IsKnown;
  }

  /** Single choice: the option counts add up to the answers the submission check
      saw, and to the reported response count exactly when nobody stored a blank
      option id. */
  lemma SingleChoiceConserves(questions: seq<Question>, q: Question, sessions: seq<Session>, mask: string -> string)
    requires q in questions && q.kind == SINGLE_CHOICE && OptionIdsAreKeys(q.options)
             && AllAccepted(questions, sessions)
    ensures var r := ResultOf(q, sessions, mask);
            && SumOfRows(r.options) == FilledIn(q, sessions)
            && r.responseCount == FilledIn(q, sessions) + BlankIds(q, sessions)
            && r.unansweredCount == |sessions| - r.responseCount >= 0
            && (SumOfRows(r.options) == r.responseCount <==> forall s :: s in sessions ==> !HasBlankId(q, s))
  {
    hide AllAccepted, AllFine, SumOver, HasBlankId, FilledIn, BlankIds, OptionIdsAreKeys, Answered, RowsOf, SumOfRows,
         EtcTexts;
    var answered := Answered(q, sessions);
    AcceptedIsFine(questions, q, sessions);
    AnsweredMatchesValidator(q, sessions);
    ChosenSum(q, sessions);
    BlankIdsMeaning(q, sessions);
    FilledInIsAtMostAll(q, sessions);
    var counts := multiset(ChosenIds(answered));
    SumOfSorted(q.options, counts);
    RowsSum(SortBy(ChoiceOrder, q.options), counts, |answered|);
  }

  const ONE_CHOICE := Question(1, "q", SINGLE_CHOICE, "", false, None, None, None, None, None, None,
                               [Choice("a", 1, "A", false)])
  const BLANK_CHOICE := Session(Some(0), [Entry("q", Obj(map["optionId" := Str(" ")]))])

  lemma BlankChoiceIsAccepted()
    ensures AllAccepted([ONE_CHOICE], [BLANK_CHOICE]) && OptionIdsAreKeys(ONE_CHOICE.options)
    ensures IsBlankIn(ONE_CHOICE, BLANK_CHOICE) && HasBlankId(ONE_CHOICE, BLANK_CHOICE)
  {
    var raw := Obj(map["optionId" := Str(" ")]);
    assert TextField(raw, "optionId") == Some(" ") && Blank(" ");
    assert Get(BLANK_CHOICE.answers, "q") == Some(raw);
  }

  /** One accepted submission whose option id is a space: one response, no option chosen. */
  lemma BlankChoiceIsCountedNowhere(mask: string -> string)
    ensures AllAccepted([ONE_CHOICE], [BLANK_CHOICE])
    ensures var r := ResultOf(ONE_CHOICE, [BLANK_CHOICE], mask); r.responseCount == 1 && SumOfRows(r.options) == 0
  {
    hide AllAccepted, IsBlankIn, HasBlankId, OptionIdsAreKeys, ResultOf, SumOfRows;
    BlankChoiceIsAccepted();
    SingleChoiceConserves([ONE_CHOICE], ONE_CHOICE, [BLANK_CHOICE], mask);
    assert FilledIn(ONE_CHOICE, []) == 0 && BlankIds(ONE_CHOICE, []) == 0;
    assert [BLANK_CHOICE][..0] == [];
  }

  // ---------------------------------------------------------------- texts of the "other" option

  lemma FindsOnly(options: seq<Choice>, o: Choice)
    requires OptionIdsAreKeys(options) && o in options
    ensures FindOption(options, o.id) == Some(o)
  {
    hide Blank;
    var k :| 0 <= k < |options| && options[k] == o;
    var found := FindOption(options, o.id);
    assert found.Some?;
    var i :| 0 <= i < |options| && options[i] == found.value;
  }

  /** An accepted choice brings a text exactly when it is the one "other" option. */
  lemma EtcTextMeaning(q: Question, s: Session, other: Choice, mask: string -> string)
    requires q.kind == SINGLE_CHOICE && OptionIdsAreKeys(q.options) && FineFor(q, Get(s.answers, q.stableKey))
    requires other in q.options && other.isEtc && AtMostOneEtc(q.options) && AddedBy(q, s) != []
    ensures HasOptionId(AddedBy(q, s)[0])
    ensures |EtcText(q.options, AddedBy(q, s)[0], mask)| == if OptionIdOf(AddedBy(q, s)[0]) == other.id then 1 else 0
  {
    hide Get, Trim, Blank, OptionIdsAreKeys, HasEtcText;
    AddedMeaning(q, s);
    ChoiceNamesOption(q, s);
    var v := AddedBy(q, s)[0];
    FindsOnly(q.options, other);
    if !IsBlankIn(q, s) {
      var k :| && 0 <= k < |q.options| && TextField(v, "optionId") == Some(q.options[k].id)
               && (q.options[k].isEtc ==> HasEtcText(v));
      FindsOnly(q.options, q.options[k]);
      var j :| 0 <= j < |q.options| && q.options[j] == other;
    }
  }

  lemma EtcTextsStep(options: seq<Choice>, front: seq<Json>, v: Json, mask: string -> string)
    requires (forall a :: a in front ==> HasOptionId(a)) && HasOptionId(v)
    ensures forall a :: a in front + [v] ==> HasOptionId(a)
    ensures EtcTexts(options, front + [v], mask) == EtcTexts(options, front, mask) + EtcText(options, v, mask)
  {
    hide HasOptionId, EtcText;
    assert (front + [v])[..|front|] == front;
  }

  lemma {:induction false} EtcTextsCount(q: Question, sessions: seq<Session>, other: Choice, mask: string -> string)
    requires q.kind == SINGLE_CHOICE && OptionIdsAreKeys(q.options) && AllFine(q, sessions)
    requires other in q.options && other.isEtc && AtMostOneEtc(q.options)
    ensures |EtcTexts(q.options, Answered(q, sessions), mask)|
            == multiset(ChosenIds(Answered(q, sessions)))[Str(other.id)]
    decreases |sessions|
  {
    hide Answered, FineFor, Get, AddedBy, IsBlankIn, OptionIdsAreKeys, HasOptionId, OptionIdOf, ChosenIds, EtcTexts,
         EtcText, AtMostOneEtc, Stored, HasBlankId, ValidValue;
    if sessions == [] {
      NothingAnswered(q);
      NoTexts(q, mask);
    } else {
      var n := |sessions| - 1;
      EtcTextsCount(q, sessions[..n], other, mask);
      AnsweredStep(q, sessions);
      assert sessions[n] in sessions;
      AddedMeaning(q, sessions[n]);
      var front, added := Answered(q, sessions[..n]), AddedBy(q, sessions[n]);
      if added == [] {
        assert front + added == front;
      } else {
        EtcTextMeaning(q, sessions[n], other, mask);
        assert added == [added[0]];
        ChosenOfAdded(front, added[0]);
        EtcTextsStep(q.options, front, added[0], mask);
      }
    }
  }

  lemma NoTexts(q: Question, mask: string -> string)
    ensures ChosenIds([]) == [] && EtcTexts(q.options, [], mask) == []
  {
  }

  lemma {:induction false} RowOfOption(options: seq<Choice>, counts: multiset<Json>, total: nat)
    ensures forall row :: row in RowsOf(options, counts, total) ==> row.count == counts[Str(row.id)]
  {
    if options != [] {
      RowOfOption(options[1..], counts, total);
    }
  }

  /** As many texts are listed as the "other" option was chosen. */
  lemma EtcAnswersMatchCount(questions: seq<Question>, q: Question, sessions: seq<Session>, other: Choice,
                             mask: string -> string)
    requires q in questions && q.kind == SINGLE_CHOICE && OptionIdsAreKeys(q.options)
             && AllAccepted(questions, sessions)
    requires other in q.options && other.isEtc && AtMostOneEtc(q.options)
    ensures var r := ResultOf(q, sessions, mask);
            forall row :: row in r.options && row.id == other.id ==> row.count == |r.etcAnswers|
  {
    hide AllAccepted, AllFine, OptionIdsAreKeys, Answered, RowsOf, EtcTexts, ChosenIds, AtMostOneEtc;
    AcceptedIsFine(questions, q, sessions);
    EtcTextsCount(q, sessions, other, mask);
    var answered := Answered(q, sessions);
    RowOfOption(SortBy(ChoiceOrder, q.options), multiset(ChosenIds(answered)), |answered|);
  }

  // ---------------------------------------------------------------- multi choice

  lemma {:induction false} DistinctOnce(values: seq<Json>, v: Json)
    requires Distinct(values)
    ensures multiset(values)[v] <= 1
  {
    if values != [] {
      assert values == [values[0]] + values[1..];
      DistinctStep(values[0], values[1..]);
      DistinctOnce(values[1..], v);
      hide Distinct;
    }
  }

  lemma SelectedOfAdded(answered: seq<Json>, v: Json)
    requires (forall a :: a in answered ==> a.Arr?) && v.Arr?
    ensures forall a :: a in answered + [v] ==> a.Arr?
    ensures SelectedIds(answered + [v]) == SelectedIds(answered) + v.items
  {
    assert (answered + [v])[..|answered|] == answered;
  }

  lemma SelectionIsValid(q: Question, s: Session)
    requires q.kind == MULTI_CHOICE && FineFor(q, Get(s.answers, q.stableKey)) && AddedBy(q, s) != []
    ensures var v := AddedBy(q, s)[0];
            && v.Arr? && Distinct(v.items) && MinSelect(q) <= |v.items| <= MaxSelect(q)
            && forall i :: 0 <= i < |v.items| ==> IsOption(q.options, v.items[i])
  {
    hide Get, Trim, Blank, Distinct;
    AddedMeaning(q, s);
    var v := AddedBy(q, s)[0];
    forall i | 0 <= i < |v.items|
      ensures IsOption(q.options, v.items[i])
    {
      assert IsOptionId(v.items[i], q.options);
    }
  }

  /** The bounds the selections of `count` answers keep. */
  ghost predicate WithinBounds(q: Question, selected: seq<Json>, count: nat) {
    && count * MinSelect(q) <= |selected| <= count * MaxSelect(q)
    && SumOver(q.options, multiset(selected)) == |selected|
    && forall v :: multiset(selected)[v] <= count
  }

  lemma BoundsGrow(q: Question, selected: seq<Json>, count: nat, items: seq<Json>)
    requires OptionIdsAreKeys(q.options) && WithinBounds(q, selected, count)
    requires Distinct(items) && MinSelect(q) <= |items| <= MaxSelect(q)
    requires forall i :: 0 <= i < |items| ==> IsOption(q.options, items[i])
    ensures WithinBounds(q, selected + items, count + 1)
  {
    hide OptionIdsAreKeys, Distinct, IsOption, MinSelect, MaxSelect, SumOver;
    SumOfAll(q.options, multiset(selected), items);
    assert multiset(selected + items) == multiset(selected) + multiset(items);
    forall v
      ensures multiset(selected + items)[v] <= count + 1
    {
      DistinctOnce(items, v);
    }
    assert (count + 1) * MinSelect(q) == count * MinSelect(q) + MinSelect(q);
    assert (count + 1) * MaxSelect(q) == count * MaxSelect(q) + MaxSelect(q);
  }

  lemma {:induction false} SelectedWithinBounds(q: Question, sessions: seq<Session>)
    requires q.kind == MULTI_CHOICE && OptionIdsAreKeys(q.options) && AllFine(q, sessions)
    ensures WithinBounds(q, SelectedIds(Answered(q, sessions)), |Answered(q, sessions)|)
    decreases |sessions|
  {
    hide Answered, FineFor, Get, AddedBy, IsBlankIn, IsOption, OptionIdsAreKeys, WithinBounds, Distinct, MinSelect,
         MaxSelect;
    if sessions == [] {
      NothingAnswered(q);
      NothingWithinBounds(q);
    } else {
      var n := |sessions| - 1;
      SelectedWithinBounds(q, sessions[..n]);
      AnsweredStep(q, sessions);
      assert sessions[n] in sessions;
      AddedMeaning(q, sessions[n]);
      var front, added := Answered(q, sessions[..n]), AddedBy(q, sessions[n]);
      if added == [] {
        assert front + added == front;
      } else {
        SelectionIsValid(q, sessions[n]);
        assert added == [added[0]];
        SelectedOfAdded(front, added[0]);
        BoundsGrow(q, SelectedIds(front), |front|, added[0].items);
      }
    }
  }

  lemma NothingWithinBounds(q: Question)
    ensures WithinBounds(q, [], 0)
  {
    SumOfNone(q.options);
  }

  lemma {:induction false} RowCounts(options: seq<Choice>, counts: multiset<Json>, total: nat, most: nat)
    requires forall v :: counts[v] <= most
    ensures forall row :: row in RowsOf(options, counts, total) ==> row.count <= most
  {
    if options != [] {
      RowCounts(options[1..], counts, total, most);
    }
  }

  /** Multiple choice: no option is chosen more often than there are answers, and
      the counts add up to between min and max for each answer. */
  lemma MultiChoiceConserves(questions: seq<Question>, q: Question, sessions: seq<Session>, mask: string -> string)
    requires q in questions && q.kind == MULTI_CHOICE && OptionIdsAreKeys(q.options) && AllAccepted(questions, sessions)
    ensures var r := ResultOf(q, sessions, mask);
            && r.responseCount == FilledIn(q, sessions)
            && r.unansweredCount == |sessions| - FilledIn(q, sessions) >= 0
            && (forall row :: row in r.options ==> row.count <= r.responseCount)
            && r.responseCount * MinSelect(q) <= SumOfRows(r.options) <= r.responseCount * MaxSelect(q)
  {
    hide AllAccepted, AllFine, SumOver, FilledIn, OptionIdsAreKeys, Answered, RowsOf, SumOfRows, MinSelect, MaxSelect;
    var answered := Answered(q, sessions);
    AcceptedIsFine(questions, q, sessions);
    AnsweredMatchesValidator(q, sessions);
    SelectedWithinBounds(q, sessions);
    FilledInIsAtMostAll(q, sessions);
    var counts := multiset(SelectedIds(answered));
    var sorted := SortBy(ChoiceOrder, q.options);
    SumOfSorted(q.options, counts);
    RowsSum(sorted, counts, |answered|);
    RowCounts(sorted, counts, |answered|, |answered|);
  }

  // ---------------------------------------------------------------- scale

  /** The values are whole scores of the scale. */
  ghost predicate AreScores(values: seq<Json>) {
    forall v :: v in values ==> IsScore(v)
  }

  ghost predicate IsScore(v: Json) {
    exists n: int :: v == Score(n) && SCALE_MIN <= n <= SCALE_MAX
  }

  lemma AddedAreScores(q: Question, s: Session)
    requires q.kind == SCALE && SCALE_MIN <= MinScale(q) && MaxScale(q) <= SCALE_MAX
    requires FineFor(q, Get(s.answers, q.stableKey))
    ensures AreScores(AddedBy(q, s))
  {
    hide Get;
    AddedMeaning(q, s);
  }

  lemma {:induction false} AnsweredAreScores(q: Question, sessions: seq<Session>)
    requires q.kind == SCALE && SCALE_MIN <= MinScale(q) && MaxScale(q) <= SCALE_MAX && AllFine(q, sessions)
    ensures AreScores(Answered(q, sessions))
    decreases |sessions|
  {
    hide Answered, FineFor, Get, AddedBy, IsScore;
    if sessions == [] {
      NothingAnswered(q);
    } else {
      var n := |sessions| - 1;
      AnsweredAreScores(q, sessions[..n]);
      AnsweredStep(q, sessions);
      assert sessions[n] in sessions;
      AddedAreScores(q, sessions[n]);
    }
  }

  function FiveSum(counts: multiset<Json>): nat {
    counts[Score(1)] + counts[Score(2)] + counts[Score(3)] + counts[Score(4)] + counts[Score(5)]
  }

  lemma FiveSumOfAdded(counts: multiset<Json>, n: int)
    requires SCALE_MIN <= n <= SCALE_MAX
    ensures FiveSum(counts + multiset{Score(n)}) == FiveSum(counts) + 1
  {
  }

  /** The five counts add up to the number of scores, and the scores to between
      1 and 5 times it. */
  lemma {:induction false} ScoresAddUp(values: seq<Json>)
    requires AreScores(values) && forall v :: v in values ==> v.Num?
    ensures FiveSum(multiset(values)) == |values|
    ensures |values| as real <= Sum(values) <= 5.0 * |values| as real
    decreases |values|
  {
    hide FiveSum;
    if values == [] {
      assert FiveSum(multiset{}) == 0 by { NoScores(); }
    } else {
      var n := |values| - 1;
      var front := values[..n];
      assert values == front + [values[n]];
      ScoresAddUp(front);
      assert IsScore(values[n]);
      var score: int :| values[n] == Score(score) && SCALE_MIN <= score <= SCALE_MAX;
      FiveSumOfAdded(multiset(front), score);
    }
  }

  lemma NoScores()
    ensures FiveSum(multiset{}) == 0
  {
  }

  lemma AverageInRange(sum: real, count: nat)
    requires count > 0 && count as real <= sum <= 5.0 * count as real
    ensures 1.0 <= sum / count as real <= 5.0
  {
    var c := count as real;
    var average := sum / c;
    assert average * c == sum;
    ScalingKeepsOrder(average, 1.0, c);
    ScalingKeepsOrder(5.0, average, c);
  }

  lemma ScalingKeepsOrder(x: real, y: real, c: real)
    requires c > 0.0
    ensures x < y <==> x * c < y * c
  {
    assert y * c - x * c == (y - x) * c;
  }

  lemma RoundingStaysInRange(x: real)
    requires 1.0 <= x <= 5.0
    ensures 1.0 <= RoundToTenth(x) <= 5.0
    ensures -0.05 <= RoundToTenth(x) - x <= 0.05
  {
    var y := x * 10.0 + 0.5;
    assert 10 <= y.Floor <= 50;
  }

  /** Scale: the counts of the scores 1 to 5 add up to the answers, and the
      average lies between them (and is 0 when there is no answer). */
  lemma ScaleConserves(questions: seq<Question>, q: Question, sessions: seq<Session>, mask: string -> string)
    requires q in questions && q.kind == SCALE && AllAccepted(questions, sessions)
    requires SCALE_MIN <= MinScale(q) && MaxScale(q) <= SCALE_MAX
    ensures var r := ResultOf(q, sessions, mask);
            && r.responseCount == FilledIn(q, sessions)
            && r.unansweredCount == |sessions| - FilledIn(q, sessions) >= 0
            && |r.scaleCounts| == 5
            && r.scaleCounts[0] + r.scaleCounts[1] + r.scaleCounts[2] + r.scaleCounts[3] + r.scaleCounts[4]
                 == r.responseCount
            && (if r.responseCount == 0 then r.average == 0.0 else 1.0 <= r.average <= 5.0)
  {
    hide AllAccepted, AllFine, FilledIn, Answered, AreScores, Sum, RoundToTenth;
    var answered := Answered(q, sessions);
    AcceptedIsFine(questions, q, sessions);
    AnsweredMatchesValidator(q, sessions);
    FilledInIsAtMostAll(q, sessions);
    AnsweredAreScores(q, sessions);
    ScoresAddUp(answered);
    if answered == [] {
      assert RoundToTenth(0.0) == 0.0 by { RoundOfZero(); }
    } else {
      AverageInRange(Sum(answered), |answered|);
      RoundingStaysInRange(Average(answered));
    }
  }

  lemma RoundOfZero()
    ensures RoundToTenth(0.0) == 0.0
  {
    assert (0.5).Floor == 0;
  }

  // ---------------------------------------------------------------- required questions

  /** Every included session counts as an answer to a required question. */
  lemma RequiredIsAnsweredByAll(questions: seq<Question>, q: Question, sessions: seq<Session>, mask: string -> string)
    requires q in questions && q.required && AllAccepted(questions, sessions)
    ensures ResultOf(q, sessions, mask).unansweredCount == 0
  {
    hide AllAccepted, AllFine, FilledIn, BlankIds, Answered, HasBlankId, IsBlankIn;
    AcceptedIsFine(questions, q, sessions);
    AnsweredMatchesValidator(q, sessions);
    FilledInIsAtMostAll(q, sessions);
  }
}
