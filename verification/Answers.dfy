/** Answers to a survey's questions and the two validators they meet
    (src/response/response-answer.validator.ts): the one for submissions walks
    the questions, the one for drafts walks the answers. */
module Answers {
  import opened Options
  import opened Survey

  const SHORT_ANSWER_MAX_LENGTH := 50
  const NARRATIVE_MAX_LENGTH := 500

  /** A value a client may send. */
  datatype Json =
    | Null
    | Bool(b: bool)
    | Num(n: real)
    | Str(s: string)
    | Arr(items: seq<Json>)
    | Obj(fields: map<string, Json>)

  datatype Choice = Choice(id: string, orderNo: int, text: string, isEtc: bool)

  datatype Question = Question(
    orderNo: int, stableKey: string, kind: QuestionType, questionText: string, required: bool,
    minSelect: Option<int>, maxSelect: Option<int>, minScale: Option<int>, maxScale: Option<int>,
    minScaleLabel: Option<string>, maxScaleLabel: Option<string>, options: seq<Choice>)

  /** One entry of the object that maps question keys to answers. */
  datatype Entry = Entry(key: string, value: Json)

  datatype AnswerError =
    | UnknownQuestion(key: string)
    | RequiredMissing(orderNo: int)
    | OptionNotFound(orderNo: int)
    | EtcTextMissing(orderNo: int)
    | DuplicateOption(orderNo: int)
    | SelectionCount(orderNo: int, min: int, max: int)
    | ScaleRange(orderNo: int, min: int, max: int)
    | TooLong(orderNo: int, max: int)

  function Score(score: int): Json {
    Num(score as real)
  }

  function Field(value: Json, name: string): Option<Json> {
    if value.Obj? && name in value.fields then Some(value.fields[name]) else None
  }

  function TextField(value: Json, name: string): Option<string> {
    match Field(value, name)
    case Some(Str(s)) => Some(s)
    case _ => None
  }

  /** The answer under a key, if there is one. */
  function Get(answers: seq<Entry>, key: string): Option<Json> {
    if answers == [] then None
    else if answers[0].key == key then Some(answers[0].value)
    else Get(answers[1..], key)
  }

  ghost predicate DistinctEntries(answers: seq<Entry>) {
    forall i, j :: 0 <= i < j < |answers| ==> answers[i].key != answers[j].key
  }

  ghost predicate DistinctQuestions(questions: seq<Question>) {
    forall i, j :: 0 <= i < j < |questions| ==> questions[i].stableKey != questions[j].stableKey
  }

  // ---------------------------------------------------------------- one answer

  predicate IsBlankAnswer(kind: QuestionType, raw: Option<Json>) {
    || raw == None
    || raw.value.Null?
    || match kind
       case MULTI_CHOICE => !raw.value.Arr? || raw.value.items == []
       case SINGLE_CHOICE =>
         var optionId := TextField(raw.value, "optionId");
         optionId == None || Blank(optionId.value)
       case SCALE => !raw.value.Num?
       case _ => !raw.value.Str? || Blank(raw.value.s)
  }

  function FindOption(options: seq<Choice>, id: string): (found: Option<Choice>)
    ensures found.Some? ==> found.value in options && found.value.id == id
    ensures found == None ==> forall o :: o in options ==> o.id != id
  {
    if options == [] then None
    else if options[0].id == id then Some(options[0])
    else FindOption(options[1..], id)
  }

  predicate HasEtcText(raw: Json) {
    var etcText := TextField(raw, "etcText");
    etcText.Some? && !Blank(etcText.value)
  }

  function ValidateSingleChoice(q: Question, raw: Json): seq<AnswerError>
    requires TextField(raw, "optionId").Some?
  {
    match FindOption(q.options, TextField(raw, "optionId").value)
    case None => [OptionNotFound(q.orderNo)]
    case Some(option) => if option.isEtc && !HasEtcText(raw) then [EtcTextMissing(q.orderNo)] else []
  }

  predicate IsOptionId(v: Json, options: seq<Choice>) {
    v.Str? && exists o :: o in options && o.id == v.s
  }

  function MinSelect(q: Question): int { q.minSelect.GetOr(1) }
  function MaxSelect(q: Question): int { q.maxSelect.GetOr(|q.options|) }
  function MinScale(q: Question): int { q.minScale.GetOr(SCALE_MIN) }
  function MaxScale(q: Question): int { q.maxScale.GetOr(SCALE_MAX) }

  function ValidateMultiChoice(q: Question, raw: Json): seq<AnswerError>
    requires raw.Arr?
  {
    var values := raw.items;
    if exists v :: v in values && !IsOptionId(v, q.options) then [OptionNotFound(q.orderNo)]
    else
      (if |Values(values)| != |values| then [DuplicateOption(q.orderNo)] else [])
      + if |values| < MinSelect(q) || |values| > MaxSelect(q)
        then [SelectionCount(q.orderNo, MinSelect(q), MaxSelect(q))] else []
  }

  function ValidateScale(q: Question, raw: Json): seq<AnswerError>
    requires raw.Num?
  {
    if raw.n != raw.n.Floor as real || raw.n < MinScale(q) as real || raw.n > MaxScale(q) as real
    then [ScaleRange(q.orderNo, MinScale(q), MaxScale(q))] else []
  }

  function ValidateText(q: Question, raw: Json, maxLength: int): seq<AnswerError>
    requires raw.Str?
  {
    if |Trim(raw.s)| > maxLength then [TooLong(q.orderNo, maxLength)] else []
  }

  function ValidateAnswerValue(q: Question, raw: Json): seq<AnswerError>
    requires !IsBlankAnswer(q.kind, Some(raw))
  {
    match q.kind
    case SINGLE_CHOICE => ValidateSingleChoice(q, raw)
    case MULTI_CHOICE => ValidateMultiChoice(q, raw)
    case SCALE => ValidateScale(q, raw)
    case SHORT_ANSWER => ValidateText(q, raw, SHORT_ANSWER_MAX_LENGTH)
    case NARRATIVE => ValidateText(q, raw, NARRATIVE_MAX_LENGTH)
    case ETC => []
  }

  // ---------------------------------------------------------------- the validators

  function KeyErrors(questions: seq<Question>, answers: seq<Entry>): seq<AnswerError> {
    if answers == [] then []
    else
      var key := answers[|answers| - 1].key;
      KeyErrors(questions, answers[..|answers| - 1]) + if IsKnown(questions, key) then [] else [UnknownQuestion(key)]
  }

  predicate IsKnown(questions: seq<Question>, key: string) {
    exists q :: q in questions && q.stableKey == key
  }

  function SubmittedQuestionErrors(q: Question, answers: seq<Entry>): seq<AnswerError> {
    var raw := Get(answers, q.stableKey);
    if !IsBlankAnswer(q.kind, raw) then ValidateAnswerValue(q, raw.value)
    else if q.required then [RequiredMissing(q.orderNo)] else []
  }

  function QuestionErrors(questions: seq<Question>, answers: seq<Entry>): seq<AnswerError> {
    if questions == [] then []
    else
      var n := |questions| - 1;
      QuestionErrors(questions[..n], answers) + SubmittedQuestionErrors(questions[n], answers)
  }

  /** What validateSubmittedAnswers complains about. */
  function SubmittedErrors(questions: seq<Question>, answers: seq<Entry>): seq<AnswerError> {
    KeyErrors(questions, answers) + QuestionErrors(questions, answers)
  }

  method ValidateSubmittedAnswers(questions: seq<Question>, answers: seq<Entry>) returns (errors: seq<AnswerError>)
    ensures errors == SubmittedErrors(questions, answers)
    ensures errors == [] <==> Accepts(questions, answers)
  {
    hide KeyErrors, QuestionErrors, Get, IsBlankAnswer, ValidateAnswerValue, IsKnown, Accepts;
    errors := [];
    EmptyErrors(questions, answers);
    for i := 0 to |answers|
      invariant errors == KeyErrors(questions, answers[..i])
    {
      NextKeyErrors(questions, answers, i);
      if !IsKnown(questions, answers[i].key) {
        errors := errors + [UnknownQuestion(answers[i].key)];
      }
    }
    assert answers[..|answers|] == answers;
    for i := 0 to |questions|
      invariant errors == KeyErrors(questions, answers) + QuestionErrors(questions[..i], answers)
    {
      NextQuestionErrors(questions, answers, i);
      var q := questions[i];
      var raw := Get(answers, q.stableKey);
      BlankOrThere(q.kind, raw);
      if IsBlankAnswer(q.kind, raw) {
        if q.required {
          errors := errors + [RequiredMissing(q.orderNo)];
        }
        continue;
      }
      errors := errors + ValidateAnswerValue(q, raw.value);
    }
    assert questions[..|questions|] == questions;
    SubmittedErrorsMeaning(questions, answers);
  }

  lemma EmptyErrors(questions: seq<Question>, answers: seq<Entry>)
    ensures KeyErrors(questions, answers[..0]) == [] && QuestionErrors(questions[..0], answers) == []
  {
  }

  lemma NextKeyErrors(questions: seq<Question>, answers: seq<Entry>, i: nat)
    requires i < |answers|
    ensures KeyErrors(questions, answers[..i + 1])
         == KeyErrors(questions, answers[..i])
            + if IsKnown(questions, answers[i].key) then [] else [UnknownQuestion(answers[i].key)]
  {
    hide IsKnown;
    assert answers[..i + 1][..i] == answers[..i];
  }

  lemma NextQuestionErrors(questions: seq<Question>, answers: seq<Entry>, i: nat)
    requires i < |questions|
    ensures QuestionErrors(questions[..i + 1], answers)
         == QuestionErrors(questions[..i], answers) + SubmittedQuestionErrors(questions[i], answers)
  {
    hide SubmittedQuestionErrors;
    assert questions[..i + 1][..i] == questions[..i];
  }

  /** `new Map(questions.map(q => [q.stableKey, q])).get(key)`: the last one wins. */
  function QuestionByKey(questions: seq<Question>, key: string): Option<Question> {
    if questions == [] then None
    else
      var last := questions[|questions| - 1];
      if last.stableKey == key then Some(last) else QuestionByKey(questions[..|questions| - 1], key)
  }

  function EntryErrors(questions: seq<Question>, e: Entry): seq<AnswerError> {
    match QuestionByKey(questions, e.key)
    case None => []
    case Some(q) => if IsBlankAnswer(q.kind, Some(e.value)) then [] else ValidateAnswerValue(q, e.value)
  }

  /** What validateAnswerValues complains about. */
  function ValueErrors(questions: seq<Question>, answers: seq<Entry>): seq<AnswerError> {
    if answers == [] then []
    else ValueErrors(questions, answers[..|answers| - 1]) + EntryErrors(questions, answers[|answers| - 1])
  }

  method ValidateAnswerValues(questions: seq<Question>, answers: seq<Entry>) returns (errors: seq<AnswerError>)
    ensures errors == ValueErrors(questions, answers)
    ensures errors == [] <==> forall e :: e in answers ==> EntryIsFine(questions, e)
  {
    errors := [];
    for i := 0 to |answers|
      invariant errors == ValueErrors(questions, answers[..i])
    {
      assert answers[..i + 1][..i] == answers[..i];
      var e := answers[i];
      var question := QuestionByKey(questions, e.key);
      if question == None || IsBlankAnswer(question.value.kind, Some(e.value)) {
        continue;
      }
      errors := errors + ValidateAnswerValue(question.value, e.value);
    }
    assert answers[..|answers|] == answers;
    ValueErrorsMeaning(questions, answers);
  }

  // ---------------------------------------------------------------- what they accept

  /** A value the question can store, said without reference to the checks. */
  ghost predicate ValidValue(q: Question, raw: Json) {
    match q.kind
    case SINGLE_CHOICE =>
      exists k :: && 0 <= k < |q.options| && TextField(raw, "optionId") == Some(q.options[k].id)
                  && (forall i :: 0 <= i < k ==> q.options[i].id != q.options[k].id)
                  && (q.options[k].isEtc ==> HasEtcText(raw))
    case MULTI_CHOICE =>
      && raw.Arr? && MinSelect(q) <= |raw.items| <= MaxSelect(q)
      && (forall i :: 0 <= i < |raw.items| ==> IsOptionId(raw.items[i], q.options))
      && Distinct(raw.items)
    case SCALE => exists score: int :: raw == Score(score) && MinScale(q) <= score <= MaxScale(q)
    case SHORT_ANSWER => raw.Str? && |Trim(raw.s)| <= SHORT_ANSWER_MAX_LENGTH
    case NARRATIVE => raw.Str? && |Trim(raw.s)| <= NARRATIVE_MAX_LENGTH
    case ETC => true
  }

  ghost predicate FineFor(q: Question, raw: Option<Json>) {
    IsBlankAnswer(q.kind, raw) || ValidValue(q, raw.value)
  }

  /** A submission may be stored: it answers only this survey's questions, each
      with a valid value, and leaves no required one blank. */
  ghost predicate Accepts(questions: seq<Question>, answers: seq<Entry>) {
    && (forall e :: e in answers ==> IsKnown(questions, e.key))
    && (forall q :: q in questions ==> FineFor(q, Get(answers, q.stableKey)))
    && NoRequiredBlank(questions, answers)
  }

  ghost predicate NoRequiredBlank(questions: seq<Question>, answers: seq<Entry>) {
    forall q :: q in questions && q.required ==> !IsBlankAnswer(q.kind, Get(answers, q.stableKey))
  }

  ghost predicate EntryIsFine(questions: seq<Question>, e: Entry) {
    match QuestionByKey(questions, e.key)
    case None => true
    case Some(q) => FineFor(q, Some(e.value))
  }

  lemma {:induction false} FirstMatch(options: seq<Choice>, id: string)
    ensures FindOption(options, id).Some? ==>
              exists k :: 0 <= k < |options| && options[k] == FindOption(options, id).value
                && forall i :: 0 <= i < k ==> options[i].id != id
    ensures forall k ::
              (0 <= k < |options| && options[k].id == id && forall i :: 0 <= i < k ==> options[i].id != id) ==>
              FindOption(options, id) == Some(options[k])
  {
    if options != [] {
      var rest := options[1..];
      FirstMatch(rest, id);
      if options[0].id != id {
        if FindOption(options, id).Some? {
          var k :| 0 <= k < |rest| && rest[k] == FindOption(rest, id).value
                   && forall i :: 0 <= i < k ==> rest[i].id != id;
          assert options[k + 1] == rest[k];
        }
        forall k | 0 <= k < |options| && options[k].id == id && forall i :: 0 <= i < k ==> options[i].id != id
          ensures FindOption(options, id) == Some(options[k])
        {
          assert options[k] == rest[k - 1];
          assert forall i :: 0 <= i < k - 1 ==> rest[i] == options[i + 1];
        }
      }
    }
  }

  lemma SingleChoiceMeaning(q: Question, raw: Json)
    requires q.kind == SINGLE_CHOICE && TextField(raw, "optionId").Some?
    ensures ValidateSingleChoice(q, raw) == [] <==> ValidValue(q, raw)
  {
    hide HasEtcText, TextField;
    FirstMatch(q.options, TextField(raw, "optionId").value);
  }

  function Values(values: seq<Json>): set<Json> {
    set v | v in values
  }

  ghost predicate Distinct(values: seq<Json>) {
    forall i, j :: 0 <= i < j < |values| ==> values[i] != values[j]
  }

  lemma DistinctStep(first: Json, rest: seq<Json>)
    ensures Distinct([first] + rest) <==> Distinct(rest) && first !in rest
  {
    var all := [first] + rest;
    assert forall i :: 0 <= i < |rest| ==> rest[i] == all[i + 1];
    assert all[0] == first;
    if Distinct(rest) && first !in rest {
      forall i, j | 0 <= i < j < |all|
        ensures all[i] != all[j]
      {
        assert all[j] == rest[j - 1];
        assert i > 0 ==> all[i] == rest[i - 1];
      }
    }
  }

  /** `new Set(values).size === values.length`: no value occurs twice. */
  lemma {:induction false} SetSizeMeansDistinct(values: seq<Json>)
    ensures |Values(values)| <= |values|
    ensures |Values(values)| == |values| <==> Distinct(values)
  {
    if values == [] {
      assert Values(values) == {};
    } else {
      var first, rest := values[0], values[1..];
      assert values == [first] + rest;
      SetSizeMeansDistinct(rest);
      DistinctStep(first, rest);
      assert Values(values) == Values(rest) + {first};
      hide Distinct;
      if first in rest {
        assert Values(values) == Values(rest);
      } else {
        assert first !in Values(rest);
      }
    }
  }

  lemma MultiChoiceMeaning(q: Question, raw: Json)
    requires q.kind == MULTI_CHOICE && raw.Arr?
    ensures ValidateMultiChoice(q, raw) == [] <==> ValidValue(q, raw)
  {
    hide IsOptionId, Distinct;
    SetSizeMeansDistinct(raw.items);
    if v :| v in raw.items && !IsOptionId(v, q.options) {
      var i :| 0 <= i < |raw.items| && raw.items[i] == v;
    }
  }

  lemma ScaleMeaning(q: Question, raw: Json)
    requires q.kind == SCALE && raw.Num?
    ensures ValidateScale(q, raw) == [] <==> ValidValue(q, raw)
  {
    if ValidateScale(q, raw) == [] {
      assert raw == Score(raw.n.Floor);
    }
  }

  lemma AnswerValueMeaning(q: Question, raw: Json)
    requires !IsBlankAnswer(q.kind, Some(raw))
    ensures ValidateAnswerValue(q, raw) == [] <==> ValidValue(q, raw)
  {
    match q.kind
    case SINGLE_CHOICE => SingleChoiceMeaning(q, raw);
    case MULTI_CHOICE => MultiChoiceMeaning(q, raw);
    case SCALE => ScaleMeaning(q, raw);
    case _ =>
  }

  lemma {:induction false} KeyErrorsMeaning(questions: seq<Question>, answers: seq<Entry>)
    ensures KeyErrors(questions, answers) == [] <==> forall e :: e in answers ==> IsKnown(questions, e.key)
  {
    hide IsKnown;
    if answers != [] {
      var front, last := answers[..|answers| - 1], answers[|answers| - 1];
      assert answers == front + [last];
      KeyErrorsMeaning(questions, front);
    }
  }

  ghost predicate QuestionIsFine(q: Question, answers: seq<Entry>) {
    FineFor(q, Get(answers, q.stableKey)) && (q.required ==> !IsBlankAnswer(q.kind, Get(answers, q.stableKey)))
  }

  lemma OneQuestionMeaning(q: Question, answers: seq<Entry>)
    ensures SubmittedQuestionErrors(q, answers) == [] <==> QuestionIsFine(q, answers)
  {
    hide ValidValue, IsBlankAnswer, Get, ValidateAnswerValue;
    var raw := Get(answers, q.stableKey);
    if !IsBlankAnswer(q.kind, raw) {
      BlankOrThere(q.kind, raw);
      AnswerValueMeaning(q, raw.value);
    }
  }

  lemma BlankOrThere(kind: QuestionType, raw: Option<Json>)
    ensures IsBlankAnswer(kind, raw) || raw.Some?
  {
  }

  lemma {:induction false} QuestionErrorsMeaning(questions: seq<Question>, answers: seq<Entry>)
    ensures QuestionErrors(questions, answers) == [] <==> forall q :: q in questions ==> QuestionIsFine(q, answers)
  {
    hide QuestionIsFine, SubmittedQuestionErrors;
    if questions != [] {
      var front, last := questions[..|questions| - 1], questions[|questions| - 1];
      assert questions == front + [last];
      QuestionErrorsMeaning(front, answers);
      OneQuestionMeaning(last, answers);
    }
  }

  lemma SubmittedErrorsMeaning(questions: seq<Question>, answers: seq<Entry>)
    ensures SubmittedErrors(questions, answers) == [] <==> Accepts(questions, answers)
  {
    hide FineFor, IsBlankAnswer, Get, IsKnown, KeyErrors, QuestionErrors;
    KeyErrorsMeaning(questions, answers);
    QuestionErrorsMeaning(questions, answers);
  }

  lemma EntryErrorsMeaning(questions: seq<Question>, e: Entry)
    ensures EntryErrors(questions, e) == [] <==> EntryIsFine(questions, e)
  {
    hide ValidValue, IsBlankAnswer, ValidateAnswerValue, QuestionByKey;
    var question := QuestionByKey(questions, e.key);
    if question.Some? && !IsBlankAnswer(question.value.kind, Some(e.value)) {
      AnswerValueMeaning(question.value, e.value);
    }
  }

  lemma {:induction false} ValueErrorsMeaning(questions: seq<Question>, answers: seq<Entry>)
    ensures ValueErrors(questions, answers) == [] <==> forall e :: e in answers ==> EntryIsFine(questions, e)
  {
    hide EntryIsFine, EntryErrors;
    if answers != [] {
      var front, last := answers[..|answers| - 1], answers[|answers| - 1];
      assert answers == front + [last];
      ValueErrorsMeaning(questions, front);
      EntryErrorsMeaning(questions, last);
    }
  }

  // ---------------------------------------------------------------- what they report

  /** What counts as no answer: nothing, null, or a value that is not of the kind
      the question takes, or is empty. */
  lemma BlankAnswerMeaning(kind: QuestionType, raw: Json)
    ensures IsBlankAnswer(kind, None) && IsBlankAnswer(kind, Some(Null))
    ensures !IsBlankAnswer(kind, Some(raw)) <==>
              match kind
              case SINGLE_CHOICE =>
                exists id :: Field(raw, "optionId") == Some(Str(id)) && exists i :: 0 <= i < |id| && !IsSpace(id[i])
              case MULTI_CHOICE => raw.Arr? && |raw.items| > 0
              case SCALE => raw.Num?
              case _ => raw.Str? && exists i :: 0 <= i < |raw.s| && !IsSpace(raw.s[i])
  {
    hide Blank, IsSpace;
    match kind
    case SINGLE_CHOICE =>
      if TextField(raw, "optionId").Some? {
        BlankMeaning(TextField(raw, "optionId").value);
      }
    case MULTI_CHOICE =>
    case SCALE =>
    case _ => if raw.Str? { BlankMeaning(raw.s); }
  }

  /** Whether `raw` has a text of its own for the "other" option. */
  predicate BringsText(raw: Json) {
    match Field(raw, "etcText")
    case Some(Str(text)) => Trim(text) != ""
    case _ => false
  }

  /** What is wrong with a value that is not blank. */
  ghost predicate IsValueError(q: Question, raw: Json, e: AnswerError) {
    match e
    case OptionNotFound(n) =>
      && n == q.orderNo
      && ((q.kind == SINGLE_CHOICE && forall o :: o in q.options ==> Field(raw, "optionId") != Some(Str(o.id)))
          || (q.kind == MULTI_CHOICE && HasUnknownItem(q, raw)))
    case EtcTextMissing(n) =>
      && n == q.orderNo && q.kind == SINGLE_CHOICE && !BringsText(raw)
      && exists k :: && 0 <= k < |q.options| && q.options[k].isEtc
                     && Field(raw, "optionId") == Some(Str(q.options[k].id))
                     && forall i :: 0 <= i < k ==> q.options[i].id != q.options[k].id
    case DuplicateOption(n) =>
      && n == q.orderNo && q.kind == MULTI_CHOICE && !HasUnknownItem(q, raw)
      && raw.Arr? && exists i, j :: 0 <= i < j < |raw.items| && raw.items[i] == raw.items[j]
    case SelectionCount(n, min, max) =>
      && n == q.orderNo && q.kind == MULTI_CHOICE && !HasUnknownItem(q, raw)
      && min == q.minSelect.GetOr(1) && max == q.maxSelect.GetOr(|q.options|)
      && raw.Arr? && !(min <= |raw.items| <= max)
    case ScaleRange(n, min, max) =>
      && n == q.orderNo && q.kind == SCALE && min == q.minScale.GetOr(1) && max == q.maxScale.GetOr(5)
      && !exists score: int :: raw == Score(score) && min <= score <= max
    case TooLong(n, max) =>
      && n == q.orderNo && raw.Str? && |Trim(raw.s)| > max
      && ((q.kind == SHORT_ANSWER && max == 50) || (q.kind == NARRATIVE && max == 500))
    case _ => false
  }

  /** A selection that holds something other than the id of an option. */
  ghost predicate HasUnknownItem(q: Question, raw: Json) {
    raw.Arr? && exists i :: 0 <= i < |raw.items| && NamesNoOption(q.options, raw.items[i])
  }

  ghost predicate NamesNoOption(options: seq<Choice>, item: Json) {
    forall o :: o in options ==> item != Str(o.id)
  }

  lemma SingleChoiceReports(q: Question, raw: Json, e: AnswerError)
    requires q.kind == SINGLE_CHOICE && TextField(raw, "optionId").Some?
    ensures e in ValidateSingleChoice(q, raw) <==> IsValueError(q, raw, e)
  {
    hide Trim;
    var id := TextField(raw, "optionId").value;
    FirstMatch(q.options, id);
    var found := FindOption(q.options, id);
    if found.Some? {
      var k :| 0 <= k < |q.options| && q.options[k] == found.value && forall i :: 0 <= i < k ==> q.options[i].id != id;
    }
  }

  lemma UnknownItemMeaning(q: Question, raw: Json)
    requires raw.Arr?
    ensures HasUnknownItem(q, raw) <==> exists v :: v in raw.items && !IsOptionId(v, q.options)
  {
    forall v
      ensures NamesNoOption(q.options, v) <==> !IsOptionId(v, q.options)
    {
    }
    hide NamesNoOption, IsOptionId;
    if v :| v in raw.items && !IsOptionId(v, q.options) {
      var i :| 0 <= i < |raw.items| && raw.items[i] == v;
    }
  }

  lemma MultiChoiceReports(q: Question, raw: Json, e: AnswerError)
    requires q.kind == MULTI_CHOICE && raw.Arr?
    ensures e in ValidateMultiChoice(q, raw) <==> IsValueError(q, raw, e)
  {
    UnknownItemMeaning(q, raw);
    SetSizeMeansDistinct(raw.items);
    hide IsOptionId, Values, HasUnknownItem;
  }

  lemma ScaleReports(q: Question, raw: Json, e: AnswerError)
    requires q.kind == SCALE && raw.Num?
    ensures e in ValidateScale(q, raw) <==> IsValueError(q, raw, e)
  {
    if raw.n == raw.n.Floor as real {
      assert raw == Score(raw.n.Floor);
    }
  }

  /** The errors reported for a value are exactly what is wrong with it. */
  lemma ValueErrorsAreReported(q: Question, raw: Json, e: AnswerError)
    requires !IsBlankAnswer(q.kind, Some(raw))
    ensures e in ValidateAnswerValue(q, raw) <==> IsValueError(q, raw, e)
  {
    match q.kind
    case SINGLE_CHOICE => SingleChoiceReports(q, raw, e);
    case MULTI_CHOICE => MultiChoiceReports(q, raw, e);
    case SCALE => ScaleReports(q, raw, e);
    case _ =>
  }

  /** What is wrong with a submission. */
  ghost predicate IsSubmissionError(questions: seq<Question>, answers: seq<Entry>, e: AnswerError) {
    match e
    case UnknownQuestion(key) =>
      (exists a :: a in answers && a.key == key) && forall q :: q in questions ==> q.stableKey != key
    case RequiredMissing(n) =>
      exists q :: q in questions && q.orderNo == n && q.required && IsBlankAnswer(q.kind, Get(answers, q.stableKey))
    case _ =>
      exists q :: && q in questions && !IsBlankAnswer(q.kind, Get(answers, q.stableKey))
                  && Get(answers, q.stableKey).Some? && IsValueError(q, Get(answers, q.stableKey).value, e)
  }

  lemma {:induction false} KeysAreReported(questions: seq<Question>, answers: seq<Entry>, e: AnswerError)
    ensures e in KeyErrors(questions, answers) <==> e.UnknownQuestion? && IsSubmissionError(questions, answers, e)
    decreases |answers|
  {
    if answers != [] {
      var front, last := answers[..|answers| - 1], answers[|answers| - 1];
      assert answers == front + [last];
      KeysAreReported(questions, front, e);
    }
  }

  lemma OneQuestionReports(q: Question, answers: seq<Entry>, e: AnswerError)
    ensures var raw := Get(answers, q.stableKey);
            e in SubmittedQuestionErrors(q, answers)
            <==> if IsBlankAnswer(q.kind, raw) then q.required && e == RequiredMissing(q.orderNo)
                 else raw.Some? && IsValueError(q, raw.value, e)
  {
    hide Get, IsBlankAnswer, ValidateAnswerValue, IsValueError;
    var raw := Get(answers, q.stableKey);
    BlankOrThere(q.kind, raw);
    if !IsBlankAnswer(q.kind, raw) {
      ValueErrorsAreReported(q, raw.value, e);
    }
  }

  lemma {:induction false} QuestionsAreReported(questions: seq<Question>, answers: seq<Entry>, e: AnswerError)
    ensures e in QuestionErrors(questions, answers) <==>
              exists q :: q in questions && e in SubmittedQuestionErrors(q, answers)
    decreases |questions|
  {
    hide SubmittedQuestionErrors;
    if questions != [] {
      var front, last := questions[..|questions| - 1], questions[|questions| - 1];
      assert questions == front + [last];
      QuestionsAreReported(front, answers, e);
    }
  }

  lemma ValueErrorKinds(q: Question, raw: Json, e: AnswerError)
    ensures IsValueError(q, raw, e) ==> !e.UnknownQuestion? && !e.RequiredMissing?
  {
  }

  /** The errors reported for a submission are exactly what is wrong with it: no
      other error, no other question's number, no other limit. */
  lemma SubmissionErrorsAreReported(questions: seq<Question>, answers: seq<Entry>, e: AnswerError)
    ensures e in SubmittedErrors(questions, answers) <==> IsSubmissionError(questions, answers, e)
  {
    KeysAreReported(questions, answers, e);
    QuestionsAreReported(questions, answers, e);
    hide Get, IsBlankAnswer, KeyErrors, QuestionErrors, SubmittedQuestionErrors, IsValueError;
    forall q | q in questions
      ensures var raw := Get(answers, q.stableKey);
              e in SubmittedQuestionErrors(q, answers)
              <==> if IsBlankAnswer(q.kind, raw) then q.required && e == RequiredMissing(q.orderNo)
                   else raw.Some? && IsValueError(q, raw.value, e)
      ensures Get(answers, q.stableKey).Some? && IsValueError(q, Get(answers, q.stableKey).value, e) ==>
                !e.UnknownQuestion? && !e.RequiredMissing?
    {
      OneQuestionReports(q, answers, e);
      if Get(answers, q.stableKey).Some? {
        ValueErrorKinds(q, Get(answers, q.stableKey).value, e);
      }
    }
  }

  /** One value has at most two errors: a repeated option and the number of options. */
  lemma FewErrors(q: Question, answers: seq<Entry>)
    ensures var errors := SubmittedQuestionErrors(q, answers);
            && |errors| <= 2 && (forall e :: e in errors ==> !e.UnknownQuestion?)
            && (|errors| == 2 ==> errors[0].DuplicateOption? && errors[1].SelectionCount?)
  {
    hide Get, IsBlankAnswer, FindOption, Trim, Values, IsOptionId;
    BlankOrThere(q.kind, Get(answers, q.stableKey));
    BlankFitsKind(q.kind, Get(answers, q.stableKey));
  }

  lemma BlankFitsKind(kind: QuestionType, raw: Option<Json>)
    ensures !IsBlankAnswer(kind, raw) && kind == SINGLE_CHOICE ==> TextField(raw.value, "optionId").Some?
    ensures !IsBlankAnswer(kind, raw) && kind == MULTI_CHOICE ==> raw.value.Arr?
    ensures !IsBlankAnswer(kind, raw) && kind == SCALE ==> raw.value.Num?
    ensures !IsBlankAnswer(kind, raw) && (kind == SHORT_ANSWER || kind == NARRATIVE) ==> raw.value.Str?
  {
  }

  lemma {:induction false} KeyErrorsInOrder(questions: seq<Question>, answers: seq<Entry>) returns (at: seq<nat>)
    ensures var errors := KeyErrors(questions, answers);
            && |at| == |errors|
            && (forall i :: 0 <= i < |at| ==> at[i] < |answers| && errors[i] == UnknownQuestion(answers[at[i]].key))
            && (forall i, j :: 0 <= i < j < |at| ==> at[i] < at[j])
    decreases |answers|
  {
    hide IsKnown;
    at := [];
    if answers != [] {
      var n := |answers| - 1;
      var front := answers[..n];
      var before := KeyErrorsInOrder(questions, front);
      at := if IsKnown(questions, answers[n].key) then before else before + [n];
      var errors := KeyErrors(questions, answers);
      assert errors == KeyErrors(questions, front)
                       + if IsKnown(questions, answers[n].key) then [] else [UnknownQuestion(answers[n].key)];
      hide KeyErrors;
      forall i | 0 <= i < |at|
        ensures at[i] < |answers| && errors[i] == UnknownQuestion(answers[at[i]].key)
      {
        if i < |before| {
          assert front[at[i]] == answers[at[i]];
        }
      }
    }
  }

  lemma {:induction false} QuestionErrorsInOrder(questions: seq<Question>, answers: seq<Entry>) returns (at: seq<nat>)
    ensures var errors := QuestionErrors(questions, answers);
            && |at| == |errors|
            && (forall i :: 0 <= i < |at| ==>
                  && at[i] < |questions| && !errors[i].UnknownQuestion?
                  && errors[i] in SubmittedQuestionErrors(questions[at[i]], answers))
            && (forall i, j :: 0 <= i < j < |at| ==>
                  at[i] < at[j] || (at[i] == at[j] && errors[i].DuplicateOption? && errors[j].SelectionCount?))
    decreases |questions|
  {
    hide SubmittedQuestionErrors;
    at := [];
    if questions != [] {
      var n := |questions| - 1;
      var before := QuestionErrorsInOrder(questions[..n], answers);
      var last := SubmittedQuestionErrors(questions[n], answers);
      FewErrors(questions[n], answers);
      at := before + seq(|last|, _ => n);
      var errors := QuestionErrors(questions, answers);
      assert errors == QuestionErrors(questions[..n], answers) + last;
      forall i | 0 <= i < |at|
        ensures at[i] < |questions| && !errors[i].UnknownQuestion?
        ensures errors[i] in SubmittedQuestionErrors(questions[at[i]], answers)
      {
        if i < |before| {
          assert questions[..n][at[i]] == questions[at[i]];
        } else {
          assert errors[i] == last[i - |before|];
        }
      }
    }
  }

  /** Unknown questions are reported first, in the order they were sent, and then the
      survey's questions in turn, each with one error or with a repeated option and
      then the number of options. */
  lemma SubmissionErrorsInOrder(questions: seq<Question>, answers: seq<Entry>)
    returns (unknown: seq<nat>, wrong: seq<nat>)
    ensures var errors, k := SubmittedErrors(questions, answers), |unknown|;
            && |errors| == k + |wrong|
            && (forall i :: 0 <= i < k ==>
                  unknown[i] < |answers| && errors[i] == UnknownQuestion(answers[unknown[i]].key))
            && (forall i, j :: 0 <= i < j < k ==> unknown[i] < unknown[j])
            && (forall i :: 0 <= i < |wrong| ==>
                  && wrong[i] < |questions| && !errors[k + i].UnknownQuestion?
                  && errors[k + i] in SubmittedQuestionErrors(questions[wrong[i]], answers))
            && (forall i, j :: 0 <= i < j < |wrong| ==>
                  || wrong[i] < wrong[j]
                  || (wrong[i] == wrong[j] && errors[k + i].DuplicateOption? && errors[k + j].SelectionCount?))
  {
    unknown := KeyErrorsInOrder(questions, answers);
    wrong := QuestionErrorsInOrder(questions, answers);
    hide KeyErrors, QuestionErrors, SubmittedQuestionErrors;
  }

  /** The draft check reports what is wrong with the values given, and nothing
      about missing answers or unknown questions. */
  lemma {:induction false} DraftErrorsAreReported(questions: seq<Question>, answers: seq<Entry>, e: AnswerError)
    ensures e in ValueErrors(questions, answers) <==>
              exists a :: && a in answers && QuestionByKey(questions, a.key).Some?
                          && var q := QuestionByKey(questions, a.key).value;
                             !IsBlankAnswer(q.kind, Some(a.value)) && IsValueError(q, a.value, e)
    decreases |answers|
  {
    hide IsBlankAnswer, QuestionByKey, ValidateAnswerValue, IsValueError;
    if answers != [] {
      var front, last := answers[..|answers| - 1], answers[|answers| - 1];
      assert answers == front + [last];
      DraftErrorsAreReported(questions, front, e);
      var q := QuestionByKey(questions, last.key);
      if q.Some? && !IsBlankAnswer(q.value.kind, Some(last.value)) {
        ValueErrorsAreReported(q.value, last.value, e);
      }
    }
  }

  // ---------------------------------------------------------------- the same-score warning

  const SAME_SCALE_WARNING_MIN_COUNT := 3

  /** The numbers answered to the scale questions, in question order. */
  function ScaleValues(questions: seq<Question>, answers: seq<Entry>): seq<Json> {
    if questions == [] then []
    else
      var raw := Get(answers, questions[0].stableKey);
      (if questions[0].kind == SCALE && raw.Some? && raw.value.Num? then [raw.value] else [])
      + ScaleValues(questions[1..], answers)
  }

  predicate HasSameScaleWarning(questions: seq<Question>, answers: seq<Entry>) {
    var scaleValues := ScaleValues(questions, answers);
    |scaleValues| >= SAME_SCALE_WARNING_MIN_COUNT && |Values(scaleValues)| == 1
  }

  /** `new Set(values).size === 1`: there are values, and they are all the same. */
  lemma SetOfOneMeansSame(values: seq<Json>)
    ensures |Values(values)| == 1 <==> values != [] && forall v :: v in values ==> v == values[0]
  {
    if values != [] {
      var first := values[0];
      assert first in Values(values);
      if forall v :: v in values ==> v == first {
        assert Values(values) == {first};
      }
      if |Values(values)| == 1 {
        assert |Values(values) - {first}| == 0;
        assert forall v :: v in values ==> v in Values(values) && v !in Values(values) - {first};
      }
    }
  }

  lemma {:induction false} ScaleValuesAreAnswers(questions: seq<Question>, answers: seq<Entry>, v: Json)
    ensures v in ScaleValues(questions, answers)
       <==> exists q :: q in questions && q.kind == SCALE && Get(answers, q.stableKey) == Some(v) && v.Num?
  {
    hide Get;
    if questions != [] {
      ScaleValuesAreAnswers(questions[1..], answers, v);
      assert questions == [questions[0]] + questions[1..];
    }
  }

  /** The warning is stored exactly when at least three scales are answered, and
      all with one score. */
  lemma SameScaleWarningMeaning(questions: seq<Question>, answers: seq<Entry>)
    ensures HasSameScaleWarning(questions, answers)
       <==> && |ScaleValues(questions, answers)| >= 3
            && exists score :: AllScalesAre(questions, answers, score)
  {
    hide ScaleValues, Get, Values;
    var values := ScaleValues(questions, answers);
    SetOfOneMeansSame(values);
    if |values| >= SAME_SCALE_WARNING_MIN_COUNT {
      forall v
        ensures v in values <==>
                exists q :: q in questions && q.kind == SCALE && Get(answers, q.stableKey) == Some(v) && v.Num?
      {
        ScaleValuesAreAnswers(questions, answers, v);
      }
      if forall v :: v in values ==> v == values[0] {
        assert AllScalesAre(questions, answers, values[0]);
      }
      if score :| AllScalesAre(questions, answers, score) {
        forall v | v in values
          ensures v == score
        {
        }
        assert values[0] in values;
      }
    }
  }

  ghost predicate AllScalesAre(questions: seq<Question>, answers: seq<Entry>, score: Json) {
    forall q :: q in questions && q.kind == SCALE ==>
      match Get(answers, q.stableKey)
      case Some(Num(n)) => Num(n) == score
      case _ => true
  }

  // ---------------------------------------------------------------- agreement

  lemma {:induction false} GetFinds(answers: seq<Entry>, i: nat)
    requires DistinctEntries(answers) && i < |answers|
    ensures Get(answers, answers[i].key) == Some(answers[i].value)
  {
    if i > 0 {
      GetFinds(answers[1..], i - 1);
    }
  }

  lemma {:induction false} GetIsThere(answers: seq<Entry>, key: string)
    ensures Get(answers, key).Some? ==> Entry(key, Get(answers, key).value) in answers
    ensures Get(answers, key) == None ==> forall e :: e in answers ==> e.key != key
  {
    if answers != [] && answers[0].key != key {
      GetIsThere(answers[1..], key);
      assert answers == [answers[0]] + answers[1..];
    }
  }

  lemma {:induction false} QuestionByKeyFinds(questions: seq<Question>, i: nat)
    requires DistinctQuestions(questions) && i < |questions|
    ensures QuestionByKey(questions, questions[i].stableKey) == Some(questions[i])
  {
    var n := |questions| - 1;
    if i < n {
      assert questions[..n][i] == questions[i];
      QuestionByKeyFinds(questions[..n], i);
    }
  }

  lemma {:induction false} QuestionByKeyIsThere(questions: seq<Question>, key: string)
    ensures QuestionByKey(questions, key).Some? ==>
              QuestionByKey(questions, key).value in questions && QuestionByKey(questions, key).value.stableKey == key
  {
    if questions != [] && questions[|questions| - 1].stableKey != key {
      QuestionByKeyIsThere(questions[..|questions| - 1], key);
    }
  }

  /** The same values pass whether one walks the questions or the answers. */
  lemma WalksAgree(questions: seq<Question>, answers: seq<Entry>)
    requires DistinctQuestions(questions) && DistinctEntries(answers)
    ensures (forall q :: q in questions ==> FineFor(q, Get(answers, q.stableKey)))
       <==> (forall e :: e in answers ==> EntryIsFine(questions, e))
  {
    hide FineFor, Get, QuestionByKey;
    if forall q :: q in questions ==> FineFor(q, Get(answers, q.stableKey)) {
      forall e | e in answers
        ensures EntryIsFine(questions, e)
      {
        var i :| 0 <= i < |answers| && answers[i] == e;
        GetFinds(answers, i);
        QuestionByKeyIsThere(questions, e.key);
      }
    }
    if forall e :: e in answers ==> EntryIsFine(questions, e) {
      forall q | q in questions
        ensures FineFor(q, Get(answers, q.stableKey))
      {
        var i :| 0 <= i < |questions| && questions[i] == q;
        QuestionByKeyFinds(questions, i);
        GetIsThere(answers, q.stableKey);
        MissingIsFine(q);
        if Get(answers, q.stableKey).Some? {
          assert EntryIsFine(questions, Entry(q.stableKey, Get(answers, q.stableKey).value));
        }
      }
    }
  }

  lemma MissingIsFine(q: Question)
    ensures FineFor(q, None)
  {
  }

  /** The validators agree: a submission is accepted exactly when the draft check
      accepts it, it answers only questions of the survey and no required one is
      blank. */
  lemma ValidatorsAgree(questions: seq<Question>, answers: seq<Entry>)
    requires DistinctQuestions(questions) && DistinctEntries(answers)
    ensures SubmittedErrors(questions, answers) == []
       <==> && ValueErrors(questions, answers) == []
            && (forall e :: e in answers ==> IsKnown(questions, e.key))
            && NoRequiredBlank(questions, answers)
  {
    hide FineFor, Get, IsKnown, EntryIsFine, NoRequiredBlank, SubmittedErrors, ValueErrors;
    SubmittedErrorsMeaning(questions, answers);
    ValueErrorsMeaning(questions, answers);
    WalksAgree(questions, answers);
  }
}
