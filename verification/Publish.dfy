/** The check a survey passes before it is published
    (src/survey/survey-publish.validator.ts), and why a survey that passes it can
    be answered. */
module Publish {
  import opened Options
  import opened Survey
  import opened Answers
  import FormMate
  import KstDate

  const MIN_QUESTION_COUNT := 3
  const MAX_QUESTION_COUNT := 30
  const QUESTION_TEXT_MIN_LENGTH := 5
  const QUESTION_TEXT_MAX_LENGTH := 200
  const OPTION_LABEL_MAX_LENGTH := 50
  const CHOICE_OPTION_MIN_COUNT := 2
  const CHOICE_OPTION_MAX_COUNT := 10
  const TARGET_COUNT_MIN := 1
  const TARGET_COUNT_MAX := 100

  /** A survey with its questions; `deadlineAt` is an instant. */
  datatype SurveyForm = SurveyForm(
    title: string, questions: seq<Question>, targetCount: Option<int>, deadlineAt: Option<int>)

  datatype PublishError =
    | TitleMissing
    | QuestionCount
    | TextLength(position: int)
    | OptionCount(position: int)
    | OptionBlank(position: int, option: int)
    | OptionTooLong(position: int, option: int)
    | SeveralEtc(position: int)
    | EtcOutsideSingle(position: int)
    | SelectRange(position: int)
    | ScaleLabels(position: int)
    | TargetMissing
    | TargetRange
    | DeadlineMissing
    | DeadlinePast

  // ---------------------------------------------------------------- the check

  function OptionError(option: Choice, position: int, number: int): seq<PublishError> {
    var text := Trim(option.text);
    if text == [] then [OptionBlank(position, number)]
    else if |text| > OPTION_LABEL_MAX_LENGTH then [OptionTooLong(position, number)] else []
  }

  function OptionErrors(options: seq<Choice>, position: int): seq<PublishError> {
    if options == [] then []
    else
      var n := |options|;
      OptionErrors(options[..n - 1], position) + OptionError(options[n - 1], position, n)
  }

  function EtcCount(options: seq<Choice>): nat {
    if options == [] then 0 else (if options[0].isEtc then 1 else 0) + EtcCount(options[1..])
  }

  predicate SelectRangeIsFine(q: Question) {
    q.minSelect.Some? && q.maxSelect.Some? && 1 <= q.minSelect.value <= q.maxSelect.value <= |q.options|
  }

  predicate LengthIsFine(q: Question) {
    QUESTION_TEXT_MIN_LENGTH <= |Trim(q.questionText)| <= QUESTION_TEXT_MAX_LENGTH
  }

  predicate OptionCountIsFine(q: Question) {
    CHOICE_OPTION_MIN_COUNT <= |q.options| <= CHOICE_OPTION_MAX_COUNT
  }

  predicate HasScaleLabels(q: Question) {
    q.minScaleLabel.Some? && !Blank(q.minScaleLabel.value) && q.maxScaleLabel.Some? && !Blank(q.maxScaleLabel.value)
  }

  function When(condition: bool, error: PublishError): seq<PublishError> {
    if condition then [error] else []
  }

  function ChoiceErrors(q: Question, position: int): seq<PublishError> {
    When(!OptionCountIsFine(q), OptionCount(position))
    + OptionErrors(q.options, position)
    + When(EtcCount(q.options) > 1, SeveralEtc(position))
    + When(EtcCount(q.options) > 0 && q.kind != SINGLE_CHOICE, EtcOutsideSingle(position))
    + When(q.kind == MULTI_CHOICE && !SelectRangeIsFine(q), SelectRange(position))
  }

  function ProblemsOf(q: Question, position: int): seq<PublishError> {
    When(!LengthIsFine(q), TextLength(position))
    + (if IsChoiceType(q.kind) then ChoiceErrors(q, position) else [])
    + When(q.kind == SCALE && !HasScaleLabels(q), ScaleLabels(position))
  }

  function QuestionProblems(questions: seq<Question>): seq<PublishError> {
    if questions == [] then []
    else
      var n := |questions|;
      QuestionProblems(questions[..n - 1]) + ProblemsOf(questions[n - 1], n)
  }

  function TargetProblems(survey: SurveyForm): seq<PublishError> {
    match survey.targetCount
    case None => [TargetMissing]
    case Some(n) => When(n < TARGET_COUNT_MIN || n > TARGET_COUNT_MAX, TargetRange)
  }

  function DeadlineProblems(survey: SurveyForm, now: int): seq<PublishError> {
    match survey.deadlineAt
    case None => [DeadlineMissing]
    case Some(deadline) =>
      When(KstDate.LexLess(KstDate.ToKstDateString(deadline), KstDate.ToKstDateString(now)), DeadlinePast)
  }

  /** Everything that keeps a survey from being published, in order. */
  function PublishProblems(survey: SurveyForm, now: int): seq<PublishError> {
    When(Blank(survey.title), TitleMissing)
    + When(|survey.questions| < MIN_QUESTION_COUNT || |survey.questions| > MAX_QUESTION_COUNT, QuestionCount)
    + QuestionProblems(survey.questions)
    + TargetProblems(survey)
    + DeadlineProblems(survey, now)
  }

  method ValidateOptions(options: seq<Choice>, position: int, before: seq<PublishError>)
    returns (errors: seq<PublishError>)
    ensures errors == before + OptionErrors(options, position)
  {
    hide OptionError;
    errors := before;
    for i := 0 to |options|
      invariant errors == before + OptionErrors(options[..i], position)
    {
      assert options[..i + 1][..i] == options[..i];
      errors := errors + OptionError(options[i], position, i + 1);
    }
    assert options[..|options|] == options;
  }

  method CountEtc(options: seq<Choice>) returns (etcCount: nat)
    ensures etcCount == EtcCount(options)
  {
    etcCount := 0;
    for i := |options| downto 0
      invariant etcCount == EtcCount(options[i..])
    {
      assert options[i..][1..] == options[i + 1..];
      if options[i].isEtc {
        etcCount := etcCount + 1;
      }
    }
  }

  /** `if (condition) errors.push(error)`. */
  method PushIf(condition: bool, error: PublishError, before: seq<PublishError>) returns (errors: seq<PublishError>)
    ensures errors == before + When(condition, error)
  {
    errors := before;
    if condition {
      errors := errors + [error];
    }
  }

  method ValidateChoices(q: Question, position: int, before: seq<PublishError>) returns (errors: seq<PublishError>)
    ensures errors == before + ChoiceErrors(q, position)
  {
    hide OptionErrors, EtcCount, When, SelectRangeIsFine;
    var count := |q.options|;
    errors := PushIf(count < CHOICE_OPTION_MIN_COUNT || count > CHOICE_OPTION_MAX_COUNT, OptionCount(position), before);
    errors := ValidateOptions(q.options, position, errors);
    var etcCount := CountEtc(q.options);
    errors := PushIf(etcCount > 1, SeveralEtc(position), errors);
    errors := PushIf(etcCount > 0 && q.kind != SINGLE_CHOICE, EtcOutsideSingle(position), errors);
    errors := PushIf(q.kind == MULTI_CHOICE && !SelectRangeIsFine(q), SelectRange(position), errors);
  }

  method ValidateQuestion(q: Question, position: int, before: seq<PublishError>) returns (errors: seq<PublishError>)
    ensures errors == before + ProblemsOf(q, position)
  {
    hide ChoiceErrors;
    errors := before;
    var text := Trim(q.questionText);
    if |text| < QUESTION_TEXT_MIN_LENGTH || |text| > QUESTION_TEXT_MAX_LENGTH {
      errors := errors + [TextLength(position)];
    }
    if IsChoiceType(q.kind) {
      errors := ValidateChoices(q, position, errors);
    }
    if q.kind == SCALE && !HasScaleLabels(q) {
      errors := errors + [ScaleLabels(position)];
    }
  }

  method ValidateTarget(survey: SurveyForm, before: seq<PublishError>) returns (errors: seq<PublishError>)
    ensures errors == before + TargetProblems(survey)
  {
    if survey.targetCount == None {
      errors := before + [TargetMissing];
    } else {
      var count := survey.targetCount.value;
      errors := PushIf(count < TARGET_COUNT_MIN || count > TARGET_COUNT_MAX, TargetRange, before);
    }
  }

  method ValidateDeadline(survey: SurveyForm, now: int, before: seq<PublishError>) returns (errors: seq<PublishError>)
    ensures errors == before + DeadlineProblems(survey, now)
  {
    hide KstDate.LexLess, KstDate.ToKstDateString;
    if survey.deadlineAt == None {
      errors := before + [DeadlineMissing];
    } else {
      var deadline := KstDate.ToKstDateString(survey.deadlineAt.value);
      errors := PushIf(KstDate.LexLess(deadline, KstDate.ToKstDateString(now)), DeadlinePast, before);
    }
  }

  method ValidatePublishableSurvey(survey: SurveyForm, now: int) returns (errors: seq<PublishError>)
    ensures errors == PublishProblems(survey, now)
    ensures errors == [] <==> Publishable(survey, now)
  {
    hide ProblemsOf, QuestionProblems, TargetProblems, DeadlineProblems, Publishable, Blank, When;
    var count := |survey.questions|;
    errors := PushIf(Blank(survey.title), TitleMissing, []);
    errors := PushIf(count < MIN_QUESTION_COUNT || count > MAX_QUESTION_COUNT, QuestionCount, errors);
    ghost var before := errors;
    NoProblemsYet(survey.questions);
    for index := 0 to count
      invariant errors == before + QuestionProblems(survey.questions[..index])
    {
      NextProblems(survey.questions, index);
      errors := ValidateQuestion(survey.questions[index], index + 1, errors);
    }
    assert survey.questions[..count] == survey.questions;
    errors := ValidateTarget(survey, errors);
    errors := ValidateDeadline(survey, now, errors);
    PublishProblemsMeaning(survey, now);
  }

  lemma NoProblemsYet(questions: seq<Question>)
    ensures QuestionProblems(questions[..0]) == []
  {
  }

  lemma NextProblems(questions: seq<Question>, index: nat)
    requires index < |questions|
    ensures QuestionProblems(questions[..index + 1])
         == QuestionProblems(questions[..index]) + ProblemsOf(questions[index], index + 1)
  {
    hide ProblemsOf;
    assert questions[..index + 1][..index] == questions[..index];
  }

  // ---------------------------------------------------------------- what passes

  ghost predicate AtMostOneEtc(options: seq<Choice>) {
    forall i, j :: 0 <= i < j < |options| ==> !(options[i].isEtc && options[j].isEtc)
  }

  ghost predicate ChoicesAreFine(q: Question) {
    && OptionCountIsFine(q)
    && (forall o :: o in q.options ==> 1 <= |Trim(o.text)| <= OPTION_LABEL_MAX_LENGTH)
    && AtMostOneEtc(q.options)
    && (q.kind == MULTI_CHOICE ==> SelectRangeIsFine(q) && forall o :: o in q.options ==> !o.isEtc)
  }

  ghost predicate IsComplete(q: Question) {
    LengthIsFine(q) && (IsChoiceType(q.kind) ==> ChoicesAreFine(q)) && (q.kind == SCALE ==> HasScaleLabels(q))
  }

  /** The specification's requirements on a survey to be published. */
  ghost predicate Publishable(survey: SurveyForm, now: int) {
    && !Blank(survey.title)
    && MIN_QUESTION_COUNT <= |survey.questions| <= MAX_QUESTION_COUNT
    && (forall q :: q in survey.questions ==> IsComplete(q))
    && survey.targetCount.Some? && TARGET_COUNT_MIN <= survey.targetCount.value <= TARGET_COUNT_MAX
    && survey.deadlineAt.Some?
    && !KstDate.LexLess(KstDate.ToKstDateString(survey.deadlineAt.value), KstDate.ToKstDateString(now))
  }

  lemma {:induction false} OptionErrorsMeaning(options: seq<Choice>, position: int)
    ensures OptionErrors(options, position) == []
       <==> forall o :: o in options ==> 1 <= |Trim(o.text)| <= OPTION_LABEL_MAX_LENGTH
  {
    hide Trim;
    if options != [] {
      var front, last := options[..|options| - 1], options[|options| - 1];
      assert options == front + [last];
      OptionErrorsMeaning(front, position);
    }
  }

  lemma {:induction false} NoEtcMeaning(options: seq<Choice>)
    ensures EtcCount(options) == 0 <==> forall o :: o in options ==> !o.isEtc
  {
    if options != [] {
      NoEtcMeaning(options[1..]);
      assert options == [options[0]] + options[1..];
    }
  }

  lemma AtMostOneEtcStep(first: Choice, rest: seq<Choice>)
    ensures AtMostOneEtc([first] + rest) <==> AtMostOneEtc(rest) && (first.isEtc ==> forall o :: o in rest ==> !o.isEtc)
  {
    var all := [first] + rest;
    assert all[0] == first;
    assert forall i :: 0 <= i < |rest| ==> rest[i] == all[i + 1];
    if AtMostOneEtc(rest) && (first.isEtc ==> forall o :: o in rest ==> !o.isEtc) {
      forall i, j | 0 <= i < j < |all|
        ensures !(all[i].isEtc && all[j].isEtc)
      {
        assert all[j] == rest[j - 1];
        assert i > 0 ==> all[i] == rest[i - 1];
      }
    }
  }

  lemma {:induction false} OneEtcMeaning(options: seq<Choice>)
    ensures EtcCount(options) <= 1 <==> AtMostOneEtc(options)
  {
    if options != [] {
      var first, rest := options[0], options[1..];
      OneEtcMeaning(rest);
      NoEtcMeaning(rest);
      AtMostOneEtcStep(first, rest);
      assert options == [first] + rest;
    }
  }

  lemma ChoiceErrorsMeaning(q: Question, position: int)
    requires IsChoiceType(q.kind)
    ensures ChoiceErrors(q, position) == [] <==> ChoicesAreFine(q)
  {
    hide OptionErrors, Trim, EtcCount, SelectRangeIsFine, OptionCountIsFine, AtMostOneEtc;
    OptionErrorsMeaning(q.options, position);
    NoEtcMeaning(q.options);
    OneEtcMeaning(q.options);
  }

  lemma ProblemsMeaning(q: Question, position: int)
    ensures ProblemsOf(q, position) == [] <==> IsComplete(q)
  {
    hide ChoiceErrors, ChoicesAreFine, LengthIsFine, HasScaleLabels;
    if IsChoiceType(q.kind) {
      ChoiceErrorsMeaning(q, position);
    }
  }

  lemma {:induction false} QuestionProblemsMeaning(questions: seq<Question>)
    ensures QuestionProblems(questions) == [] <==> forall q :: q in questions ==> IsComplete(q)
  {
    hide ProblemsOf, IsComplete;
    if questions != [] {
      var front, last := questions[..|questions| - 1], questions[|questions| - 1];
      assert questions == front + [last];
      QuestionProblemsMeaning(front);
      ProblemsMeaning(last, |questions|);
    }
  }

  lemma PublishProblemsMeaning(survey: SurveyForm, now: int)
    ensures PublishProblems(survey, now) == [] <==> Publishable(survey, now)
  {
    hide QuestionProblems, IsComplete, Blank, KstDate.LexLess, KstDate.ToKstDateString;
    QuestionProblemsMeaning(survey.questions);
  }

  // ---------------------------------------------------------------- what is reported

  /** What is wrong with the question at `position`. */
  ghost predicate IsQuestionProblem(q: Question, position: int, e: PublishError) {
    match e
    case TextLength(p) => p == position && !(5 <= |Trim(q.questionText)| <= 200)
    case OptionCount(p) => p == position && HasOptions(q) && !(2 <= |q.options| <= 10)
    case OptionBlank(p, k) =>
      p == position && HasOptions(q) && 1 <= k <= |q.options| && |Trim(q.options[k - 1].text)| == 0
    case OptionTooLong(p, k) =>
      p == position && HasOptions(q) && 1 <= k <= |q.options| && |Trim(q.options[k - 1].text)| > 50
    case SeveralEtc(p) =>
      p == position && HasOptions(q)
      && exists i, j :: 0 <= i < j < |q.options| && q.options[i].isEtc && q.options[j].isEtc
    case EtcOutsideSingle(p) => p == position && q.kind == MULTI_CHOICE && exists o :: o in q.options && o.isEtc
    case SelectRange(p) =>
      && p == position && q.kind == MULTI_CHOICE
      && (q.minSelect == None || q.maxSelect == None || q.minSelect.value < 1
          || q.minSelect.value > q.maxSelect.value || q.maxSelect.value > |q.options|)
    case ScaleLabels(p) =>
      && p == position && q.kind == SCALE
      && (q.minScaleLabel == None || Blank(q.minScaleLabel.value)
          || q.maxScaleLabel == None || Blank(q.maxScaleLabel.value))
    case _ => false
  }

  predicate HasOptions(q: Question) {
    q.kind == SINGLE_CHOICE || q.kind == MULTI_CHOICE
  }

  /** What keeps a survey from being published. */
  ghost predicate IsProblem(survey: SurveyForm, now: int, e: PublishError) {
    match e
    case TitleMissing => Blank(survey.title)
    case QuestionCount => !(3 <= |survey.questions| <= 30)
    case TargetMissing => survey.targetCount == None
    case TargetRange => survey.targetCount.Some? && !(1 <= survey.targetCount.value <= 100)
    case DeadlineMissing => survey.deadlineAt == None
    case DeadlinePast =>
      && survey.deadlineAt.Some?
      && KstDate.LexLess(KstDate.ToKstDateString(survey.deadlineAt.value), KstDate.ToKstDateString(now))
    case _ => exists k :: 0 <= k < |survey.questions| && IsQuestionProblem(survey.questions[k], k + 1, e)
  }

  lemma {:induction false} OptionsAreReported(options: seq<Choice>, position: int, e: PublishError)
    ensures e in OptionErrors(options, position) <==>
              match e
              case OptionBlank(p, k) => p == position && 1 <= k <= |options| && |Trim(options[k - 1].text)| == 0
              case OptionTooLong(p, k) => p == position && 1 <= k <= |options| && |Trim(options[k - 1].text)| > 50
              case _ => false
    decreases |options|
  {
    hide Trim;
    if options != [] {
      var front := options[..|options| - 1];
      OptionsAreReported(front, position, e);
      assert forall k :: 0 <= k < |front| ==> front[k] == options[k];
    }
  }

  lemma ChoiceProblemsAreReported(q: Question, position: int, e: PublishError)
    requires HasOptions(q)
    ensures e in ChoiceErrors(q, position)
       <==> && IsQuestionProblem(q, position, e) && !e.TextLength? && !e.ScaleLabels?
  {
    hide OptionErrors, Trim, EtcCount, AtMostOneEtc, Blank, When;
    OptionsAreReported(q.options, position, e);
    InWhen(!OptionCountIsFine(q), OptionCount(position), e);
    InWhen(EtcCount(q.options) > 1, SeveralEtc(position), e);
    InWhen(EtcCount(q.options) > 0 && q.kind != SINGLE_CHOICE, EtcOutsideSingle(position), e);
    InWhen(q.kind == MULTI_CHOICE && !SelectRangeIsFine(q), SelectRange(position), e);
    NoEtcMeaning(q.options);
    OneEtcMeaning(q.options);
    SeveralMeaning(q.options);
  }

  lemma InWhen(condition: bool, error: PublishError, e: PublishError)
    ensures e in When(condition, error) <==> condition && e == error
  {
  }

  lemma SeveralMeaning(options: seq<Choice>)
    ensures !AtMostOneEtc(options)
       <==> exists i, j :: 0 <= i < j < |options| && options[i].isEtc && options[j].isEtc
  {
  }

  lemma ProblemsAreReported(q: Question, position: int, e: PublishError)
    ensures e in ProblemsOf(q, position) <==> IsQuestionProblem(q, position, e)
  {
    if IsChoiceType(q.kind) {
      ChoiceProblemsAreReported(q, position, e);
    }
    hide ChoiceErrors, Trim, Blank;
  }

  lemma {:induction false} QuestionsAreReported(questions: seq<Question>, e: PublishError)
    ensures e in QuestionProblems(questions)
       <==> exists k :: 0 <= k < |questions| && IsQuestionProblem(questions[k], k + 1, e)
    decreases |questions|
  {
    hide ProblemsOf, IsQuestionProblem;
    if questions != [] {
      var front, last := questions[..|questions| - 1], questions[|questions| - 1];
      QuestionsAreReported(front, e);
      ProblemsAreReported(last, |questions|, e);
      assert forall k :: 0 <= k < |front| ==> front[k] == questions[k];
    }
  }

  lemma SurveyProblemsAreOther(q: Question, position: int, e: PublishError)
    ensures IsQuestionProblem(q, position, e) ==>
              !(e.TitleMissing? || e.QuestionCount? || e.TargetMissing? || e.TargetRange? || e.DeadlineMissing?
                || e.DeadlinePast?)
  {
  }

  lemma TargetIsReported(survey: SurveyForm, e: PublishError)
    ensures e in TargetProblems(survey)
       <==> || (e.TargetMissing? && survey.targetCount == None)
            || (e.TargetRange? && survey.targetCount.Some? && !(1 <= survey.targetCount.value <= 100))
  {
  }

  lemma DeadlineIsReported(survey: SurveyForm, now: int, e: PublishError)
    ensures e in DeadlineProblems(survey, now)
       <==> || (e.DeadlineMissing? && survey.deadlineAt == None)
            || (e.DeadlinePast? && survey.deadlineAt.Some?
                && KstDate.LexLess(KstDate.ToKstDateString(survey.deadlineAt.value), KstDate.ToKstDateString(now)))
  {
    hide KstDate.LexLess, KstDate.ToKstDateString;
  }

  /** The errors reported are exactly what keeps the survey from being published,
      each with the right question and option. */
  lemma PublishProblemsAreReported(survey: SurveyForm, now: int, e: PublishError)
    ensures e in PublishProblems(survey, now) <==> IsProblem(survey, now, e)
  {
    hide QuestionProblems, IsQuestionProblem, Blank, KstDate.LexLess, KstDate.ToKstDateString, TargetProblems,
         DeadlineProblems;
    TargetIsReported(survey, e);
    DeadlineIsReported(survey, now, e);
    QuestionsAreReported(survey.questions, e);
    forall k | 0 <= k < |survey.questions|
      ensures IsQuestionProblem(survey.questions[k], k + 1, e) ==>
                !(e.TitleMissing? || e.QuestionCount? || e.TargetMissing? || e.TargetRange? || e.DeadlineMissing?
                  || e.DeadlinePast?)
    {
      SurveyProblemsAreOther(survey.questions[k], k + 1, e);
    }
  }

  /** Where an error stands: the title, the number of questions, the questions one by
      one, the target and the deadline; and within a question, in the order of the
      checks and of the options. */
  datatype Place = Place(part: int, question: int, check: int, option: int)

  function PlaceOf(e: PublishError): Place {
    match e
    case TitleMissing => Place(0, 0, 0, 0)
    case QuestionCount => Place(1, 0, 0, 0)
    case TextLength(p) => Place(2, p, 0, 0)
    case OptionCount(p) => Place(2, p, 1, 0)
    case OptionBlank(p, k) => Place(2, p, 2, k)
    case OptionTooLong(p, k) => Place(2, p, 2, k)
    case SeveralEtc(p) => Place(2, p, 3, 0)
    case EtcOutsideSingle(p) => Place(2, p, 4, 0)
    case SelectRange(p) => Place(2, p, 5, 0)
    case ScaleLabels(p) => Place(2, p, 6, 0)
    case TargetMissing => Place(3, 0, 0, 0)
    case TargetRange => Place(3, 0, 0, 0)
    case DeadlineMissing => Place(4, 0, 0, 0)
    case DeadlinePast => Place(4, 0, 0, 0)
  }

  predicate StandsBefore(a: PublishError, b: PublishError) {
    var x, y := PlaceOf(a), PlaceOf(b);
    x.part < y.part
    || (x.part == y.part
        && (x.question < y.question
            || (x.question == y.question
                && (x.check < y.check || (x.check == y.check && x.option < y.option)))))
  }

  ghost predicate InPlace(errors: seq<PublishError>) {
    forall i, j :: 0 <= i < j < |errors| ==> StandsBefore(errors[i], errors[j])
  }

  lemma JoinInPlace(a: seq<PublishError>, b: seq<PublishError>)
    requires InPlace(a) && InPlace(b) && forall x, y :: x in a && y in b ==> StandsBefore(x, y)
    ensures InPlace(a + b)
  {
    hide StandsBefore;
  }

  lemma {:induction false} OptionsInPlace(options: seq<Choice>, position: int)
    ensures InPlace(OptionErrors(options, position))
    decreases |options|
  {
    hide Trim;
    if options != [] {
      var n := |options|;
      var front := OptionErrors(options[..n - 1], position);
      OptionsInPlace(options[..n - 1], position);
      forall x, y | x in front && y in OptionError(options[n - 1], position, n)
        ensures StandsBefore(x, y)
      {
        OptionsAreReported(options[..n - 1], position, x);
      }
      JoinInPlace(front, OptionError(options[n - 1], position, n));
    }
  }

  lemma JoinOne(a: seq<PublishError>, condition: bool, e: PublishError)
    requires InPlace(a) && forall x :: x in a ==> StandsBefore(x, e)
    ensures InPlace(a + When(condition, e)) && forall x :: x in a + When(condition, e) ==> x in a || x == e
  {
    hide StandsBefore;
  }

  lemma ChoicesInPlace(q: Question, position: int)
    requires HasOptions(q)
    ensures InPlace(ChoiceErrors(q, position))
  {
    hide OptionErrors, EtcCount, OptionCountIsFine, SelectRangeIsFine, InPlace, When;
    var options := OptionErrors(q.options, position);
    JoinOne([], !OptionCountIsFine(q), OptionCount(position)) by { NothingInPlace(); }
    var first := When(!OptionCountIsFine(q), OptionCount(position));
    assert [] + first == first;
    OptionsInPlace(q.options, position);
    forall e | e in options
      ensures PlaceOf(e).part == 2 && PlaceOf(e).question == position && PlaceOf(e).check == 2
    {
      OptionsAreReported(q.options, position, e);
    }
    JoinInPlace(first, options);
    var counted := first + options;
    JoinOne(counted, EtcCount(q.options) > 1, SeveralEtc(position));
    var several := counted + When(EtcCount(q.options) > 1, SeveralEtc(position));
    JoinOne(several, EtcCount(q.options) > 0 && q.kind != SINGLE_CHOICE, EtcOutsideSingle(position));
    var outside := several + When(EtcCount(q.options) > 0 && q.kind != SINGLE_CHOICE, EtcOutsideSingle(position));
    JoinOne(outside, q.kind == MULTI_CHOICE && !SelectRangeIsFine(q), SelectRange(position));
  }

  lemma NothingInPlace()
    ensures InPlace([])
  {
  }

  lemma QuestionInPlace(q: Question, position: int)
    ensures InPlace(ProblemsOf(q, position))
    ensures forall e :: e in ProblemsOf(q, position) ==> PlaceOf(e).part == 2 && PlaceOf(e).question == position
  {
    hide InPlace, When, LengthIsFine, HasScaleLabels, ChoiceErrors;
    NothingInPlace();
    JoinOne([], !LengthIsFine(q), TextLength(position));
    var first := When(!LengthIsFine(q), TextLength(position));
    assert [] + first == first;
    var choices := if IsChoiceType(q.kind) then ChoiceErrors(q, position) else [];
    if IsChoiceType(q.kind) {
      ChoicesInPlace(q, position);
    }
    forall e | e in choices
      ensures PlaceOf(e).part == 2 && PlaceOf(e).question == position && 1 <= PlaceOf(e).check <= 5
    {
      ChoiceProblemsAreReported(q, position, e);
    }
    JoinInPlace(first, choices);
    JoinOne(first + choices, q.kind == SCALE && !HasScaleLabels(q), ScaleLabels(position));
  }

  lemma {:induction false} QuestionsInPlace(questions: seq<Question>)
    ensures InPlace(QuestionProblems(questions))
    ensures forall e :: e in QuestionProblems(questions) ==>
              PlaceOf(e).part == 2 && PlaceOf(e).question <= |questions|
    decreases |questions|
  {
    hide InPlace, ProblemsOf;
    if questions == [] {
      NothingInPlace();
    } else {
      var n := |questions|;
      QuestionsInPlace(questions[..n - 1]);
      QuestionInPlace(questions[n - 1], n);
      JoinInPlace(QuestionProblems(questions[..n - 1]), ProblemsOf(questions[n - 1], n));
    }
  }

  /** The errors come in the order of the checks, and none comes twice. */
  lemma PublishProblemsInOrder(survey: SurveyForm, now: int, i: nat, j: nat)
    requires i < j < |PublishProblems(survey, now)|
    ensures StandsBefore(PublishProblems(survey, now)[i], PublishProblems(survey, now)[j])
    ensures PublishProblems(survey, now)[i] != PublishProblems(survey, now)[j]
  {
    ProblemsInPlace(survey, now);
    hide PublishProblems;
  }

  lemma ProblemsInPlace(survey: SurveyForm, now: int)
    ensures InPlace(PublishProblems(survey, now))
  {
    hide InPlace, QuestionProblems, When, Blank, KstDate.LexLess, KstDate.ToKstDateString;
    NothingInPlace();
    var count := |survey.questions|;
    JoinOne([], Blank(survey.title), TitleMissing);
    var first := When(Blank(survey.title), TitleMissing);
    assert [] + first == first;
    JoinOne(first, count < MIN_QUESTION_COUNT || count > MAX_QUESTION_COUNT, QuestionCount);
    var head := first + When(count < MIN_QUESTION_COUNT || count > MAX_QUESTION_COUNT, QuestionCount);
    QuestionsInPlace(survey.questions);
    JoinInPlace(head, QuestionProblems(survey.questions));
    var body := head + QuestionProblems(survey.questions);
    TargetInPlace(survey);
    JoinInPlace(body, TargetProblems(survey));
    DeadlineInPlace(survey, now);
    JoinInPlace(body + TargetProblems(survey), DeadlineProblems(survey, now));
  }

  lemma TargetInPlace(survey: SurveyForm)
    ensures InPlace(TargetProblems(survey)) && forall e :: e in TargetProblems(survey) ==> PlaceOf(e).part == 3
  {
  }

  lemma DeadlineInPlace(survey: SurveyForm, now: int)
    ensures InPlace(DeadlineProblems(survey, now))
    ensures forall e :: e in DeadlineProblems(survey, now) ==> PlaceOf(e).part == 4
  {
    hide KstDate.LexLess, KstDate.ToKstDateString;
  }

  /** A deadline is past when its Korean day is over. */
  lemma PastDeadlineMeaning(survey: SurveyForm, now: int)
    requires survey.deadlineAt.Some?
    requires 0 <= KstDate.KstYear(survey.deadlineAt.value) <= 9999 && 0 <= KstDate.KstYear(now) <= 9999
    ensures DeadlinePast in PublishProblems(survey, now)
       <==> KstDate.KstDay(survey.deadlineAt.value) < KstDate.KstDay(now)
  {
    hide QuestionProblems, IsQuestionProblem, Blank, KstDate.LexLess, KstDate.ToKstDateString, PublishProblems;
    PublishProblemsAreReported(survey, now, DeadlinePast);
    DaysAreShownInOrder(survey.deadlineAt.value, now);
  }

  lemma DaysAreShownInOrder(t: int, u: int)
    requires 0 <= KstDate.KstYear(t) <= 9999 && 0 <= KstDate.KstYear(u) <= 9999
    ensures KstDate.LexLess(KstDate.ToKstDateString(t), KstDate.ToKstDateString(u))
       <==> KstDate.KstDay(t) < KstDate.KstDay(u)
  {
    hide KstDate.LexLess, KstDate.IsoDate, KstDate.KstDay;
    KstDate.ShownOrder(KstDate.KstDay(t), KstDate.KstDay(u));
  }

  // ---------------------------------------------------------------- answering it

  /** What the database guarantees of stored questions and their options. */
  ghost predicate WellKeyed(questions: seq<Question>) {
    && DistinctQuestions(questions)
    && forall q :: q in questions ==> OptionIdsAreKeys(q.options)
  }

  ghost predicate OptionIdsAreKeys(options: seq<Choice>) {
    && (forall i, j :: 0 <= i < j < |options| ==> options[i].id != options[j].id)
    && (forall o :: o in options ==> !Blank(o.id))
  }

  /** An answer to a complete question: the first option, the first `min`
      options, the lowest score, or one letter. */
  function SampleValue(q: Question): Json {
    match q.kind
    case SINGLE_CHOICE =>
      Obj(map["optionId" := Str(if q.options == [] then "" else q.options[0].id), "etcText" := Str("a")])
    case MULTI_CHOICE => Arr(FirstIds(q.options, MinSelect(q)))
    case SCALE => Score(MinScale(q))
    case _ => Str("a")
  }

  function FirstIds(options: seq<Choice>, n: int): (ids: seq<Json>)
    ensures 0 <= n <= |options| ==> |ids| == n && forall i :: 0 <= i < n ==> ids[i] == Str(options[i].id)
  {
    if 0 <= n <= |options| then seq(n, i requires 0 <= i < n => Str(options[i].id)) else []
  }

  /** The questions answered by the sample: all, or the required ones. */
  function SampleAnswers(questions: seq<Question>, all: bool): seq<Entry> {
    if questions == [] then []
    else
      var rest := SampleAnswers(questions[1..], all);
      if all || questions[0].required then [Entry(questions[0].stableKey, SampleValue(questions[0]))] + rest else rest
  }

  predicate HasScore(q: Question) {
    q.kind == SCALE ==> MinScale(q) <= MaxScale(q)
  }

  lemma LetterIsNotBlank()
    ensures Trim("a") == "a" && !Blank("a")
  {
    assert TrimStart("a") == "a" && TrimEnd("a") == "a";
  }

  lemma SampleSingleIsValid(q: Question)
    requires q.kind == SINGLE_CHOICE && IsComplete(q) && OptionIdsAreKeys(q.options)
    ensures !IsBlankAnswer(q.kind, Some(SampleValue(q))) && ValidValue(q, SampleValue(q))
  {
    hide Blank, Trim;
    LetterIsNotBlank();
    var value := SampleValue(q);
    assert Field(value, "optionId") == Some(Str(q.options[0].id));
    assert Field(value, "etcText") == Some(Str("a"));
    assert q.options[0] in q.options;
  }

  lemma SampleMultiIsValid(q: Question)
    requires q.kind == MULTI_CHOICE && IsComplete(q) && OptionIdsAreKeys(q.options)
    ensures !IsBlankAnswer(q.kind, Some(SampleValue(q))) && ValidValue(q, SampleValue(q))
  {
    hide Blank, Trim;
    var ids := FirstIds(q.options, MinSelect(q));
    forall i | 0 <= i < |ids|
      ensures IsOptionId(ids[i], q.options)
    {
      assert q.options[i] in q.options && q.options[i].id == ids[i].s;
    }
  }

  lemma SampleIsValid(q: Question)
    requires IsComplete(q) && OptionIdsAreKeys(q.options) && HasScore(q)
    ensures !IsBlankAnswer(q.kind, Some(SampleValue(q))) && ValidValue(q, SampleValue(q))
  {
    match q.kind
    case SINGLE_CHOICE => SampleSingleIsValid(q);
    case MULTI_CHOICE => SampleMultiIsValid(q);
    case SCALE =>
    case _ => LetterIsNotBlank();
  }

  lemma {:induction false} SampleKeys(questions: seq<Question>, all: bool)
    ensures forall e :: e in SampleAnswers(questions, all) ==> IsKnown(questions, e.key)
    ensures DistinctQuestions(questions) ==> DistinctEntries(SampleAnswers(questions, all))
  {
    if questions != [] {
      var rest := SampleAnswers(questions[1..], all);
      SampleKeys(questions[1..], all);
      assert questions == [questions[0]] + questions[1..];
      forall e | e in SampleAnswers(questions, all)
        ensures IsKnown(questions, e.key)
      {
        if e in rest {
          var q :| q in questions[1..] && q.stableKey == e.key;
        }
      }
      if DistinctQuestions(questions) {
        forall e | e in rest
          ensures e.key != questions[0].stableKey
        {
          var q :| q in questions[1..] && q.stableKey == e.key;
        }
      }
    }
  }

  lemma {:induction false} SampleOf(questions: seq<Question>, all: bool, i: nat)
    requires DistinctQuestions(questions) && i < |questions|
    ensures Get(SampleAnswers(questions, all), questions[i].stableKey)
         == if all || questions[i].required then Some(SampleValue(questions[i])) else None
  {
    hide SampleValue;
    if i == 0 {
      if !(all || questions[0].required) {
        SampleKeys(questions[1..], all);
        GetIsThere(SampleAnswers(questions[1..], all), questions[0].stableKey);
        NotAmongRest(questions);
      }
    } else {
      SampleOf(questions[1..], all, i - 1);
      assert questions[0].stableKey != questions[i].stableKey;
    }
  }

  lemma NotAmongRest(questions: seq<Question>)
    requires DistinctQuestions(questions) && questions != []
    ensures !IsKnown(questions[1..], questions[0].stableKey)
  {
  }

  /** The sample is accepted, and answers what it is meant to. */
  lemma SampleIsAccepted(questions: seq<Question>, all: bool)
    requires WellKeyed(questions) && forall q :: q in questions ==> IsComplete(q)
    requires forall q :: q in questions && (all || q.required) ==> HasScore(q)
    ensures DistinctEntries(SampleAnswers(questions, all)) && Accepts(questions, SampleAnswers(questions, all))
    ensures all ==> AnswersAll(questions, SampleAnswers(questions, all))
  {
    hide IsBlankAnswer, ValidValue, SampleValue, IsComplete, HasScore, OptionIdsAreKeys, Get, SampleAnswers, IsKnown,
         DistinctEntries;
    var answers := SampleAnswers(questions, all);
    SampleKeys(questions, all);
    forall q | q in questions
      ensures FineFor(q, Get(answers, q.stableKey))
      ensures all || q.required ==> !IsBlankAnswer(q.kind, Get(answers, q.stableKey))
    {
      var i :| 0 <= i < |questions| && questions[i] == q;
      SampleOf(questions, all, i);
      if all || q.required {
        SampleIsValid(q);
      } else {
        MissingIsFine(q);
      }
    }
  }

  ghost predicate AnswersAll(questions: seq<Question>, answers: seq<Entry>) {
    forall q :: q in questions ==> !IsBlankAnswer(q.kind, Get(answers, q.stableKey))
  }

  lemma AnsweredScaleHasScore(questions: seq<Question>, answers: seq<Entry>, q: Question)
    requires Accepts(questions, answers) && q in questions
    requires !IsBlankAnswer(q.kind, Get(answers, q.stableKey))
    ensures HasScore(q)
  {
    hide IsBlankAnswer, Get, IsKnown;
    assert FineFor(q, Get(answers, q.stableKey));
  }

  /** A submission that is accepted, and with `all` answers every question. */
  ghost predicate CanBeSubmitted(questions: seq<Question>, answers: seq<Entry>, all: bool) {
    DistinctEntries(answers) && SubmittedErrors(questions, answers) == [] && (all ==> AnswersAll(questions, answers))
  }

  /** A publishable survey can be answered, exactly when no scale it has to
      answer is empty: publishing does not look at minScale and maxScale. */
  lemma PublishableCanBeAnswered(survey: SurveyForm, now: int, all: bool)
    requires PublishProblems(survey, now) == [] && WellKeyed(survey.questions)
    ensures (exists answers :: CanBeSubmitted(survey.questions, answers, all))
       <==> forall q :: q in survey.questions && (all || q.required) ==> HasScore(q)
  {
    hide HasScore, SubmittedErrors, PublishProblems, AnswersAll, DistinctEntries, WellKeyed, Accepts, SampleAnswers,
         IsComplete;
    var questions := survey.questions;
    PublishProblemsMeaning(survey, now);
    if forall q :: q in questions && (all || q.required) ==> HasScore(q) {
      SampleIsAccepted(questions, all);
      SubmittedErrorsMeaning(questions, SampleAnswers(questions, all));
      assert CanBeSubmitted(questions, SampleAnswers(questions, all), all);
    }
    if answers :| CanBeSubmitted(questions, answers, all) {
      SubmittedErrorsMeaning(questions, answers);
      forall q | q in questions && (all || q.required)
        ensures HasScore(q)
      {
        assert !IsBlankAnswer(q.kind, Get(answers, q.stableKey)) by {
          NotBlankWhenNeeded(questions, answers, q, all);
        }
        AnsweredScaleHasScore(questions, answers, q);
      }
    }
  }

  lemma NotBlankWhenNeeded(questions: seq<Question>, answers: seq<Entry>, q: Question, all: bool)
    requires Accepts(questions, answers) && (all ==> AnswersAll(questions, answers)) && q in questions
             && (all || q.required)
    ensures !IsBlankAnswer(q.kind, Get(answers, q.stableKey))
  {
    hide IsBlankAnswer, Get, IsKnown, FineFor;
  }

  // ---------------------------------------------------------------- saved surveys

  /** A stored question row as respondents see it; `ids` are its options' ids. */
  function Asked(row: FormMate.QuestionRow, ids: nat -> string): Question {
    Question(row.orderNo, row.stableKey, row.kind, row.questionText, row.required,
             row.minSelect, row.maxSelect, row.minScale, row.maxScale, row.minScaleLabel, row.maxScaleLabel,
             seq(|row.options|, i requires 0 <= i < |row.options| =>
               Choice(ids(i), row.options[i].orderNo, row.options[i].text, row.options[i].isEtc)))
  }

  /** Respondents see every column as it is stored. */
  lemma AskedAsStored(row: FormMate.QuestionRow, ids: nat -> string)
    ensures var q := Asked(row, ids);
            && q.orderNo == row.orderNo && q.stableKey == row.stableKey && q.kind == row.kind
            && q.questionText == row.questionText && q.required == row.required
            && q.minSelect == row.minSelect && q.maxSelect == row.maxSelect
            && q.minScale == row.minScale && q.maxScale == row.maxScale
            && q.minScaleLabel == row.minScaleLabel && q.maxScaleLabel == row.maxScaleLabel
            && |q.options| == |row.options|
            && forall i :: 0 <= i < |q.options| ==>
                 && q.options[i].text == row.options[i].text && q.options[i].isEtc == row.options[i].isEtc
                 && q.options[i].orderNo == row.options[i].orderNo
  {
  }

  /** Every survey saved through the editor and published can be answered in full. */
  lemma SavedSurveyCanBeAnswered(survey: SurveyForm, now: int, drafts: seq<FormMate.Draft>, newKeys: nat -> string,
                                 ids: nat -> nat -> string)
    requires PublishProblems(survey, now) == [] && WellKeyed(survey.questions)
    requires |survey.questions| == |drafts|
    requires forall i :: 0 <= i < |drafts| ==> survey.questions[i] == Asked(FormMate.Store(drafts, newKeys)[i], ids(i))
    ensures exists answers :: CanBeSubmitted(survey.questions, answers, true)
  {
    hide PublishProblems, WellKeyed, CanBeSubmitted;
    forall q | q in survey.questions
      ensures HasScore(q)
    {
      var i :| 0 <= i < |drafts| && survey.questions[i] == q;
    }
    PublishableCanBeAnswered(survey, now, true);
  }
}
