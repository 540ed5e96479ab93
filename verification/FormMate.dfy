/** FormMate's edit log on a draft: storing and loading questions
    (src/survey/survey.service.ts, src/survey/formmate/formmate.service.ts), and
    applying and reverting a batch of proposed changes. */
module FormMate {
  import opened Options
  import opened Survey

  type Key = string

  // ---------------------------------------------------------------- rows and drafts

  datatype OptionRow = OptionRow(orderNo: int, text: string, isEtc: bool)

  datatype QuestionRow = QuestionRow(
    orderNo: int, stableKey: Key, kind: QuestionType, questionText: string, required: bool,
    minSelect: Option<int>, maxSelect: Option<int>, minScale: Option<int>, maxScale: Option<int>,
    minScaleLabel: Option<string>, maxScaleLabel: Option<string>, options: seq<OptionRow>)

  datatype OptionDraft = OptionDraft(text: string, isEtc: Option<bool>)

  datatype Draft = Draft(
    id: Option<Key>, kind: QuestionType, questionText: string, required: Option<bool>,
    minSelect: Option<int>, maxSelect: Option<int>,
    minScaleLabel: Option<string>, maxScaleLabel: Option<string>, options: Option<seq<OptionDraft>>)

  function OptionOrder(o: OptionRow): int { o.orderNo }
  function RowOrder(q: QuestionRow): int { q.orderNo }

  function LoadOptions(options: seq<OptionRow>): (drafts: seq<OptionDraft>)
    ensures |drafts| == |options|
    ensures forall i :: 0 <= i < |options| ==> drafts[i] == OptionDraft(options[i].text, Some(options[i].isEtc))
  {
    seq(|options|, i requires 0 <= i < |options| => OptionDraft(options[i].text, Some(options[i].isEtc)))
  }

  /** toQuestionDraft. */
  function ToQuestionDraft(q: QuestionRow): Draft {
    Draft(Some(q.stableKey), q.kind, q.questionText, Some(q.required), q.minSelect, q.maxSelect,
          q.minScaleLabel, q.maxScaleLabel, Some(LoadOptions(SortBy(OptionOrder, q.options))))
  }

  function LoadInOrder(rows: seq<QuestionRow>): (drafts: seq<Draft>)
    ensures |drafts| == |rows|
    ensures forall i :: 0 <= i < |rows| ==> drafts[i] == ToQuestionDraft(rows[i])
  {
    seq(|rows|, i requires 0 <= i < |rows| => ToQuestionDraft(rows[i]))
  }

  /** The drafts of a survey's stored questions. */
  function Load(rows: seq<QuestionRow>): seq<Draft> {
    LoadInOrder(SortBy(RowOrder, rows))
  }

  function StoreOptions(kind: QuestionType, options: seq<OptionDraft>): (rows: seq<OptionRow>)
    ensures |rows| == |options|
    ensures forall i :: 0 <= i < |options| ==> rows[i].orderNo == i + 1
  {
    seq(|options|, i requires 0 <= i < |options| =>
      OptionRow(i + 1, options[i].text, if kind == SINGLE_CHOICE then options[i].isEtc.GetOr(false) else false))
  }

  /** The row replaceSurveyQuestions creates for the draft at `index`. */
  function RowOf(d: Draft, index: nat, newKey: Key): QuestionRow {
    QuestionRow(
      index + 1, d.id.GetOr(newKey), d.kind, d.questionText, d.required.GetOr(true),
      if d.kind == MULTI_CHOICE then d.minSelect else None,
      if d.kind == MULTI_CHOICE then d.maxSelect else None,
      if d.kind == SCALE then Some(SCALE_MIN) else None,
      if d.kind == SCALE then Some(SCALE_MAX) else None,
      if d.kind == SCALE then d.minScaleLabel else None,
      if d.kind == SCALE then d.maxScaleLabel else None,
      if IsChoiceType(d.kind) && d.options.Some? then StoreOptions(d.kind, d.options.value) else [])
  }

  /** The questions stored for a list of drafts; `newKeys` supplies fresh keys. */
  function Store(drafts: seq<Draft>, newKeys: nat -> Key): (rows: seq<QuestionRow>)
    ensures |rows| == |drafts|
    ensures forall i :: 0 <= i < |drafts| ==> rows[i] == RowOf(drafts[i], i, newKeys(i))
  {
    seq(|drafts|, i requires 0 <= i < |drafts| => RowOf(drafts[i], i, newKeys(i)))
  }

  predicate KnownIds(drafts: seq<Draft>, existing: set<Key>) {
    forall i :: 0 <= i < |drafts| ==>
      drafts[i].id.Some? && drafts[i].id.value != "" ==> drafts[i].id.value in existing
  }

  /** The unique constraint on (survey, stableKey). */
  predicate DistinctStableKeys(rows: seq<QuestionRow>) {
    forall i, j :: 0 <= i < j < |rows| ==> rows[i].stableKey != rows[j].stableKey
  }

  datatype ReplaceOutcome = Replaced | UnknownQuestion(key: Key) | DuplicateKey(key: Key)

  /** The question rows of one survey. */
  class QuestionTable {
    var rows: seq<QuestionRow>

    constructor (stored: seq<QuestionRow>)
      ensures rows == stored
    {
      rows := stored;
    }

    /** replaceSurveyQuestions: every id is checked before anything is deleted; a
        key that comes twice violates its constraint and rolls everything back. */
    method ReplaceSurveyQuestions(drafts: seq<Draft>, existing: set<Key>, newKeys: nat -> Key)
      returns (outcome: ReplaceOutcome)
      modifies this
      ensures outcome == Replaced <==> KnownIds(drafts, existing) && DistinctStableKeys(Store(drafts, newKeys))
      ensures outcome.UnknownQuestion? <==>
                exists i :: 0 <= i < |drafts| && drafts[i].id.Some? && drafts[i].id.value != ""
                  && drafts[i].id.value !in existing
      ensures outcome.UnknownQuestion? ==>
                exists i :: 0 <= i < |drafts| && drafts[i].id == Some(outcome.key) && outcome.key !in existing
                  && forall k :: 0 <= k < i && drafts[k].id.Some? && drafts[k].id.value != "" ==>
                       drafts[k].id.value in existing
      ensures rows == if outcome == Replaced then Store(drafts, newKeys) else old(rows)
    {
      for i := 0 to |drafts|
        invariant forall k :: 0 <= k < i ==>
                    drafts[k].id.Some? && drafts[k].id.value != "" ==> drafts[k].id.value in existing
      {
        var id := drafts[i].id;
        if id.Some? && id.value != "" && id.value !in existing {
          return UnknownQuestion(id.value);
        }
      }
      assert KnownIds(drafts, existing);
      hide RowOf, KnownIds, DistinctStableKeys;
      var before := rows;
      rows := [];
      NoRows();
      for index := 0 to |drafts|
        invariant rows == Store(drafts, newKeys)[..index]
        invariant DistinctStableKeys(rows)
      {
        var row := RowOf(drafts[index], index, newKeys(index));
        NextRow(Store(drafts, newKeys), index);
        if exists k :: 0 <= k < |rows| && rows[k].stableKey == row.stableKey {
          rows := before;
          return DuplicateKey(row.stableKey);
        }
        rows := rows + [row];
      }
      outcome := Replaced;
    }
  }

  lemma NoRows()
    ensures DistinctStableKeys([])
  {
  }

  /** A row whose key comes before among the stored ones, or one whose key is new. */
  lemma NextRow(all: seq<QuestionRow>, index: nat)
    requires index < |all| && DistinctStableKeys(all[..index])
    ensures all[..index + 1] == all[..index] + [all[index]]
    ensures if exists k :: 0 <= k < index && all[..index][k].stableKey == all[index].stableKey
            then !DistinctStableKeys(all) else DistinctStableKeys(all[..index + 1])
  {
    if k :| 0 <= k < index && all[..index][k].stableKey == all[index].stableKey {
      assert all[k].stableKey == all[index].stableKey;
    }
  }

  // ---------------------------------------------------------------- the normal form

  /** Saving and reloading a draft. */
  function Normalize(d: Draft): Draft {
    ToQuestionDraft(RowOf(d, 0, ""))
  }

  function NormalizeAll(drafts: seq<Draft>): (r: seq<Draft>)
    ensures |r| == |drafts|
    ensures forall i :: 0 <= i < |drafts| ==> r[i] == Normalize(drafts[i])
  {
    seq(|drafts|, i requires 0 <= i < |drafts| => Normalize(drafts[i]))
  }

  /** A row as replaceSurveyQuestions writes it, whatever order its options are
      read in. */
  ghost predicate NormalRow(q: QuestionRow) {
    exists d: Draft, options: seq<OptionRow>, index: nat ::
      d.id == Some(q.stableKey) && q == RowOf(d, index, "").(options := options)
      && multiset(options) == multiset(RowOf(d, index, "").options)
  }

  /** Stored questions of a draft: normal rows numbered 1 to n, in any order. */
  ghost predicate NormalForm(rows: seq<QuestionRow>) {
    && (forall i :: 0 <= i < |rows| ==> NormalRow(rows[i]))
    && var sorted := SortBy(RowOrder, rows);
       forall i :: 0 <= i < |sorted| ==> sorted[i].orderNo == i + 1
  }

  /** The order options are read in does not matter. */
  lemma OptionOrderIsIrrelevant(d: Draft, index: nat, key: Key, options: seq<OptionRow>)
    requires multiset(options) == multiset(RowOf(d, index, key).options)
    ensures SortBy(OptionOrder, options) == RowOf(d, index, key).options
    ensures ToQuestionDraft(RowOf(d, index, key).(options := options)) == ToQuestionDraft(RowOf(d, index, key))
  {
    var stored := RowOf(d, index, key).options;
    SortOfNumbered(OptionOrder, stored, options);
    SortOfNumbered(OptionOrder, stored, stored);
  }

  lemma StoredOptionsSorted(d: Draft, index: nat, key: Key)
    ensures SortBy(OptionOrder, RowOf(d, index, key).options) == RowOf(d, index, key).options
  {
    OptionOrderIsIrrelevant(d, index, key, RowOf(d, index, key).options);
  }

  /** Loading what was just stored gives the saved drafts, in their order,
      whatever order the rows come back in. */
  lemma LoadOfStore(drafts: seq<Draft>, newKeys: nat -> Key, rows: seq<QuestionRow>)
    requires forall i :: 0 <= i < |drafts| ==> drafts[i].id.Some?
    requires multiset(rows) == multiset(Store(drafts, newKeys))
    ensures Load(rows) == NormalizeAll(drafts)
  {
    var stored := Store(drafts, newKeys);
    SortOfNumbered(RowOrder, stored, rows);
    forall i | 0 <= i < |drafts|
      ensures ToQuestionDraft(stored[i]) == Normalize(drafts[i])
    {
      SameDraft(drafts[i], i, newKeys(i));
    }
  }

  lemma SameDraft(d: Draft, index: nat, key: Key)
    requires d.id.Some?
    ensures ToQuestionDraft(RowOf(d, index, key)) == Normalize(d)
  {
    StoredOptionsSorted(d, index, key);
    StoredOptionsSorted(d, 0, "");
  }

  /** Storing what was loaded from stored questions writes the same questions back. */
  lemma StoreOfLoad(rows: seq<QuestionRow>, newKeys: nat -> Key)
    requires NormalForm(rows)
    ensures var sorted := SortBy(RowOrder, rows);
            |Store(Load(rows), newKeys)| == |sorted|
            && forall i :: 0 <= i < |sorted| ==>
                 Store(Load(rows), newKeys)[i] == sorted[i].(options := SortBy(OptionOrder, sorted[i].options))
  {
    SortBySorts(RowOrder, rows);
    var sorted := SortBy(RowOrder, rows);
    forall i | 0 <= i < |sorted|
      ensures RowOf(ToQuestionDraft(sorted[i]), i, newKeys(i))
           == sorted[i].(options := SortBy(OptionOrder, sorted[i].options))
    {
      assert sorted[i] in multiset(rows);
      NormalRowIsFixed(sorted[i], i, newKeys(i));
    }
  }

  lemma StoredOptionsAreFixed(kind: QuestionType, options: seq<OptionDraft>)
    ensures StoreOptions(kind, LoadOptions(StoreOptions(kind, options))) == StoreOptions(kind, options)
  {
  }

  /** Storing the draft that was loaded from a stored one writes the same row. */
  lemma StoreOfStored(d: Draft, index: nat, key: Key, newKey: Key)
    requires d.id == Some(key)
    ensures RowOf(ToQuestionDraft(RowOf(d, index, "")), index, newKey) == RowOf(d, index, "")
  {
    StoredOptionsSorted(d, index, "");
    if d.options.Some? {
      StoredOptionsAreFixed(d.kind, d.options.value);
    }
    hide StoreOptions, LoadOptions, SortBy;
  }

  lemma NormalRowIsFixed(q: QuestionRow, i: nat, newKey: Key)
    requires NormalRow(q) && q.orderNo == i + 1
    ensures RowOf(ToQuestionDraft(q), i, newKey) == q.(options := SortBy(OptionOrder, q.options))
  {
    var d: Draft, options: seq<OptionRow>, index: nat :|
      d.id == Some(q.stableKey) && q == RowOf(d, index, "").(options := options)
      && multiset(options) == multiset(RowOf(d, index, "").options);
    assert index == i;
    hide StoreOptions, LoadOptions, SortBy, ToQuestionDraft, NormalRow;
    OptionOrderIsIrrelevant(d, i, "", options);
    StoreOfStored(d, i, q.stableKey, newKey);
  }

  /** Normalizing twice is normalizing once. */
  lemma NormalizeIsIdempotent(d: Draft)
    ensures Normalize(Normalize(d)) == Normalize(d)
  {
    StoredOptionsSorted(d, 0, "");
    if d.options.Some? {
      StoredOptionsAreFixed(d.kind, d.options.value);
    }
    hide StoreOptions, LoadOptions, SortBy;
    assert RowOf(Normalize(d), 0, "") == RowOf(d, 0, "");
  }

  /** What is loaded from stored questions is unchanged by another save. */
  lemma LoadedDraftsAreNormal(rows: seq<QuestionRow>, i: nat)
    requires NormalForm(rows) && i < |Load(rows)|
    ensures Normalize(Load(rows)[i]) == Load(rows)[i]
  {
    SortBySorts(RowOrder, rows);
    var q := SortBy(RowOrder, rows)[i];
    assert q in multiset(rows);
    var d: Draft, options: seq<OptionRow>, index: nat :|
      d.id == Some(q.stableKey) && q == RowOf(d, index, "").(options := options)
      && multiset(options) == multiset(RowOf(d, index, "").options);
    OptionOrderIsIrrelevant(d, index, "", options);
    SameDraft(d, index, "");
    NormalizeIsIdempotent(d);
  }

  // ---------------------------------------------------------------- what is kept of a draft

  /** Every column of a question saved as the `i`-th of a list. */
  lemma SavedQuestion(drafts: seq<Draft>, newKeys: nat -> Key, i: nat)
    requires i < |drafts|
    ensures var d, row := drafts[i], Store(drafts, newKeys)[i];
            && row.orderNo == i + 1
            && row.stableKey == (match d.id case Some(id) => id case None => newKeys(i))
            && row.kind == d.kind && row.questionText == d.questionText
            && (row.required <==> d.required != Some(false))
            && (if d.kind == MULTI_CHOICE then row.minSelect == d.minSelect && row.maxSelect == d.maxSelect
                else row.minSelect == None && row.maxSelect == None)
            && (if d.kind == SCALE
                then && row.minScale == Some(1) && row.maxScale == Some(5)
                     && row.minScaleLabel == d.minScaleLabel && row.maxScaleLabel == d.maxScaleLabel
                else && row.minScale == None && row.maxScale == None
                     && row.minScaleLabel == None && row.maxScaleLabel == None)
  {
  }

  /** Choice questions keep their options in order, only single choices an "other"
      option, and the remaining questions have none. */
  lemma SavedOptions(drafts: seq<Draft>, newKeys: nat -> Key, i: nat)
    requires i < |drafts|
    ensures var d, options := drafts[i], Store(drafts, newKeys)[i].options;
            if (d.kind == SINGLE_CHOICE || d.kind == MULTI_CHOICE) && d.options.Some? then
              && |options| == |d.options.value|
              && forall k :: 0 <= k < |options| ==>
                   && options[k].orderNo == k + 1 && options[k].text == d.options.value[k].text
                   && (options[k].isEtc <==> d.kind == SINGLE_CHOICE && d.options.value[k].isEtc == Some(true))
            else options == []
  {
  }

  /** What is read back of the `i`-th question, whatever order its survey's rows
      come in. */
  lemma LoadedQuestion(drafts: seq<Draft>, newKeys: nat -> Key, rows: seq<QuestionRow>, i: nat)
    requires i < |drafts| && multiset(rows) == multiset(Store(drafts, newKeys))
    ensures |Load(rows)| == |drafts|
    ensures var d, l := drafts[i], Load(rows)[i];
            && l.id == Some(match d.id case Some(id) => id case None => newKeys(i))
            && l.kind == d.kind && l.questionText == d.questionText && l.required == Some(d.required != Some(false))
            && (if d.kind == MULTI_CHOICE then l.minSelect == d.minSelect && l.maxSelect == d.maxSelect
                else l.minSelect == None && l.maxSelect == None)
            && (if d.kind == SCALE then l.minScaleLabel == d.minScaleLabel && l.maxScaleLabel == d.maxScaleLabel
                else l.minScaleLabel == None && l.maxScaleLabel == None)
            && l.options.Some?
            && (if (d.kind == SINGLE_CHOICE || d.kind == MULTI_CHOICE) && d.options.Some? then
                  && |l.options.value| == |d.options.value|
                  && forall k :: 0 <= k < |l.options.value| ==>
                       && l.options.value[k].text == d.options.value[k].text
                       && l.options.value[k].isEtc
                          == Some(d.kind == SINGLE_CHOICE && d.options.value[k].isEtc == Some(true))
                else l.options.value == [])
  {
    hide RowOf, StoreOptions;
    var stored := Store(drafts, newKeys);
    SavedQuestion(drafts, newKeys, i);
    SavedOptions(drafts, newKeys, i);
    RowNumbers(drafts, newKeys);
    SortOfNumbered(RowOrder, stored, rows);
    StoredOptionsSorted(drafts[i], i, newKeys(i));
    hide SortBy;
    assert Load(rows)[i] == ToQuestionDraft(stored[i]);
  }

  lemma RowNumbers(drafts: seq<Draft>, newKeys: nat -> Key)
    ensures forall i :: 0 <= i < |drafts| ==> Store(drafts, newKeys)[i].orderNo == i + 1
  {
  }

  /** Whether every field of a draft is one its type of question has, with a
      value. */
  predicate IsComplete(d: Draft) {
    && d.id.Some? && d.required.Some? && d.options.Some?
    && (d.kind != MULTI_CHOICE ==> d.minSelect == None && d.maxSelect == None)
    && (d.kind != SCALE ==> d.minScaleLabel == None && d.maxScaleLabel == None)
    && forall k :: 0 <= k < |d.options.value| ==>
         match d.kind
         case SINGLE_CHOICE => d.options.value[k].isEtc.Some?
         case MULTI_CHOICE => d.options.value[k].isEtc == Some(false)
         case _ => false
  }

  /** The drafts that come back unchanged are exactly the complete ones. */
  lemma UnchangedExactlyWhenComplete(drafts: seq<Draft>, newKeys: nat -> Key, rows: seq<QuestionRow>, i: nat)
    requires i < |drafts| && multiset(rows) == multiset(Store(drafts, newKeys))
    ensures |Load(rows)| == |drafts|
    ensures Load(rows)[i] == drafts[i] <==> IsComplete(drafts[i])
  {
    hide Load, Store;
    LoadedQuestion(drafts, newKeys, rows, i);
    var d, l := drafts[i], Load(rows)[i];
    if IsComplete(d) {
      assert |d.options.value| > 0 ==> d.options.value[0] in d.options.value && IsChoiceType(d.kind);
      forall k | 0 <= k < |d.options.value|
        ensures l.options.value[k] == d.options.value[k]
      {
        var o := d.options.value[k];
        assert o.isEtc.Some? && (d.kind == MULTI_CHOICE ==> !o.isEtc.value);
        assert o.isEtc == if o.isEtc.value then Some(true) else Some(false);
      }
      assert l.options.value == d.options.value;
    }
  }

  // ---------------------------------------------------------------- changes

  datatype ChangeType = ADD_QUESTION | UPDATE_QUESTION | DELETE_QUESTION | UPDATE_OPTION

  datatype Change = Change(kind: ChangeType, target: Option<Key>, before: Option<Draft>, after: Option<Draft>)

  predicate ChangeRequiresAfter(kind: ChangeType) {
    kind != DELETE_QUESTION
  }

  /** isValidQuestionDraft, on values that already have the fields' types. */
  predicate IsValidQuestionDraft(value: Option<Draft>) {
    && value.Some? && value.value.kind != ETC && !Blank(value.value.questionText)
    && (value.value.options.Some? || !IsChoiceType(value.value.kind))
  }

  predicate HasTarget(change: Change) {
    change.target.Some? && change.target.value != ""
  }

  predicate IsMergeable(change: Change, revert: bool) {
    if change.kind == ADD_QUESTION then
      if revert then HasTarget(change) else IsValidQuestionDraft(change.after)
    else
      HasTarget(change)
      && if revert then IsValidQuestionDraft(change.before)
         else !ChangeRequiresAfter(change.kind) || IsValidQuestionDraft(change.after)
  }

  function WithId(d: Draft, id: Key): Draft {
    d.(id := Some(id))
  }

  function Without(questions: seq<Draft>, id: Key): seq<Draft> {
    if questions == [] then []
    else if questions[0].id == Some(id) then Without(questions[1..], id)
    else [questions[0]] + Without(questions[1..], id)
  }

  function Replacing(questions: seq<Draft>, id: Key, content: Draft): (r: seq<Draft>)
    ensures |r| == |questions|
  {
    seq(|questions|, i requires 0 <= i < |questions| =>
      if questions[i].id == Some(id) then WithId(content, id) else questions[i])
  }

  datatype Merged = Merged(questions: seq<Draft>, assignedId: Option<Key>, restoredId: Option<Key>)

  /** mergeChangeIntoQuestions; `newId` is the UUID an added question gets. */
  function MergeChangeIntoQuestions(questions: seq<Draft>, change: Change, revert: bool, newId: Key): Merged
    requires IsMergeable(change, revert)
  {
    match change.kind
    case ADD_QUESTION =>
      if !revert then Merged(questions + [WithId(change.after.value, newId)], Some(newId), None)
      else Merged(Without(questions, change.target.value), None, None)
    case DELETE_QUESTION =>
      if !revert then Merged(Without(questions, change.target.value), None, None)
      else Merged(questions + [WithId(change.before.value, change.target.value)], None, Some(change.target.value))
    case _ =>
      var content := if revert then change.before.value else change.after.value;
      Merged(Replacing(questions, change.target.value, content), None, None)
  }

  /** Which changes can be merged: a target unless a question is added, and content
      unless one is dropped, with a creatable type, a text that is not only spaces,
      and options if its type has them. */
  lemma MergeableExactly(change: Change, revert: bool)
    ensures var content := if revert then change.before else change.after;
            var drops := if revert then change.kind == ADD_QUESTION else change.kind == DELETE_QUESTION;
            var adds := change.kind == ADD_QUESTION && !revert;
            IsMergeable(change, revert)
            <==> && (!adds ==> change.target.Some? && change.target.value != "")
                 && (!drops ==>
                       && content.Some? && content.value.kind != ETC
                       && (exists i :: 0 <= i < |content.value.questionText| && !IsSpace(content.value.questionText[i]))
                       && ((content.value.kind == SINGLE_CHOICE || content.value.kind == MULTI_CHOICE) ==>
                             content.value.options.Some?))
  {
    hide Blank, IsSpace;
    var content := if revert then change.before else change.after;
    if content.Some? {
      BlankMeaning(content.value.questionText);
    }
  }

  /** What a merge does to the list: an added or restored question comes last, a
      dropped one goes, an updated one stays in its place; its fields are those of
      the content, under the id it is merged for. */
  lemma MergeMeaning(questions: seq<Draft>, change: Change, revert: bool, newId: Key)
    requires IsMergeable(change, revert)
    ensures var m := MergeChangeIntoQuestions(questions, change, revert, newId);
            var content := if revert then change.before else change.after;
            if change.kind == ADD_QUESTION && !revert then
              && m.questions == questions + [content.value.(id := Some(newId))]
              && m.assignedId == Some(newId) && m.restoredId == None
            else if change.kind == DELETE_QUESTION && revert then
              && m.questions == questions + [content.value.(id := change.target)]
              && m.assignedId == None && m.restoredId == change.target
            else if change.kind == ADD_QUESTION || change.kind == DELETE_QUESTION then
              && (forall d :: d in m.questions <==> d in questions && d.id != change.target)
              && m.assignedId == m.restoredId == None
            else
              && |m.questions| == |questions| && m.assignedId == m.restoredId == None
              && forall i :: 0 <= i < |questions| ==>
                   m.questions[i]
                   == if questions[i].id == change.target then content.value.(id := change.target) else questions[i]
  {
    if change.target.Some? {
      WithoutExactly(questions, change.target.value);
    }
  }

  lemma {:induction false} WithoutExactly(questions: seq<Draft>, id: Key)
    ensures forall d :: d in Without(questions, id) <==> d in questions && d.id != Some(id)
  {
    if questions != [] {
      WithoutExactly(questions[1..], id);
      assert questions == [questions[0]] + questions[1..];
    }
  }

  /** The three things a merge can do to the list. */
  datatype Op = Append(key: Key, content: Draft) | Drop(key: Key) | Replace(key: Key, content: Draft)

  function OpOf(change: Change, revert: bool, newId: Key): Op
    requires IsMergeable(change, revert)
  {
    match change.kind
    case ADD_QUESTION => if revert then Drop(change.target.value) else Append(newId, change.after.value)
    case DELETE_QUESTION =>
      if revert then Append(change.target.value, change.before.value) else Drop(change.target.value)
    case _ => Replace(change.target.value, if revert then change.before.value else change.after.value)
  }

  function ApplyOp(questions: seq<Draft>, op: Op): seq<Draft> {
    match op
    case Append(key, content) => questions + [WithId(content, key)]
    case Drop(key) => Without(questions, key)
    case Replace(key, content) => Replacing(questions, key, content)
  }

  function ApplyOps(questions: seq<Draft>, ops: seq<Op>): seq<Draft> {
    if ops == [] then questions else ApplyOp(ApplyOps(questions, ops[..|ops| - 1]), ops[|ops| - 1])
  }

  function OpsOf(changes: seq<Change>, revert: bool, newIds: seq<Key>): (ops: seq<Op>)
    requires |newIds| == |changes| && forall i :: 0 <= i < |changes| ==> IsMergeable(changes[i], revert)
    ensures |ops| == |changes|
    ensures forall i :: 0 <= i < |changes| ==> ops[i] == OpOf(changes[i], revert, newIds[i])
  {
    seq(|changes|, i requires 0 <= i < |changes| => OpOf(changes[i], revert, newIds[i]))
  }

  function IdsOf(questions: seq<Draft>): set<Key> {
    set i | 0 <= i < |questions| && questions[i].id.Some? :: questions[i].id.value
  }

  function AppendedKeys(ops: seq<Op>): set<Key> {
    set i | 0 <= i < |ops| && ops[i].Append? :: ops[i].key
  }

  /** The checks applyChanges makes before its transaction. */
  method CheckBatch(changes: seq<Change>, revert: bool) returns (ok: bool)
    ensures ok <==> forall i :: 0 <= i < |changes| ==> IsMergeable(changes[i], revert)
  {
    for i := 0 to |changes|
      invariant forall k :: 0 <= k < i ==> IsMergeable(changes[k], revert)
    {
      if !IsMergeable(changes[i], revert) {
        return false;
      }
    }
    ok := true;
  }

  /** The key each added question was given, after `i` changes. */
  ghost predicate KeysGiven(keyOf: map<nat, Key>, changes: seq<Change>, revert: bool, newIds: seq<Key>, i: nat)
    requires i <= |changes| == |newIds|
  {
    && (forall k :: k in keyOf <==> 0 <= k < i && changes[k].kind == ADD_QUESTION && !revert)
    && (forall k :: k in keyOf ==> keyOf[k] == newIds[k])
  }

  /** The loop of applyChanges: the changes are merged in turn; `existing` is
      what replaceSurveyQuestions may find, `keyOf` the key each added question
      was given. */
  method ApplyBatch(rows: seq<QuestionRow>, changes: seq<Change>, revert: bool, newIds: seq<Key>)
    returns (questions: seq<Draft>, existing: set<Key>, keyOf: map<nat, Key>)
    requires |newIds| == |changes| && forall i :: 0 <= i < |changes| ==> IsMergeable(changes[i], revert)
    ensures var ops := OpsOf(changes, revert, newIds);
            questions == ApplyOps(Load(rows), ops) && existing == IdsOf(Load(rows)) + AppendedKeys(ops)
    ensures KeysGiven(keyOf, changes, revert, newIds, |changes|)
  {
    questions := Load(rows);
    existing := IdsOf(questions);
    keyOf := map[];
    ghost var ops := OpsOf(changes, revert, newIds);
    EmptyAppends();
    assert ops[..0] == [];
    assert ApplyOps(questions, ops[..0]) == questions;
    hide ApplyOps, ApplyOp, AppendedKeys, Load, IdsOf, MergeChangeIntoQuestions, IsMergeable, OpsOf, OpOf, KeysGiven;
    assert KeysGiven(map[], changes, revert, newIds, 0) by { NoKeysGiven(changes, revert, newIds); }
    for i := 0 to |changes|
      invariant questions == ApplyOps(Load(rows), ops[..i])
      invariant existing == IdsOf(Load(rows)) + AppendedKeys(ops[..i])
      invariant KeysGiven(keyOf, changes, revert, newIds, i)
    {
      var result := MergeChangeIntoQuestions(questions, changes[i], revert, newIds[i]);
      MergeIsOp(questions, changes[i], revert, newIds[i]);
      NextOp(Load(rows), ops, i);
      NextKey(keyOf, changes, revert, newIds, i);
      questions := result.questions;
      if result.assignedId.Some? {
        existing := existing + {result.assignedId.value};
        keyOf := keyOf[i := result.assignedId.value];
      }
      if result.restoredId.Some? {
        existing := existing + {result.restoredId.value};
      }
    }
    assert ops[..|changes|] == ops;
  }

  lemma NoKeysGiven(changes: seq<Change>, revert: bool, newIds: seq<Key>)
    requires |changes| == |newIds|
    ensures KeysGiven(map[], changes, revert, newIds, 0)
  {
  }

  lemma NextKey(keyOf: map<nat, Key>, changes: seq<Change>, revert: bool, newIds: seq<Key>, i: nat)
    requires i < |changes| == |newIds| && KeysGiven(keyOf, changes, revert, newIds, i)
    ensures KeysGiven(if changes[i].kind == ADD_QUESTION && !revert then keyOf[i := newIds[i]] else keyOf,
                      changes, revert, newIds, i + 1)
  {
  }

  lemma MergeIsOp(questions: seq<Draft>, change: Change, revert: bool, newId: Key)
    requires IsMergeable(change, revert)
    ensures var m, op := MergeChangeIntoQuestions(questions, change, revert, newId), OpOf(change, revert, newId);
            && m.questions == ApplyOp(questions, op)
            && (m.assignedId.Some? <==> change.kind == ADD_QUESTION && !revert)
            && (m.assignedId.Some? ==> m.assignedId.value == newId)
            && (op.Append? <==> m.assignedId.Some? || m.restoredId.Some?)
            && (m.assignedId.Some? ==> op.key == m.assignedId.value && !m.restoredId.Some?)
            && (m.restoredId.Some? ==> op.key == m.restoredId.value)
  {
  }

  lemma NextOp(questions: seq<Draft>, ops: seq<Op>, i: nat)
    requires i < |ops|
    ensures ApplyOps(questions, ops[..i + 1]) == ApplyOp(ApplyOps(questions, ops[..i]), ops[i])
    ensures AppendedKeys(ops[..i + 1]) == AppendedKeys(ops[..i]) + (if ops[i].Append? then {ops[i].key} else {})
  {
    var longer, shorter := ops[..i + 1], ops[..i];
    assert longer[..i] == shorter;
    forall key
      ensures key in AppendedKeys(longer) <==> key in AppendedKeys(shorter) || (ops[i].Append? && key == ops[i].key)
    {
      if key in AppendedKeys(longer) {
        var k :| 0 <= k < |longer| && longer[k].Append? && longer[k].key == key;
        assert k < i ==> shorter[k] == longer[k];
      }
      if key in AppendedKeys(shorter) {
        var k :| 0 <= k < |shorter| && shorter[k].Append? && shorter[k].key == key;
        assert longer[k] == shorter[k];
      }
      assert longer[i] == ops[i];
    }
  }

  // ---------------------------------------------------------------- contents by key

  /** The question stored under a key. */
  function Lookup(questions: seq<Draft>, key: Key): Option<Draft> {
    if questions == [] then None
    else if questions[0].id == Some(key) then Some(questions[0])
    else Lookup(questions[1..], key)
  }

  ghost predicate DistinctIds(questions: seq<Draft>) {
    forall i, j :: 0 <= i < j < |questions| ==> questions[i].id != questions[j].id
  }

  lemma {:induction false} LookupOfConcat(a: seq<Draft>, b: seq<Draft>, key: Key)
    ensures Lookup(a + b, key) == if Lookup(a, key) == None then Lookup(b, key) else Lookup(a, key)
  {
    if a == [] {
      assert a + b == b;
    } else {
      assert (a + b)[0] == a[0] && (a + b)[1..] == a[1..] + b;
      LookupOfConcat(a[1..], b, key);
    }
  }

  lemma {:induction false} LookupOfWithout(questions: seq<Draft>, id: Key, key: Key)
    ensures Lookup(Without(questions, id), key) == if key == id then None else Lookup(questions, key)
  {
    if questions != [] {
      LookupOfWithout(questions[1..], id, key);
    }
  }

  lemma {:induction false} LookupOfReplacing(questions: seq<Draft>, id: Key, content: Draft, key: Key)
    ensures Lookup(Replacing(questions, id, content), key)
         == if key == id && Lookup(questions, key) != None then Some(WithId(content, id)) else Lookup(questions, key)
  {
    if questions != [] {
      assert Replacing(questions, id, content)[1..] == Replacing(questions[1..], id, content);
      LookupOfReplacing(questions[1..], id, content, key);
    }
  }

  lemma {:induction false} LookupOfNormalized(questions: seq<Draft>, key: Key)
    requires forall i :: 0 <= i < |questions| ==> questions[i].id.Some?
    ensures Lookup(NormalizeAll(questions), key)
         == if Lookup(questions, key) == None then None else Some(Normalize(Lookup(questions, key).value))
  {
    if questions != [] {
      assert NormalizeAll(questions)[1..] == NormalizeAll(questions[1..]);
      LookupOfNormalized(questions[1..], key);
    }
  }

  /** What an op makes of the question under its own key. */
  function Effect(op: Op, present: Option<Draft>): Option<Draft> {
    match op
    case Append(key, content) => Some(WithId(content, key))
    case Drop(_) => None
    case Replace(key, content) => if present == None then None else Some(WithId(content, key))
  }

  lemma LookupOfOp(questions: seq<Draft>, op: Op, key: Key)
    requires op.Append? ==> Lookup(questions, op.key) == None
    ensures Lookup(ApplyOp(questions, op), key)
         == if key == op.key then Effect(op, Lookup(questions, key)) else Lookup(questions, key)
  {
    hide Lookup, Without;
    match op {
      case Append(k, content) =>
        LookupOfConcat(questions, [WithId(content, k)], key);
        LookupOfOne(WithId(content, k), key);
      case Drop(k) => LookupOfWithout(questions, k, key);
      case Replace(k, content) => LookupOfReplacing(questions, k, content, key);
    }
  }

  lemma LookupOfOne(d: Draft, key: Key)
    ensures Lookup([d], key) == if d.id == Some(key) then Some(d) else None
  {
    assert Lookup([], key) == None;
  }

  ghost predicate DistinctKeys(ops: seq<Op>) {
    forall i, j :: 0 <= i < j < |ops| ==> ops[i].key != ops[j].key
  }

  /** New and restored questions do not collide with ones that are there. */
  ghost predicate AppendsAreFree(questions: seq<Draft>, ops: seq<Op>) {
    forall i :: 0 <= i < |ops| && ops[i].Append? ==> Lookup(questions, ops[i].key) == None
  }

  /** Ops with distinct keys act on their own keys only, each as if alone. */
  lemma {:induction false} LookupOfOps(questions: seq<Draft>, ops: seq<Op>, key: Key)
    requires DistinctKeys(ops) && AppendsAreFree(questions, ops)
    ensures (forall i :: 0 <= i < |ops| ==> ops[i].key != key) ==>
              Lookup(ApplyOps(questions, ops), key) == Lookup(questions, key)
    ensures forall i :: 0 <= i < |ops| && ops[i].key == key ==>
              Lookup(ApplyOps(questions, ops), key) == Effect(ops[i], Lookup(questions, key))
    decreases |ops|
  {
    hide Lookup, ApplyOp, Effect;
    if ops != [] {
      var n := |ops| - 1;
      var front, last := ops[..n], ops[n];
      assert forall i :: 0 <= i < n ==> front[i] == ops[i];
      LookupOfOps(questions, front, key);
      LookupOfOps(questions, front, last.key);
      LookupOfOp(ApplyOps(questions, front), last, key);
    }
  }

  lemma {:induction false} LookupFinds(questions: seq<Draft>, i: nat)
    requires i < |questions| && questions[i].id.Some?
    ensures Lookup(questions, questions[i].id.value) != None
    ensures DistinctIds(questions) ==> Lookup(questions, questions[i].id.value) == Some(questions[i])
  {
    if i > 0 {
      LookupFinds(questions[1..], i - 1);
      assert questions[1..][i - 1] == questions[i];
    }
  }

  lemma {:induction false} LookupIsThere(questions: seq<Draft>, key: Key)
    ensures Lookup(questions, key) != None ==>
              Lookup(questions, key).value in questions && Lookup(questions, key).value.id == Some(key)
  {
    if questions != [] && questions[0].id != Some(key) {
      LookupIsThere(questions[1..], key);
    }
  }

  // ---------------------------------------------------------------- ids

  ghost predicate Identified(questions: seq<Draft>) {
    DistinctIds(questions) && forall i :: 0 <= i < |questions| ==> questions[i].id.Some?
  }

  lemma {:induction false} WithoutIsSubset(questions: seq<Draft>, id: Key)
    ensures forall d :: d in Without(questions, id) ==> d in questions && d.id != Some(id)
    ensures Identified(questions) ==> Identified(Without(questions, id))
  {
    if questions != [] {
      WithoutIsSubset(questions[1..], id);
      if Identified(questions) {
        assert Identified(questions[1..]);
        assert forall d :: d in questions[1..] ==> d.id != questions[0].id;
      }
    }
  }

  lemma OpKeepsIds(questions: seq<Draft>, op: Op)
    requires Identified(questions) && (op.Append? ==> Lookup(questions, op.key) == None)
    ensures Identified(ApplyOp(questions, op))
    ensures IdsOf(ApplyOp(questions, op)) <= IdsOf(questions) + (if op.Append? then {op.key} else {})
  {
    match op {
      case Append(key, content) =>
        forall i | 0 <= i < |questions|
          ensures questions[i].id != Some(key)
        {
          LookupFinds(questions, i);
        }
      case Drop(key) =>
        WithoutIsSubset(questions, key);
        var left := Without(questions, key);
        forall i | 0 <= i < |left|
          ensures left[i].id.value in IdsOf(questions)
        {
          assert left[i] in questions;
        }
      case Replace(key, content) =>
        var r := Replacing(questions, key, content);
        assert forall i :: 0 <= i < |questions| ==> r[i].id == questions[i].id;
        assert forall i :: 0 <= i < |questions| ==> questions[i].id.value in IdsOf(questions);
    }
  }

  /** A batch leaves every question with an id of its own that
      replaceSurveyQuestions knows. */
  lemma {:induction false} BatchIsAccepted(questions: seq<Draft>, ops: seq<Op>)
    requires Identified(questions) && DistinctKeys(ops) && AppendsAreFree(questions, ops)
    ensures Identified(ApplyOps(questions, ops))
    ensures IdsOf(ApplyOps(questions, ops)) <= IdsOf(questions) + AppendedKeys(ops)
    ensures KnownIds(ApplyOps(questions, ops), IdsOf(questions) + AppendedKeys(ops))
    decreases |ops|
  {
    hide Lookup, ApplyOp, Identified, AppendedKeys;
    if ops != [] {
      var n := |ops| - 1;
      var front := ops[..n];
      assert forall i :: 0 <= i < n ==> front[i] == ops[i];
      BatchIsAccepted(questions, front);
      LookupOfOps(questions, front, ops[n].key);
      OpKeepsIds(ApplyOps(questions, front), ops[n]);
      NextOp(questions, ops, n);
      assert ops[..n + 1] == ops;
    } else {
      EmptyAppends();
    }
    var all := ApplyOps(questions, ops);
    IdsAreListed(all);
  }

  lemma IdentifiedIsStorable(questions: seq<Draft>, newKeys: nat -> Key)
    requires Identified(questions)
    ensures DistinctStableKeys(Store(questions, newKeys))
  {
  }

  /** So replaceSurveyQuestions stores what a batch makes of the questions. */
  lemma BatchIsStored(questions: seq<Draft>, ops: seq<Op>, newKeys: nat -> Key)
    requires Identified(questions) && DistinctKeys(ops) && AppendsAreFree(questions, ops)
    ensures KnownIds(ApplyOps(questions, ops), IdsOf(questions) + AppendedKeys(ops))
    ensures DistinctStableKeys(Store(ApplyOps(questions, ops), newKeys))
  {
    hide Identified, Store, ApplyOps, KnownIds, DistinctStableKeys;
    BatchIsAccepted(questions, ops);
    IdentifiedIsStorable(ApplyOps(questions, ops), newKeys);
  }

  lemma EmptyAppends()
    ensures AppendedKeys([]) == {}
  {
  }

  lemma IdsAreListed(questions: seq<Draft>)
    ensures forall i :: 0 <= i < |questions| && questions[i].id.Some? ==> questions[i].id.value in IdsOf(questions)
  {
  }

  // ---------------------------------------------------------------- undo

  /** The op that reverting a change performs. */
  ghost predicate Undoes(undo: Op, op: Op) {
    && undo.key == op.key
    && match op
       case Append(_, _) => undo.Drop?
       case Drop(_) => undo.Append?
       case Replace(_, _) => undo.Replace?
  }

  ghost predicate IsUndone(undos: seq<Op>, op: Op) {
    exists j :: 0 <= j < |undos| && Undoes(undos[j], op)
  }

  ghost predicate UndoesOne(undo: Op, ops: seq<Op>) {
    exists i :: 0 <= i < |ops| && Undoes(undo, ops[i])
  }

  /** `undos` reverts each of `ops` once, in whatever order. */
  ghost predicate UndoesAll(undos: seq<Op>, ops: seq<Op>) {
    && |undos| == |ops| && DistinctKeys(undos)
    && (forall i :: 0 <= i < |ops| ==> IsUndone(undos, ops[i]))
    && (forall j :: 0 <= j < |undos| ==> UndoesOne(undos[j], ops))
  }

  /** Every op is about a key of its own, and added questions get new keys. */
  ghost predicate Fits(questions: seq<Draft>, ops: seq<Op>) {
    DistinctKeys(ops) && AppendsAreFree(questions, ops)
  }

  /** The snapshot an undo puts back. */
  function Snapshot(undo: Op): Option<Draft> {
    if undo.Drop? then None else Some(Normalize(WithId(undo.content, undo.key)))
  }

  lemma AppliedListFitsUndos(questions: seq<Draft>, ops: seq<Op>, undos: seq<Op>)
    requires Identified(questions) && Fits(questions, ops) && UndoesAll(undos, ops)
    ensures AppendsAreFree(NormalizeAll(ApplyOps(questions, ops)), undos)
  {
    hide Lookup, Normalize, ApplyOps, Identified;
    BatchIsAccepted(questions, ops);
    IdentifiedHasIds(ApplyOps(questions, ops));
    forall j | 0 <= j < |undos| && undos[j].Append?
      ensures Lookup(NormalizeAll(ApplyOps(questions, ops)), undos[j].key) == None
    {
      var i :| 0 <= i < |ops| && Undoes(undos[j], ops[i]);
      LookupOfOps(questions, ops, ops[i].key);
      LookupOfNormalized(ApplyOps(questions, ops), ops[i].key);
    }
  }

  lemma IdentifiedHasIds(questions: seq<Draft>)
    requires Identified(questions)
    ensures forall i :: 0 <= i < |questions| ==> questions[i].id.Some?
  {
  }

  lemma {:induction false} NormalizeKeepsIds(questions: seq<Draft>)
    requires Identified(questions)
    ensures Identified(NormalizeAll(questions)) && IdsOf(NormalizeAll(questions)) == IdsOf(questions)
  {
    assert forall i :: 0 <= i < |questions| ==> NormalizeAll(questions)[i].id == questions[i].id;
  }

  /** The list after applying, saving, reloading, reverting, saving and reloading. */
  function ApplyThenRevert(questions: seq<Draft>, ops: seq<Op>, undos: seq<Op>): seq<Draft> {
    NormalizeAll(ApplyOps(NormalizeAll(ApplyOps(questions, ops)), undos))
  }

  lemma BothBatchesFit(questions: seq<Draft>, ops: seq<Op>, undos: seq<Op>)
    requires Identified(questions) && Fits(questions, ops) && UndoesAll(undos, ops)
    ensures var once := ApplyOps(questions, ops);
            var applied := NormalizeAll(once);
            && Identified(once) && Identified(applied) && AppendsAreFree(applied, undos)
            && Identified(ApplyOps(applied, undos)) && Identified(ApplyThenRevert(questions, ops, undos))
  {
    hide Lookup, Normalize, ApplyOps, Identified, NormalizeAll;
    var once := ApplyOps(questions, ops);
    BatchIsAccepted(questions, ops);
    NormalizeKeepsIds(once);
    AppliedListFitsUndos(questions, ops, undos);
    BatchIsAccepted(NormalizeAll(once), undos);
    NormalizeKeepsIds(ApplyOps(NormalizeAll(once), undos));
  }

  /** A key that no change is about holds what it held. */
  lemma OtherKeysAreKept(questions: seq<Draft>, ops: seq<Op>, undos: seq<Op>, key: Key)
    requires Identified(questions) && Fits(questions, ops) && UndoesAll(undos, ops)
    requires forall d :: d in questions ==> Normalize(d) == d
    requires forall i :: 0 <= i < |ops| ==> ops[i].key != key
    ensures Lookup(ApplyThenRevert(questions, ops, undos), key) == Lookup(questions, key)
  {
    hide Lookup, Normalize, ApplyOps, Identified, NormalizeAll;
    BothBatchesFit(questions, ops, undos);
    var once := ApplyOps(questions, ops);
    var twice := ApplyOps(NormalizeAll(once), undos);
    IdentifiedHasIds(once);
    IdentifiedHasIds(twice);
    forall j | 0 <= j < |undos|
      ensures undos[j].key != key
    {
      var i :| 0 <= i < |ops| && Undoes(undos[j], ops[i]);
    }
    LookupOfOps(questions, ops, key);
    LookupOfNormalized(once, key);
    LookupOfOps(NormalizeAll(once), undos, key);
    LookupOfNormalized(twice, key);
    LookupIsThere(questions, key);
  }

  /** A question that is gone stays gone when an update of it is reverted. */
  predicate StaysGone(questions: seq<Draft>, undo: Op) {
    undo.Replace? && Lookup(questions, undo.key) == None
  }

  /** A reverted key holds its snapshot, however old that is. */
  lemma RevertedKeyHoldsSnapshot(questions: seq<Draft>, ops: seq<Op>, undos: seq<Op>, j: nat)
    requires Identified(questions) && Fits(questions, ops) && UndoesAll(undos, ops) && j < |undos|
    ensures Lookup(ApplyThenRevert(questions, ops, undos), undos[j].key)
         == if StaysGone(questions, undos[j]) then None else Snapshot(undos[j])
  {
    hide Lookup, Normalize, ApplyOps, Identified, NormalizeAll;
    BothBatchesFit(questions, ops, undos);
    var once := ApplyOps(questions, ops);
    var twice := ApplyOps(NormalizeAll(once), undos);
    IdentifiedHasIds(once);
    IdentifiedHasIds(twice);
    var i :| 0 <= i < |ops| && Undoes(undos[j], ops[i]);
    var key := undos[j].key;
    LookupOfOps(questions, ops, key);
    LookupOfNormalized(once, key);
    LookupOfOps(NormalizeAll(once), undos, key);
    LookupOfNormalized(twice, key);
    assert Lookup(once, key) == Effect(ops[i], Lookup(questions, key));
    assert Lookup(twice, key) == Effect(undos[j], Lookup(NormalizeAll(once), key));
  }

  /** The undo of a change puts back what is stored now. */
  predicate PutsBack(questions: seq<Draft>, undo: Op) {
    StaysGone(questions, undo) || Lookup(questions, undo.key) == Snapshot(undo)
  }

  lemma KeyIsRestored(questions: seq<Draft>, ops: seq<Op>, undos: seq<Op>, key: Key)
    requires Identified(questions) && Fits(questions, ops) && UndoesAll(undos, ops)
    requires forall d :: d in questions ==> Normalize(d) == d
    requires forall j :: 0 <= j < |undos| ==> PutsBack(questions, undos[j])
    ensures Lookup(ApplyThenRevert(questions, ops, undos), key) == Lookup(questions, key)
  {
    hide Lookup, Normalize, ApplyThenRevert, Identified, AppendsAreFree;
    if i :| 0 <= i < |ops| && ops[i].key == key {
      var j :| 0 <= j < |undos| && Undoes(undos[j], ops[i]);
      RevertedKeyHoldsSnapshot(questions, ops, undos, j);
    } else {
      OtherKeysAreKept(questions, ops, undos, key);
    }
  }

  /** Revert undoes apply exactly when every undo puts back what was stored
      before the batch: nothing compares a snapshot with the question it is
      about, so an older one overwrites what was edited since. */
  lemma RevertUndoesApply(questions: seq<Draft>, ops: seq<Op>, undos: seq<Op>)
    requires Identified(questions) && Fits(questions, ops) && UndoesAll(undos, ops)
    requires forall d :: d in questions ==> Normalize(d) == d
    ensures (forall key :: Lookup(ApplyThenRevert(questions, ops, undos), key) == Lookup(questions, key))
       <==> forall j :: 0 <= j < |undos| ==> PutsBack(questions, undos[j])
  {
    hide Lookup, Normalize, ApplyThenRevert, Identified, Fits, UndoesAll, Snapshot;
    if forall j :: 0 <= j < |undos| ==> PutsBack(questions, undos[j]) {
      forall key
        ensures Lookup(ApplyThenRevert(questions, ops, undos), key) == Lookup(questions, key)
      {
        KeyIsRestored(questions, ops, undos, key);
      }
    } else {
      var j :| 0 <= j < |undos| && !PutsBack(questions, undos[j]);
      RevertedKeyHoldsSnapshot(questions, ops, undos, j);
    }
  }

  // ---------------------------------------------------------------- order

  /** The ids of a list, in order, leaving out `moved`. */
  function StayingIds(questions: seq<Draft>, moved: set<Key>): seq<Key> {
    if questions == [] then []
    else if questions[0].id.Some? && questions[0].id.value !in moved
    then [questions[0].id.value] + StayingIds(questions[1..], moved)
    else StayingIds(questions[1..], moved)
  }

  /** The keys that a batch adds or deletes. */
  function MovedKeys(ops: seq<Op>): set<Key> {
    set i | 0 <= i < |ops| && !ops[i].Replace? :: ops[i].key
  }

  lemma {:induction false} StayingOfConcat(a: seq<Draft>, b: seq<Draft>, moved: set<Key>)
    ensures StayingIds(a + b, moved) == StayingIds(a, moved) + StayingIds(b, moved)
  {
    if a == [] {
      assert a + b == b;
    } else {
      assert (a + b)[0] == a[0] && (a + b)[1..] == a[1..] + b;
      StayingOfConcat(a[1..], b, moved);
    }
  }

  lemma {:induction false} StayingOfWithout(questions: seq<Draft>, id: Key, moved: set<Key>)
    requires id in moved
    ensures StayingIds(Without(questions, id), moved) == StayingIds(questions, moved)
  {
    if questions != [] {
      StayingOfWithout(questions[1..], id, moved);
    }
  }

  lemma {:induction false} StayingOfSameIds(a: seq<Draft>, b: seq<Draft>, moved: set<Key>)
    requires |a| == |b| && forall i :: 0 <= i < |a| ==> a[i].id == b[i].id
    ensures StayingIds(a, moved) == StayingIds(b, moved)
  {
    if a != [] {
      StayingOfSameIds(a[1..], b[1..], moved);
    }
  }

  lemma {:induction false} OpsKeepOrder(questions: seq<Draft>, ops: seq<Op>, moved: set<Key>)
    requires forall i :: 0 <= i < |ops| && !ops[i].Replace? ==> ops[i].key in moved
    ensures StayingIds(ApplyOps(questions, ops), moved) == StayingIds(questions, moved)
    decreases |ops|
  {
    if ops != [] {
      var n := |ops| - 1;
      var before, op := ApplyOps(questions, ops[..n]), ops[n];
      OpsKeepOrder(questions, ops[..n], moved);
      match op {
        case Append(key, content) =>
          StayingOfConcat(before, [WithId(content, key)], moved);
          assert StayingIds([WithId(content, key)], moved) == StayingIds([], moved);
        case Drop(key) => StayingOfWithout(before, key, moved);
        case Replace(key, content) => StayingOfSameIds(Replacing(before, key, content), before, moved);
      }
    }
  }

  /** Applying and reverting keeps the questions that were neither added nor
      deleted in their order. */
  lemma UndeletedQuestionsKeepOrder(questions: seq<Draft>, ops: seq<Op>, undos: seq<Op>)
    requires Identified(questions) && Fits(questions, ops) && UndoesAll(undos, ops)
    ensures StayingIds(ApplyThenRevert(questions, ops, undos), MovedKeys(ops)) == StayingIds(questions, MovedKeys(ops))
  {
    hide StayingIds, Normalize, ApplyOps, Lookup, Identified;
    var moved := MovedKeys(ops);
    BothBatchesFit(questions, ops, undos);
    var once := ApplyOps(questions, ops);
    var twice := ApplyOps(NormalizeAll(once), undos);
    NormalizedIds(once);
    NormalizedIds(twice);
    forall j | 0 <= j < |undos| && !undos[j].Replace?
      ensures undos[j].key in moved
    {
      var i :| 0 <= i < |ops| && Undoes(undos[j], ops[i]);
    }
    OpsKeepOrder(questions, ops, moved);
    StayingOfSameIds(NormalizeAll(once), once, moved);
    OpsKeepOrder(NormalizeAll(once), undos, moved);
    StayingOfSameIds(NormalizeAll(twice), twice, moved);
  }

  /** So two questions that stay are never exchanged. */
  lemma StayingPairsKeepOrder(questions: seq<Draft>, ops: seq<Op>, undos: seq<Op>, i: nat, j: nat)
    requires Identified(questions) && Fits(questions, ops) && UndoesAll(undos, ops) && i < j < |questions|
    requires forall k :: 0 <= k < |ops| && !ops[k].Replace? ==>
               questions[i].id != Some(ops[k].key) && questions[j].id != Some(ops[k].key)
    ensures var after := ApplyThenRevert(questions, ops, undos);
            exists x, y :: 0 <= x < y < |after| && after[x].id == questions[i].id && after[y].id == questions[j].id
  {
    UndeletedQuestionsKeepOrder(questions, ops, undos);
    var moved := MovedKeys(ops);
    assert questions[i].id.Some? && questions[j].id.Some?;
    var a, b := questions[i].id.value, questions[j].id.value;
    hide Identified, Fits, UndoesAll, ApplyThenRevert, StayingIds;
    var x, y := StayingPair(questions, moved, i, j);
    var p, q := StayingFrom(ApplyThenRevert(questions, ops, undos), moved, x, y);
  }

  /** Where two staying questions stand among the staying ids. */
  lemma {:induction false} StayingPair(questions: seq<Draft>, moved: set<Key>, i: nat, j: nat) returns (x: nat, y: nat)
    requires i < j < |questions| && questions[i].id.Some? && questions[j].id.Some?
    requires questions[i].id.value !in moved && questions[j].id.value !in moved
    ensures x < y < |StayingIds(questions, moved)|
    ensures StayingIds(questions, moved)[x] == questions[i].id.value
    ensures StayingIds(questions, moved)[y] == questions[j].id.value
  {
    var here := if questions[0].id.Some? && questions[0].id.value !in moved then 1 else 0;
    if i == 0 {
      x := 0;
      var z := StayingOne(questions[1..], moved, j - 1);
      y := z + 1;
    } else {
      var u, v := StayingPair(questions[1..], moved, i - 1, j - 1);
      x, y := u + here, v + here;
    }
  }

  lemma {:induction false} StayingOne(questions: seq<Draft>, moved: set<Key>, j: nat) returns (y: nat)
    requires j < |questions| && questions[j].id.Some? && questions[j].id.value !in moved
    ensures y < |StayingIds(questions, moved)| && StayingIds(questions, moved)[y] == questions[j].id.value
  {
    if j == 0 {
      y := 0;
    } else {
      var z := StayingOne(questions[1..], moved, j - 1);
      y := z + if questions[0].id.Some? && questions[0].id.value !in moved then 1 else 0;
    }
  }

  /** ... and the questions two staying ids come from. */
  lemma {:induction false} StayingFrom(questions: seq<Draft>, moved: set<Key>, x: nat, y: nat) returns (i: nat, j: nat)
    requires x < y < |StayingIds(questions, moved)|
    ensures i < j < |questions|
    ensures questions[i].id == Some(StayingIds(questions, moved)[x])
    ensures questions[j].id == Some(StayingIds(questions, moved)[y])
  {
    if questions[0].id.Some? && questions[0].id.value !in moved {
      if x == 0 {
        i := 0;
        var z := OneFrom(questions[1..], moved, y - 1);
        j := z + 1;
      } else {
        var u, v := StayingFrom(questions[1..], moved, x - 1, y - 1);
        i, j := u + 1, v + 1;
      }
    } else {
      var u, v := StayingFrom(questions[1..], moved, x, y);
      i, j := u + 1, v + 1;
    }
  }

  lemma {:induction false} OneFrom(questions: seq<Draft>, moved: set<Key>, y: nat) returns (j: nat)
    requires y < |StayingIds(questions, moved)|
    ensures j < |questions| && questions[j].id == Some(StayingIds(questions, moved)[y])
  {
    if questions[0].id.Some? && questions[0].id.value !in moved {
      if y == 0 {
        j := 0;
      } else {
        var z := OneFrom(questions[1..], moved, y - 1);
        j := z + 1;
      }
    } else {
      var z := OneFrom(questions[1..], moved, y);
      j := z + 1;
    }
  }

  lemma NormalizedIds(questions: seq<Draft>)
    requires Identified(questions)
    ensures forall i :: 0 <= i < |questions| ==> NormalizeAll(questions)[i].id == questions[i].id
  {
  }

  // ---------------------------------------------------------------- the changes of a batch

  /** The change row after it was applied: an added question's key is recorded. */
  function Applied(change: Change, newId: Key): Change {
    if change.kind == ADD_QUESTION && change.after.Some?
    then change.(target := Some(newId), after := Some(WithId(change.after.value, newId))) else change
  }

  /** What is recorded: the key of an added question, in both columns, and nothing
      else. */
  lemma AppliedChangeRecordsKey(change: Change, newId: Key)
    requires IsMergeable(change, false)
    ensures var a := Applied(change, newId);
            && a.kind == change.kind && a.before == change.before
            && (change.kind != ADD_QUESTION ==> a == change)
            && (change.kind == ADD_QUESTION ==>
                  && a.target == Some(newId) && a.after.Some? && a.after.value.id == Some(newId)
                  && a.after.value == change.after.value.(id := Some(newId)))
  {
  }

  /** An applied change can be reverted exactly when the text of the question it
      overwrote or deleted was not blank: a snapshot of stored questions passes
      every other check. */
  lemma RevertibleExactlyWhenNotBlank(change: Change, newId: Key, q: QuestionRow)
    requires IsMergeable(change, false) && newId != ""
    requires change.before == Some(ToQuestionDraft(q)) && q.kind != ETC
    ensures IsMergeable(Applied(change, newId), true) <==> change.kind == ADD_QUESTION || !Blank(q.questionText)
  {
  }

  /** A batch that can be applied and reverted: each change is about a question
      of its own, and added ones get unused keys. */
  ghost predicate ProperBatch(rows: seq<QuestionRow>, changes: seq<Change>, newIds: seq<Key>) {
    && |newIds| == |changes|
    && (forall i :: 0 <= i < |changes| ==>
          && IsMergeable(changes[i], false) && IsMergeable(Applied(changes[i], newIds[i]), true)
          && (changes[i].kind == ADD_QUESTION ==> Lookup(Load(rows), newIds[i]) == None))
    && DistinctKeys(OpsOf(changes, false, newIds))
  }

  /** The question a change is about is still as it was when the change was
      proposed; for an update it may also be gone. */
  predicate StillCurrent(questions: seq<Draft>, change: Change) {
    || change.kind == ADD_QUESTION
    || (&& change.target.Some? && change.before.Some?
        && var present := Lookup(questions, change.target.value);
           || (change.kind != DELETE_QUESTION && present == None)
           || present == Some(Normalize(WithId(change.before.value, change.target.value))))
  }

  /** `reverted` lists the applied changes in the order `order` gives. */
  ghost predicate Reorders(reverted: seq<Change>, changes: seq<Change>, newIds: seq<Key>, order: seq<nat>) {
    && |newIds| == |changes| == |order| == |reverted|
    && (forall j :: 0 <= j < |order| ==>
         order[j] < |changes| && reverted[j] == Applied(changes[order[j]], newIds[order[j]]))
    && (forall i, j :: 0 <= i < j < |order| ==> order[i] != order[j])
    && (forall i :: 0 <= i < |changes| ==> i in order)
  }

  lemma ProperBatchFits(rows: seq<QuestionRow>, changes: seq<Change>, newIds: seq<Key>)
    requires ProperBatch(rows, changes, newIds)
    ensures Fits(Load(rows), OpsOf(changes, false, newIds))
  {
    hide Load, Lookup;
  }

  /** Reverting an applied change undoes what applying it did, and puts back what
      is stored exactly when the change is still current. */
  lemma RevertedOp(questions: seq<Draft>, change: Change, newId: Key, other: Key)
    requires IsMergeable(change, false) && IsMergeable(Applied(change, newId), true)
    requires change.kind == ADD_QUESTION ==> Lookup(questions, newId) == None
    ensures var undo := OpOf(Applied(change, newId), true, other);
            && Undoes(undo, OpOf(change, false, newId))
            && (PutsBack(questions, undo) <==> StillCurrent(questions, change))
  {
    hide Lookup, Blank, Normalize;
  }

  /** Reverting the applied changes, in any order, undoes them all, and puts back
      what is stored exactly when every change is still current. */
  lemma RevertingUndoesAll(rows: seq<QuestionRow>, changes: seq<Change>, newIds: seq<Key>,
                           reverted: seq<Change>, order: seq<nat>, others: seq<Key>)
    requires ProperBatch(rows, changes, newIds) && Reorders(reverted, changes, newIds, order) && |others| == |reverted|
    ensures forall j :: 0 <= j < |reverted| ==> IsMergeable(reverted[j], true)
    ensures var undos := OpsOf(reverted, true, others);
            && UndoesAll(undos, OpsOf(changes, false, newIds))
            && ((forall j :: 0 <= j < |undos| ==> PutsBack(Load(rows), undos[j]))
                <==> forall i :: 0 <= i < |changes| ==> StillCurrent(Load(rows), changes[i]))
  {
    hide Load, Lookup, IsMergeable, OpsOf, OpOf, Undoes, DistinctKeys, Applied, PutsBack, StillCurrent, UndoesAll;
    assert forall j :: 0 <= j < |reverted| ==> IsMergeable(reverted[j], true);
    var ops, undos := OpsOf(changes, false, newIds), OpsOf(reverted, true, others);
    forall j | 0 <= j < |undos|
      ensures Undoes(undos[j], ops[order[j]])
      ensures PutsBack(Load(rows), undos[j]) <==> StillCurrent(Load(rows), changes[order[j]])
    {
      RevertedOp(Load(rows), changes[order[j]], newIds[order[j]], others[j]);
    }
    UndosInOrder(undos, ops, order);
    AllAreCurrent(Load(rows), changes, undos, order);
  }

  lemma AllAreCurrent(questions: seq<Draft>, changes: seq<Change>, undos: seq<Op>, order: seq<nat>)
    requires |undos| == |order| && forall i :: 0 <= i < |changes| ==> i in order
    requires forall j :: 0 <= j < |order| ==>
               order[j] < |changes| && (PutsBack(questions, undos[j]) <==> StillCurrent(questions, changes[order[j]]))
    ensures (forall j :: 0 <= j < |undos| ==> PutsBack(questions, undos[j]))
       <==> forall i :: 0 <= i < |changes| ==> StillCurrent(questions, changes[i])
  {
    hide PutsBack, StillCurrent;
    if forall j :: 0 <= j < |undos| ==> PutsBack(questions, undos[j]) {
      forall i | 0 <= i < |changes|
        ensures StillCurrent(questions, changes[i])
      {
        assert i in order;
        var j :| 0 <= j < |order| && order[j] == i;
        assert PutsBack(questions, undos[j]);
      }
    }
  }

  /** Undos listed in some order of the ops undo them all. */
  lemma UndosInOrder(undos: seq<Op>, ops: seq<Op>, order: seq<nat>)
    requires |undos| == |ops| == |order| && DistinctKeys(ops)
    requires forall j :: 0 <= j < |order| ==> order[j] < |ops| && Undoes(undos[j], ops[order[j]])
    requires forall i, j :: 0 <= i < j < |order| ==> order[i] != order[j]
    requires forall i :: 0 <= i < |ops| ==> i in order
    ensures UndoesAll(undos, ops)
  {
    hide Undoes;
    forall i | 0 <= i < |ops|
      ensures IsUndone(undos, ops[i])
    {
      assert i in order;
      var j :| 0 <= j < |order| && order[j] == i;
    }
    forall j | 0 <= j < |undos|
      ensures UndoesOne(undos[j], ops)
    {
    }
    forall i, j | 0 <= i < j < |undos|
      ensures undos[i].key != undos[j].key
    {
      UndoHasKey(undos[i], ops[order[i]]);
      UndoHasKey(undos[j], ops[order[j]]);
    }
  }

  lemma UndoHasKey(undo: Op, op: Op)
    requires Undoes(undo, op)
    ensures undo.key == op.key
  {
  }

  lemma StoredDraftsAreNormal(rows: seq<QuestionRow>)
    requires NormalForm(rows)
    ensures forall d :: d in Load(rows) ==> Normalize(d) == d
  {
    forall d | d in Load(rows)
      ensures Normalize(d) == d
    {
      var i :| 0 <= i < |Load(rows)| && Load(rows)[i] == d;
      LoadedDraftsAreNormal(rows, i);
    }
  }

  /** The whole round trip on stored rows: apply a batch, store it, read it back
      in any order, revert the batch in any order, store and read again.  Every
      question holds what it held, under the key it had, exactly when every
      change was still current; the questions that were neither added nor deleted
      are in their old order. */
  lemma ApplyThenRevertRestoresSurvey(rows: seq<QuestionRow>, changes: seq<Change>, newIds: seq<Key>,
                                      applied: seq<QuestionRow>, reverted: seq<Change>, order: seq<nat>,
                                      others: seq<Key>, after: seq<QuestionRow>, newKeys: nat -> Key)
    requires NormalForm(rows) && Identified(Load(rows)) && ProperBatch(rows, changes, newIds)
    requires multiset(applied) == multiset(Store(ApplyOps(Load(rows), OpsOf(changes, false, newIds)), newKeys))
    requires Reorders(reverted, changes, newIds, order) && |others| == |reverted|
    requires forall j :: 0 <= j < |reverted| ==> IsMergeable(reverted[j], true)
    requires multiset(after) == multiset(Store(ApplyOps(Load(applied), OpsOf(reverted, true, others)), newKeys))
    ensures (forall key :: Lookup(Load(after), key) == Lookup(Load(rows), key))
       <==> forall i :: 0 <= i < |changes| ==> StillCurrent(Load(rows), changes[i])
    ensures var moved := MovedKeys(OpsOf(changes, false, newIds));
            StayingIds(Load(after), moved) == StayingIds(Load(rows), moved)
  {
    hide Load, Lookup, Store, ApplyOps, OpsOf, IsMergeable, Identified, NormalForm, NormalizeAll, StayingIds,
         MovedKeys, UndoesAll, Fits, Normalize, PutsBack, StillCurrent;
    var questions, ops, undos := Load(rows), OpsOf(changes, false, newIds), OpsOf(reverted, true, others);
    ProperBatchFits(rows, changes, newIds);
    RevertingUndoesAll(rows, changes, newIds, reverted, order, others);
    BothBatchesFit(questions, ops, undos);
    StoredDraftsAreNormal(rows);
    IdentifiedHasIds(ApplyOps(questions, ops));
    LoadOfStore(ApplyOps(questions, ops), newKeys, applied);
    IdentifiedHasIds(ApplyOps(Load(applied), undos));
    LoadOfStore(ApplyOps(Load(applied), undos), newKeys, after);
    RevertUndoesApply(questions, ops, undos);
    UndeletedQuestionsKeepOrder(questions, ops, undos);
  }

  /** replaceSurveyQuestions accepts a list of drafts. */
  ghost predicate Storable(drafts: seq<Draft>, existing: set<Key>, newKeys: nat -> Key) {
    KnownIds(drafts, existing) && DistinctStableKeys(Store(drafts, newKeys))
  }

  /** Neither the batch nor its revert is turned down when it is stored. */
  lemma BothBatchesAreStored(rows: seq<QuestionRow>, changes: seq<Change>, newIds: seq<Key>,
                             applied: seq<QuestionRow>, reverted: seq<Change>, order: seq<nat>,
                             others: seq<Key>, newKeys: nat -> Key)
    requires Identified(Load(rows)) && ProperBatch(rows, changes, newIds)
    requires multiset(applied) == multiset(Store(ApplyOps(Load(rows), OpsOf(changes, false, newIds)), newKeys))
    requires Reorders(reverted, changes, newIds, order) && |others| == |reverted|
    ensures forall j :: 0 <= j < |reverted| ==> IsMergeable(reverted[j], true)
    ensures var ops := OpsOf(changes, false, newIds);
            Storable(ApplyOps(Load(rows), ops), IdsOf(Load(rows)) + AppendedKeys(ops), newKeys)
    ensures var undos := OpsOf(reverted, true, others);
            Storable(ApplyOps(Load(applied), undos), IdsOf(Load(applied)) + AppendedKeys(undos), newKeys)
  {
    ProperBatchFits(rows, changes, newIds);
    RevertingUndoesAll(rows, changes, newIds, reverted, order, others);
    hide Load, Lookup, Store, ApplyOps, OpsOf, IsMergeable, Identified, NormalizeAll, IdsOf, AppendedKeys,
         Normalize, PutsBack, StillCurrent, ProperBatch, Reorders, KnownIds, DistinctStableKeys, DistinctKeys,
         AppendsAreFree, IsUndone, UndoesOne;
    var questions, ops, undos := Load(rows), OpsOf(changes, false, newIds), OpsOf(reverted, true, others);
    BothBatchesFit(questions, ops, undos);
    IdentifiedHasIds(ApplyOps(questions, ops));
    LoadOfStore(ApplyOps(questions, ops), newKeys, applied);
    BatchIsStored(questions, ops, newKeys);
    BatchIsStored(Load(applied), undos, newKeys);
  }

  // ---------------------------------------------------------------- a stale snapshot

  function TextQuestion(key: Key, text: string): Draft {
    Draft(Some(key), SHORT_ANSWER, text, Some(true), None, None, None, None, Some([]))
  }

  function UpdateOf(key: Key, before: string, proposed: string): Change {
    Change(UPDATE_QUESTION, Some(key), Some(TextQuestion(key, before)), Some(TextQuestion(key, proposed)))
  }

  /** A question is edited after a change of it was proposed: the change can be
      applied and reverted, and the revert puts the older text back. */
  lemma StaleSnapshotLosesEdit(key: Key, before: string, edited: string, proposed: string)
    requires key != "" && !Blank(before) && !Blank(proposed)
    ensures var change := UpdateOf(key, before, proposed);
            && IsMergeable(change, false) && IsMergeable(Applied(change, ""), true)
            && ApplyThenRevert([TextQuestion(key, edited)],
                               [OpOf(change, false, "")], [OpOf(Applied(change, ""), true, "")])
               == [TextQuestion(key, before)]
  {
    hide Blank;
    var change := UpdateOf(key, before, proposed);
    var op, undo := OpOf(change, false, ""), OpOf(Applied(change, ""), true, "");
    OneOp([TextQuestion(key, edited)], op);
    assert ApplyOp([TextQuestion(key, edited)], op) == [TextQuestion(key, proposed)];
    TextIsNormal(key, proposed);
    assert NormalizeAll([TextQuestion(key, proposed)]) == [TextQuestion(key, proposed)];
    OneOp([TextQuestion(key, proposed)], undo);
    assert ApplyOp([TextQuestion(key, proposed)], undo) == [TextQuestion(key, before)];
    TextIsNormal(key, before);
    assert NormalizeAll([TextQuestion(key, before)]) == [TextQuestion(key, before)];
  }

  lemma OneOp(questions: seq<Draft>, op: Op)
    ensures ApplyOps(questions, [op]) == ApplyOp(questions, op)
  {
    assert [op][..0] == [];
    assert ApplyOps(questions, []) == questions;
  }

  lemma TextIsNormal(key: Key, text: string)
    ensures Normalize(TextQuestion(key, text)) == TextQuestion(key, text)
  {
  }
}
