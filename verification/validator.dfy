/**
 * The all-or-nothing check of the question payload (`validateQuestionData`):
 * the root must be a plain object whose `questions` is a non-empty array of
 * plain objects with non-blank `text`, `translation` and `tip` strings; the
 * result holds the trimmed triples and the trimmed topic or a fixed default.
 */
module Validator {
  import opened Wrappers
  import opened Text
  import opened Json
  import opened Mapping

  /** One loaded question, every field trimmed and non-empty. */
  datatype Question = Question(text: string, translation: string, tip: string)

  /** The loaded payload: a topic label and at least one question. */
  datatype QuestionSet = QuestionSet(topic: string, questions: seq<Question>)

  /** The three required fields of a question object, in the order they are checked. */
  datatype Field = Text | Translation | Tip

  /** Why a payload was refused; item errors carry the position of the offending question. */
  datatype LoadError =
    | RootNotObject
    | QuestionsNotNonEmptyArray
    | ItemNotObject(index: nat)
    | MissingField(index: nat, field: Field)
  {
    predicate IsItemError() {
      ItemNotObject? || MissingField?
    }
  }

  /** The label used when the payload has no usable `topic`. */
  const DefaultTopic: string := "Topic Shuffle"

  function FieldName(f: Field): string {
    match f
    case Text => "text"
    case Translation => "translation"
    case Tip => "tip"
  }

  // ---- Reference definitions: what a valid payload is, independent of the check order ----

  /** The field is present, is a string, and holds at least one non-space character. */
  predicate HasField(item: Json, f: Field)
    requires item.JObject?
  {
    var v := Get(item.fields, FieldName(f));
    v.Some? && v.value.JString? && !IsBlank(v.value.str)
  }

  predicate ValidItem(item: Json) {
    item.JObject? && HasField(item, Text) && HasField(item, Translation) && HasField(item, Tip)
  }

  /** The root's `questions` property, when it is an array. */
  function QuestionItems(raw: Json): Option<seq<Json>> {
    if raw.JObject? then
      var q := Get(raw.fields, "questions");
      if q.Some? && q.value.JArray? then Some(q.value.items) else None
    else
      None
  }

  predicate ValidPayload(raw: Json) {
    && raw.JObject?
    && QuestionItems(raw).Some?
    && |QuestionItems(raw).value| > 0
    && forall k :: 0 <= k < |QuestionItems(raw).value| ==> ValidItem(QuestionItems(raw).value[k])
  }

  /** The normal form of a valid item: each field trimmed. */
  function Sanitized(item: Json): Question
    requires ValidItem(item)
  {
    Question(TrimmedField(item, Text), TrimmedField(item, Translation), TrimmedField(item, Tip))
  }

  /** The trimmed value of a field that is known to be present. */
  function TrimmedField(item: Json, f: Field): string
    requires item.JObject? && HasField(item, f)
  {
    Trim(item.fields[FieldName(f)].str)
  }

  /**
   * `e` is the error the checks report first for `item`: a non-object is
   * refused as such; otherwise the first of text, translation, tip that is
   * missing or blank is named.
   */
  predicate IsFirstFault(item: Json, e: LoadError) {
    && e.IsItemError()
    && (e.ItemNotObject? <==> !item.JObject?)
    && (e.MissingField? ==>
          && item.JObject?
          && !HasField(item, e.field)
          && (e.field != Text ==> HasField(item, Text))
          && (e.field == Tip ==> HasField(item, Translation)))
  }

  /** Every field of the question is non-empty and already trimmed. */
  predicate Normalised(q: Question) {
    && q.text != [] && Trim(q.text) == q.text
    && q.translation != [] && Trim(q.translation) == q.translation
    && q.tip != [] && Trim(q.tip) == q.tip
  }

  // ---- The check as the loader performs it ----

  /** One required string field of a question object, trimmed. */
  function RequiredField(fields: map<string, Json>, f: Field, index: nat): (r: Result<string, LoadError>)
    ensures r.Success? <==> HasField(JObject(fields), f)
    ensures r.Success? ==> r.value == TrimmedField(JObject(fields), f)
    ensures r.Failure? ==> r.error == MissingField(index, f)
  {
    var v := Get(fields, FieldName(f));
    if v.Some? && v.value.JString? then
      if |Trim(v.value.str)| > 0 then Success(Trim(v.value.str)) else Failure(MissingField(index, f))
    else
      Failure(MissingField(index, f))
  }

  /** The per-item step of the `questions.map` callback: object check, then text, translation, tip. */
  function ValidateItem(item: Json, index: nat): (r: Result<Question, LoadError>)
    ensures r.Success? <==> ValidItem(item)
    ensures r.Success? ==> r.value == Sanitized(item)
    ensures r.Failure? ==> r.error.IsItemError() && r.error.index == index && IsFirstFault(item, r.error)
  {
    if !item.JObject? then
      Failure(ItemNotObject(index))
    else
      match RequiredField(item.fields, Text, index)
      case Failure(e) => Failure(e)
      case Success(text) =>
        match RequiredField(item.fields, Translation, index)
        case Failure(e) => Failure(e)
        case Success(translation) =>
          match RequiredField(item.fields, Tip, index)
          case Failure(e) => Failure(e)
          case Success(tip) => Success(Question(text, translation, tip))
  }

  /**
   * The `questions.map` step succeeds exactly when every item is valid, and
   * then yields every item's sanitised form, in order.
   */
  lemma MapValidateItem(items: seq<Json>)
    ensures MapOrFail(items, ValidateItem).Success? <==> forall k :: 0 <= k < |items| ==> ValidItem(items[k])
    ensures MapOrFail(items, ValidateItem).Success? ==>
      && |MapOrFail(items, ValidateItem).value| == |items|
      && forall k :: 0 <= k < |items| ==> MapOrFail(items, ValidateItem).value[k] == Sanitized(items[k])
    ensures MapOrFail(items, ValidateItem).Failure? ==>
      && MapOrFail(items, ValidateItem).error.IsItemError()
      && MapOrFail(items, ValidateItem).error.index < |items|
  {
    if MapOrFail(items, ValidateItem).Failure? {
      var k := MapFailsAtFirstFailure(items, ValidateItem);
    }
    forall k | 0 <= k < |items|
      ensures ValidateItem(items[k], k).Success? <==> ValidItem(items[k])
    {
    }
  }

  /** `topic` when it is a non-blank string, trimmed; the default label otherwise. */
  function ResolveTopic(topic: Option<Json>): (t: string)
    ensures t != [] && Trim(t) == t
    ensures topic.Some? && topic.value.JString? && !IsBlank(topic.value.str) ==> t == Trim(topic.value.str)
    ensures !(topic.Some? && topic.value.JString? && !IsBlank(topic.value.str)) ==> t == DefaultTopic
  {
    if topic.Some? && topic.value.JString? && |Trim(topic.value.str)| > 0 then
      TrimIdempotent(topic.value.str);
      Trim(topic.value.str)
    else
      assert SkipLeading(DefaultTopic, 0) == 0;
      assert SkipTrailing(DefaultTopic, 0, |DefaultTopic|) == |DefaultTopic|;
      DefaultTopic
  }

  /** `validateQuestionData`: the whole payload check. */
  function ValidateQuestionData(raw: Json): (r: Result<QuestionSet, LoadError>)
    ensures r.Success? <==> ValidPayload(raw)
    ensures r == Failure(RootNotObject) <==> !raw.JObject?
    ensures r == Failure(QuestionsNotNonEmptyArray) <==>
      raw.JObject? && (QuestionItems(raw).None? || |QuestionItems(raw).value| == 0)
    ensures r.Success? ==>
      var items := QuestionItems(raw).value;
      && |r.value.questions| == |items| > 0
      && (forall k :: 0 <= k < |items| ==> r.value.questions[k] == Sanitized(items[k]))
      && r.value.topic == ResolveTopic(Get(raw.fields, "topic"))
    ensures r.Failure? && r.error.IsItemError() ==>
      QuestionItems(raw).Some? && r.error.index < |QuestionItems(raw).value|
  {
    if !raw.JObject? then
      Failure(RootNotObject)
    else
      var questions := Get(raw.fields, "questions");
      if !(questions.Some? && questions.value.JArray?) || |questions.value.items| == 0 then
        Failure(QuestionsNotNonEmptyArray)
      else
        MapValidateItem(questions.value.items);
        match MapOrFail(questions.value.items, ValidateItem)
        case Failure(e) => Failure(e)
        case Success(sanitized) =>
          Success(QuestionSet(ResolveTopic(Get(raw.fields, "topic")), sanitized))
  }

  /**
   * An item error names the first invalid question, in index order, and
   * the first of its checks (object, text, translation, tip) that fails.
   */
  lemma ValidationReportsFirstFault(raw: Json)
    requires ValidateQuestionData(raw).Failure?
    requires ValidateQuestionData(raw).error.IsItemError()
    ensures var items := QuestionItems(raw).value;
      var e := ValidateQuestionData(raw).error;
      && (forall k :: 0 <= k < e.index ==> ValidItem(items[k]))
      && IsFirstFault(items[e.index], e)
  {
    var k := MapFailsAtFirstFailure(QuestionItems(raw).value, ValidateItem);
  }

  /** A sanitised question has every field non-empty and already trimmed. */
  lemma SanitizedIsNormalised(item: Json)
    requires ValidItem(item)
    ensures Normalised(Sanitized(item))
  {
    forall f | f in {Text, Translation, Tip}
      ensures TrimmedField(item, f) != [] && Trim(TrimmedField(item, f)) == TrimmedField(item, f)
    {
      TrimIdempotent(item.fields[FieldName(f)].str);
    }
  }

  /** Whatever the loader accepts is made of normalised questions and a normalised topic. */
  lemma ValidatedDataIsNormalised(raw: Json)
    ensures ValidateQuestionData(raw).Success? ==>
      var qs := ValidateQuestionData(raw).value;
      && qs.questions != []
      && (forall k :: 0 <= k < |qs.questions| ==> Normalised(qs.questions[k]))
      && qs.topic != [] && Trim(qs.topic) == qs.topic
  {
    var r := ValidateQuestionData(raw);
    if r.Success? {
      var items := QuestionItems(raw).value;
      forall k | 0 <= k < |r.value.questions|
        ensures Normalised(r.value.questions[k])
      {
        SanitizedIsNormalised(items[k]);
      }
    }
  }
}
