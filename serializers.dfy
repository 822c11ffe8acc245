/**
 * The two serializers: `AskQuestionSerializer`, whose single field is a
 * `CharField(allow_blank=False, trim_whitespace=True)`, and
 * `QARecordSerializer`, which shapes a record for output.
 *
 * The rules of the `CharField` are those of Django REST framework: a missing
 * field is required, `null` is refused, a value whose text is blank once
 * trimmed is refused, booleans, lists and dictionaries are not strings,
 * numbers are turned into their `str()`, the text is trimmed, and text
 * holding a NUL character is refused.
 */
module Serializers {
  import opened Wrappers
  import Assoc
  import PyStr
  import opened Json
  import opened Models

  // QARecordSerializer

  const RECORD_FIELDS: seq<string> := ["id", "question", "answer", "created_at"]
  const READ_ONLY_FIELDS: seq<string> := ["id", "answer", "created_at"]

  /** A serialized field value; `created_at` is rendered from the timestamp. */
  datatype FieldValue = IdValue(n: nat) | TextValue(s: string) | TimeValue(t: int)

  /** `QARecordSerializer(record).data`, as an ordered dictionary. */
  function SerializeRecord(r: Record): (data: seq<(string, FieldValue)>)
    ensures Assoc.Keys(data) == RECORD_FIELDS
    ensures Assoc.Lookup(data, "id") == Some(IdValue(r.id))
    ensures Assoc.Lookup(data, "question") == Some(TextValue(r.question))
    ensures Assoc.Lookup(data, "answer") == Some(TextValue(r.answer))
    ensures Assoc.Lookup(data, "created_at") == Some(TimeValue(r.createdAt))
  {
    var data := [
      ("id", IdValue(r.id)),
      ("question", TextValue(r.question)),
      ("answer", TextValue(r.answer)),
      ("created_at", TimeValue(r.createdAt))];
    assert Assoc.DistinctKeys(data);
    Assoc.LookupDistinct(data, 0);
    Assoc.LookupDistinct(data, 1);
    Assoc.LookupDistinct(data, 2);
    Assoc.LookupDistinct(data, 3);
    data
  }

  /** The fields of `fields` that are not in `excluded`, in their order. */
  function Without(fields: seq<string>, excluded: seq<string>): (ws: seq<string>)
    ensures forall f :: f in ws <==> f in fields && f !in excluded
  {
    if fields == [] then []
    else if fields[0] in excluded then Without(fields[1..], excluded)
    else [fields[0]] + Without(fields[1..], excluded)
  }

  /** The record fields a client may supply: those not marked read-only. */
  function WritableFields(): seq<string>
  {
    Without(RECORD_FIELDS, READ_ONLY_FIELDS)
  }

  /** Only `question` comes from the client. */
  lemma OnlyQuestionIsWritable()
    ensures WritableFields() == ["question"]
  {
  }

  // AskQuestionSerializer

  /** Why the `question` field was refused. */
  datatype FieldError = Required | Null | Invalid | Blank | NullCharacters

  /** Why the submitted data was refused. */
  datatype ValidationError =
    | NoData                               // the body decoded to `null`
    | NotADictionary(typeName: string)     // the body is not a JSON object
    | FieldInvalid(field: string, error: FieldError)

  /** The message Django REST framework reports for each field error. */
  function FieldMessage(e: FieldError): (m: string)
    ensures m != [] && m[|m| - 1] == '.'
  {
    match e
    case Required => "This field is required."
    case Null => "This field may not be null."
    case Invalid => "Not a valid string."
    case Blank => "This field may not be blank."
    case NullCharacters => "Null characters are not allowed."
  }

  /** Each field error has a message of its own. */
  lemma FieldMessagesDistinct(e1: FieldError, e2: FieldError)
    requires FieldMessage(e1) == FieldMessage(e2)
    ensures e1 == e2
  {
  }

  /** `serializer.errors`: a message list under the field, or under `non_field_errors`. */
  function ErrorDetail(e: ValidationError): (d: seq<(string, seq<string>)>)
    ensures |d| == 1
    ensures e.FieldInvalid? ==> d[0].0 == e.field
    ensures !e.FieldInvalid? ==> d[0].0 == "non_field_errors"
  {
    match e
    case NoData => [("non_field_errors", ["No data provided"])]
    case NotADictionary(t) => [("non_field_errors", ["Invalid data. Expected a dictionary, but got " + t + "."])]
    case FieldInvalid(f, err) => [(f, [FieldMessage(err)])]
  }

  /** The trimmed text, unless it is blank or holds a NUL character. */
  function AcceptText(text: string): (r: Result<string, FieldError>)
    ensures r.Ok? <==> PyStr.Strip(text) != "" && '\0' !in PyStr.Strip(text)
    ensures r.Ok? ==> r.value == PyStr.Strip(text)
    ensures r.Err? ==> r.error == (if PyStr.Strip(text) == "" then Blank else NullCharacters)
  {
    var trimmed := PyStr.Strip(text);
    if trimmed == "" then Err(Blank)
    else if '\0' in trimmed then Err(NullCharacters)
    else Ok(trimmed)
  }

  /** Text that is already trimmed, not empty and free of NUL is accepted unchanged. */
  lemma AcceptTrimmed(text: string)
    requires text != "" && PyStr.Unpadded(text) && '\0' !in text
    ensures AcceptText(text) == Ok(text)
  {
    PyStr.StripUnpadded(text);
  }

  /** The `question` field's validation, given the entry found in the data (if any). */
  function ValidateQuestion(v: Option<Value>): (r: Result<string, FieldError>)
    ensures r.Ok? ==> r.value != "" && PyStr.Unpadded(r.value) && '\0' !in r.value
    ensures v.None? ==> r == Err(Required)
    ensures v == Some(JNull) ==> r == Err(Null)
  {
    match v
    case None => Err(Required)
    case Some(JNull) => Err(Null)
    case Some(JString(s)) => AcceptText(s)
    case Some(JInt(i)) => AcceptText(PyStr.IntToStr(i))
    case Some(JFloat(repr)) => AcceptText(repr)
    case Some(_) => Err(Invalid)
  }

  /** `AskQuestionSerializer(data=request.data).is_valid()` and `validated_data["question"]`. */
  function ValidateAsk(data: Value): (r: Result<string, ValidationError>)
    ensures r.Ok? ==> data.JObject? && r.value != "" && PyStr.Unpadded(r.value)
    ensures !data.JObject? ==> r.Err? && !r.error.FieldInvalid?
    ensures r.Err? && r.error.FieldInvalid? ==> r.error.field == "question"
  {
    match data
    case JNull => Err(NoData)
    case JObject(members) =>
      (match ValidateQuestion(Assoc.Lookup(members, "question"))
       case Ok(q) => Ok(q)
       case Err(e) => Err(FieldInvalid("question", e)))
    case _ => Err(NotADictionary(TypeName(data)))
  }

  /** A string question is accepted exactly when it is not blank once trimmed and holds no NUL, and is trimmed. */
  lemma StringQuestion(members: seq<(string, Value)>, s: string)
    requires Assoc.Lookup(members, "question") == Some(JString(s))
    ensures ValidateAsk(JObject(members)).Ok? <==> PyStr.Strip(s) != "" && '\0' !in PyStr.Strip(s)
    ensures ValidateAsk(JObject(members)).Ok? ==> ValidateAsk(JObject(members)).value == PyStr.Strip(s)
    ensures PyStr.Strip(s) == "" ==> ValidateAsk(JObject(members)) == Err(FieldInvalid("question", Blank))
  {
  }

  /** A request without a `question` entry is refused because the field is required. */
  lemma MissingQuestionRefused(members: seq<(string, Value)>)
    requires forall i :: 0 <= i < |members| ==> members[i].0 != "question"
    ensures ValidateAsk(JObject(members)) == Err(FieldInvalid("question", Required))
  {
  }

  /** Only the `question` entry of the data decides the outcome; other entries are ignored. */
  lemma OtherEntriesIgnored(members1: seq<(string, Value)>, members2: seq<(string, Value)>)
    requires Assoc.Lookup(members1, "question") == Assoc.Lookup(members2, "question")
    ensures ValidateAsk(JObject(members1)) == ValidateAsk(JObject(members2))
  {
  }

  /** An accepted question submitted again as it was accepted is accepted unchanged. */
  lemma ValidatedQuestionIsStable(data: Value)
    requires ValidateAsk(data).Ok?
    ensures ValidateAsk(JObject([("question", JString(ValidateAsk(data).value))])) == ValidateAsk(data)
  {
    var q := ValidateAsk(data).value;
    var members := [("question", JString(q))];
    assert Assoc.Lookup(members, "question") == Some(JString(q));
    AcceptTrimmed(q);
  }

  /** An integer question is accepted as its decimal text. */
  lemma IntegerQuestion(i: int)
    ensures ValidateQuestion(Some(JInt(i))) == Ok(PyStr.IntToStr(i))
  {
    var text := PyStr.IntToStr(i);
    assert '\0' !in text;
    AcceptTrimmed(text);
  }
}
