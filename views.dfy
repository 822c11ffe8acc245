/**
 * The three endpoints: `health`, `ask_question` and `qa_history`. A view
 * takes the decoded request body (where it reads one) and the record table,
 * and returns a status code with the response data.
 */
module Views {
  import opened Wrappers
  import Assoc
  import Json
  import opened Models
  import opened Serializers

  const HTTP_200_OK: nat := 200
  const HTTP_201_CREATED: nat := 201
  const HTTP_400_BAD_REQUEST: nat := 400

  /** The data a view hands to `Response`. */
  datatype Payload =
    | Strings(entries: seq<(string, string)>)
    | One(record: seq<(string, FieldValue)>)
    | Many(records: seq<seq<(string, FieldValue)>>)
    | Errors(detail: seq<(string, seq<string>)>)

  datatype Response = Response(status: nat, payload: Payload)

  /** `health`: always the same liveness message with the default status; the store is not consulted. */
  function Health(): (r: Response)
    ensures r.status == HTTP_200_OK
    ensures r.payload == Strings([("message", "Server is up!")])
  {
    Response(HTTP_200_OK, Strings([("message", "Server is up!")]))
  }

  // The placeholder answer.

  const ANSWER_PREFIX: string := "You asked: "

  /** The answer stored for a question: the question echoed after a fixed label. */
  function AnswerFor(question: string): (answer: string)
    ensures |answer| == |ANSWER_PREFIX| + |question|
    ensures answer[..|ANSWER_PREFIX|] == ANSWER_PREFIX && answer[|ANSWER_PREFIX|..] == question
  {
    ANSWER_PREFIX + question
  }

  /** The question an answer echoes, if it carries the label. */
  function QuestionIn(answer: string): Option<string>
  {
    if |answer| >= |ANSWER_PREFIX| && answer[..|ANSWER_PREFIX|] == ANSWER_PREFIX
    then Some(answer[|ANSWER_PREFIX|..])
    else None
  }

  /** The question can be read back from its answer, so different questions get different answers. */
  lemma AnswerRoundTrip(question: string)
    ensures QuestionIn(AnswerFor(question)) == Some(question)
  {
  }

  /** Different questions get different answers. */
  lemma AnswerInjective(q1: string, q2: string)
    requires AnswerFor(q1) == AnswerFor(q2)
    ensures q1 == q2
  {
    AnswerRoundTrip(q1);
    AnswerRoundTrip(q2);
  }

  // `order_by("-created_at")`.

  /** Most recent first: `created_at` never increases along the sequence. */
  predicate NewestFirst(rs: seq<Record>)
  {
    forall i, j :: 0 <= i < j < |rs| ==> rs[i].createdAt >= rs[j].createdAt
  }

  /** Places `x` into a list ordered most recent first. */
  function Insert(x: Record, sorted: seq<Record>): (r: seq<Record>)
    requires NewestFirst(sorted)
    ensures NewestFirst(r)
    ensures multiset(r) == multiset(sorted) + multiset{x}
    ensures forall y :: y in r <==> y == x || y in sorted
  {
    if sorted == [] || x.createdAt >= sorted[0].createdAt then
      PrependNewest(x, sorted);
      [x] + sorted
    else
      assert sorted == [sorted[0]] + sorted[1..];
      var rest := Insert(x, sorted[1..]);
      PrependNewest(sorted[0], rest);
      [sorted[0]] + rest
  }

  /** A record no older than any in an ordered list can go in front of it. */
  lemma PrependNewest(x: Record, rs: seq<Record>)
    requires NewestFirst(rs)
    requires forall y :: y in rs ==> y.createdAt <= x.createdAt
    ensures NewestFirst([x] + rs)
  {
    forall i, j | 0 <= i < j < |[x] + rs| ensures ([x] + rs)[i].createdAt >= ([x] + rs)[j].createdAt {
      assert ([x] + rs)[j] == rs[j - 1] && rs[j - 1] in rs;
    }
  }

  /** The records reordered most recent first; records with equal timestamps keep no particular order. */
  function OrderByNewest(rs: seq<Record>): (r: seq<Record>)
    ensures NewestFirst(r)
    ensures multiset(r) == multiset(rs)
    ensures forall y :: y in r <==> y in rs
  {
    if rs == [] then []
    else
      assert rs == [rs[0]] + rs[1..];
      Insert(rs[0], OrderByNewest(rs[1..]))
  }

  /** Inserting a record whose id is new keeps the ids distinct. */
  lemma {:induction false} InsertKeepsIdsDistinct(x: Record, sorted: seq<Record>)
    requires NewestFirst(sorted) && DistinctIds(sorted)
    requires forall y :: y in sorted ==> y.id != x.id
    ensures DistinctIds(Insert(x, sorted))
  {
    if sorted != [] && x.createdAt < sorted[0].createdAt {
      InsertKeepsIdsDistinct(x, sorted[1..]);
      var r := Insert(x, sorted);
      forall j | 0 < j < |r| ensures r[0].id != r[j].id {
        assert r[j] in Insert(x, sorted[1..]);
      }
    }
  }

  /** Reordering keeps the ids distinct. */
  lemma {:induction false} OrderingKeepsIdsDistinct(rs: seq<Record>)
    requires DistinctIds(rs)
    ensures DistinctIds(OrderByNewest(rs))
  {
    if rs != [] {
      OrderingKeepsIdsDistinct(rs[1..]);
      forall y | y in OrderByNewest(rs[1..]) ensures y.id != rs[0].id {
        var k :| 0 <= k < |rs[1..]| && rs[1..][k] == y;
        assert rs[k + 1] == y;
      }
      InsertKeepsIdsDistinct(rs[0], OrderByNewest(rs[1..]));
    }
  }

  /** The serialized form of each record, in order. */
  function SerializeAll(rs: seq<Record>): (data: seq<seq<(string, FieldValue)>>)
    ensures |data| == |rs|
    ensures forall i :: 0 <= i < |rs| ==> data[i] == SerializeRecord(rs[i])
  {
    if rs == [] then [] else [SerializeRecord(rs[0])] + SerializeAll(rs[1..])
  }

  /** Serializing a list with a record in front puts that record's form in front. */
  lemma SerializeCons(x: Record, rs: seq<Record>)
    ensures SerializeAll([x] + rs) == [SerializeRecord(x)] + SerializeAll(rs)
  {
    assert ([x] + rs)[1..] == rs;
  }

  /** Serializing after an insertion adds the inserted record's serialized form and nothing else. */
  lemma {:induction false} SerializeInsert(x: Record, sorted: seq<Record>)
    requires NewestFirst(sorted)
    ensures multiset(SerializeAll(Insert(x, sorted))) == multiset(SerializeAll(sorted)) + multiset{SerializeRecord(x)}
  {
    if sorted == [] || x.createdAt >= sorted[0].createdAt {
      SerializeCons(x, sorted);
    } else {
      var head, rest := SerializeRecord(sorted[0]), Insert(x, sorted[1..]);
      assert Insert(x, sorted) == [sorted[0]] + rest;
      SerializeInsert(x, sorted[1..]);
      SerializeCons(sorted[0], rest);
      assert multiset(SerializeAll(Insert(x, sorted))) == multiset{head} + multiset(SerializeAll(rest));
      assert multiset(SerializeAll(sorted)) == multiset{head} + multiset(SerializeAll(sorted[1..]));
    }
  }

  /** The serialized listing is a permutation of the serialized records, whatever order ties take. */
  lemma {:induction false} SerializeOrdering(rs: seq<Record>)
    ensures multiset(SerializeAll(OrderByNewest(rs))) == multiset(SerializeAll(rs))
  {
    if rs != [] {
      assert rs == [rs[0]] + rs[1..];
      SerializeOrdering(rs[1..]);
      SerializeInsert(rs[0], OrderByNewest(rs[1..]));
      SerializeCons(rs[0], rs[1..]);
    }
  }

  /** A serialized listing whose ids are pairwise different and whose `created_at` never increases. */
  predicate HistoryListing(recs: seq<seq<(string, FieldValue)>>)
  {
    forall i, j :: 0 <= i < j < |recs| ==>
      && Assoc.Lookup(recs[i], "id") != Assoc.Lookup(recs[j], "id")
      && Assoc.Lookup(recs[i], "created_at").Some? && Assoc.Lookup(recs[j], "created_at").Some?
      && Assoc.Lookup(recs[i], "created_at").value.TimeValue?
      && Assoc.Lookup(recs[j], "created_at").value.TimeValue?
      && Assoc.Lookup(recs[i], "created_at").value.t >= Assoc.Lookup(recs[j], "created_at").value.t
  }

  /** Serializing an ordered list of records with distinct ids gives a history listing. */
  lemma SerializedListing(rs: seq<Record>)
    requires NewestFirst(rs) && DistinctIds(rs)
    ensures HistoryListing(SerializeAll(rs))
  {
    var recs := SerializeAll(rs);
    forall i, j | 0 <= i < j < |recs|
      ensures Assoc.Lookup(recs[i], "id") != Assoc.Lookup(recs[j], "id")
      ensures Assoc.Lookup(recs[i], "created_at") == Some(TimeValue(rs[i].createdAt))
      ensures Assoc.Lookup(recs[j], "created_at") == Some(TimeValue(rs[j].createdAt))
    {
      assert recs[i] == SerializeRecord(rs[i]) && recs[j] == SerializeRecord(rs[j]);
    }
  }

  /**
   * `ask_question`: a refused body yields 400 with the serializer's errors and
   * leaves the table as it was; an accepted one stores one record holding the
   * trimmed question and its answer and yields 201 with that record.
   */
  method AskQuestion(table: RecordTable, data: Json.Value, elapsed: nat) returns (resp: Response)
    requires table.Valid()
    modifies table
    ensures table.Valid()
    ensures ValidateAsk(data).Err? ==>
      && resp == Response(HTTP_400_BAD_REQUEST, Errors(ErrorDetail(ValidateAsk(data).error)))
      && table.rows == old(table.rows) && table.nextId == old(table.nextId) && table.clock == old(table.clock)
    ensures ValidateAsk(data).Ok? ==>
      var q := ValidateAsk(data).value;
      var record := Record(old(table.nextId), q, AnswerFor(q), table.clock);
      && table.rows == old(table.rows) + [record]
      && table.nextId == old(table.nextId) + 1
      && old(table.clock) <= record.createdAt
      && (forall i :: 0 <= i < |old(table.rows)| ==> old(table.rows)[i].id != record.id)
      && resp == Response(HTTP_201_CREATED, One(SerializeRecord(record)))
  {
    var validated := ValidateAsk(data);
    if validated.Err? {
      return Response(HTTP_400_BAD_REQUEST, Errors(ErrorDetail(validated.error)));
    }
    var questionText := validated.value;
    var answerText := AnswerFor(questionText);
    var record := table.Create(questionText, answerText, elapsed);
    resp := Response(HTTP_201_CREATED, One(SerializeRecord(record)));
  }

  /**
   * `qa_history`: every stored record, most recent first, with distinct ids;
   * the view changes nothing.
   */
  method QaHistory(table: RecordTable) returns (resp: Response)
    requires table.Valid()
    ensures resp.status == HTTP_200_OK && resp.payload.Many?
    ensures resp.payload.records == SerializeAll(OrderByNewest(table.rows))
    ensures |resp.payload.records| == |table.rows|
    ensures multiset(OrderByNewest(table.rows)) == multiset(table.rows)
    ensures multiset(resp.payload.records) == multiset(SerializeAll(table.rows))
    ensures HistoryListing(resp.payload.records)
  {
    var records := OrderByNewest(table.rows);
    table.ValidIdsDistinct();
    OrderingKeepsIdsDistinct(table.rows);
    assert |records| == |table.rows| by {
      assert |multiset(records)| == |multiset(table.rows)|;
    }
    resp := Response(HTTP_200_OK, Many(SerializeAll(records)));
    SerializedListing(records);
    SerializeOrdering(table.rows);
  }

  /** How many of the bodies the ask serializer accepts. */
  function CountAccepted(bodies: seq<Json.Value>): (n: nat)
    ensures n <= |bodies|
  {
    if bodies == [] then 0
    else CountAccepted(bodies[..|bodies| - 1]) + (if ValidateAsk(bodies[|bodies| - 1]).Ok? then 1 else 0)
  }

  /**
   * A client: on a new table, ask each body in turn, then list the history.
   * The history holds one record per accepted ask, newest first, with
   * distinct ids.
   */
  method AskAllThenHistory(bodies: seq<Json.Value>, start: int, elapsed: nat) returns (resp: Response)
    ensures resp.status == HTTP_200_OK && resp.payload.Many?
    ensures |resp.payload.records| == CountAccepted(bodies)
    ensures HistoryListing(resp.payload.records)
  {
    var table := new RecordTable(start);
    var i := 0;
    while i < |bodies|
      invariant 0 <= i <= |bodies|
      invariant table.Valid()
      invariant |table.rows| == CountAccepted(bodies[..i])
    {
      var _ := AskQuestion(table, bodies[i], elapsed);
      assert bodies[..i + 1][..i] == bodies[..i];
      i := i + 1;
    }
    assert bodies[..i] == bodies;
    resp := QaHistory(table);
  }
}
