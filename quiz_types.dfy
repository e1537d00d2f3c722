/**
 * The shapes, schemas and constants shared by the AI gateway and the quiz
 * session (src/utils/quizTypes.ts).
 *
 * The Zod schemas become predicates over an abstract parsed-JSON value, and
 * `schema.parse(data)` becomes a partial function that yields the typed value
 * exactly when the predicate holds.
 */
module QuizTypes {
  import opened Wrappers

  /** A value as JSON.parse produces it. JavaScript numbers are modelled as reals. */
  datatype Json =
    | JNull
    | JBool(b: bool)
    | JNum(n: real)
    | JStr(s: string)
    | JArr(items: seq<Json>)
    | JObj(fields: map<string, Json>)

  /** QuizQuestion. */
  datatype Question = Question(
    id: string,
    question: string,
    options: seq<string>,
    correctIndex: int,
    explanation: Option<string>)

  /** AnswerDetail: one per question, computed at submission. */
  datatype AnswerDetail = AnswerDetail(
    questionId: string,
    question: string,
    selectedIndex: Option<int>,
    correctIndex: int,
    isCorrect: bool,
    explanation: Option<string>)

  /** QuizResult. */
  datatype QuizResult = QuizResult(
    score: int,
    total: int,
    percentage: int,
    feedback: string,
    answers: seq<AnswerDetail>,
    timeTaken: int)

  /** AppScreen. */
  datatype Screen = Topic | Loading | Quiz | Result

  // QUIZ_CONFIG
  const QuestionsPerQuiz: int := 5
  const DefaultTimePerQuestion: int := 30  // seconds
  const MaxRetries: int := 3
  const RetryDelay: int := 1000            // milliseconds
  const ApiTimeout: int := 30000           // milliseconds

  // The bounds the schemas impose
  const MinQuestionLength: int := 10
  const OptionCount: int := 4
  const MinCorrectIndex: int := 0
  const MaxCorrectIndex: int := 3
  const MinQuizQuestions: int := 1
  const MaxQuizQuestions: int := 10
  const MinFeedbackLength: int := 10

  /** The configured quiz length is one the quiz schema accepts. */
  lemma QuestionsPerQuizAccepted()
    ensures MinQuizQuestions <= QuestionsPerQuiz <= MaxQuizQuestions
    ensures MaxRetries == 3 && RetryDelay == 1000
  {
  }

  // ---------------------------------------------------------------------------
  // Schema building blocks, one per Zod combinator used

  /** Reading a property: `undefined` (None) when `j` is not an object or lacks `key`. */
  function Field(j: Json, key: string): Option<Json> {
    if j.JObj? && key in j.fields then Some(j.fields[key]) else None
  }

  /** z.string() */
  predicate IsString(v: Option<Json>) {
    v.Some? && v.value.JStr?
  }

  /** z.string().min(n) */
  predicate StringMin(v: Option<Json>, n: int) {
    IsString(v) && |v.value.s| >= n
  }

  /** z.array(z.string()).length(n) */
  predicate StringArrayOfLength(v: Option<Json>, n: int) {
    v.Some? && v.value.JArr? && |v.value.items| == n &&
    forall k :: 0 <= k < |v.value.items| ==> v.value.items[k].JStr?
  }

  /** z.number().int().min(lo).max(hi) */
  predicate IntegerIn(v: Option<Json>, lo: int, hi: int) {
    v.Some? && v.value.JNum? && v.value.n.Floor as real == v.value.n &&
    lo as real <= v.value.n <= hi as real
  }

  // ---------------------------------------------------------------------------
  // The three schemas

  /** QuizQuestionSchema: `id` is any string (the empty one too), `explanation` is absent or a string. */
  predicate QuestionSchema(j: Json) {
    j.JObj? &&
    IsString(Field(j, "id")) &&
    StringMin(Field(j, "question"), MinQuestionLength) &&
    StringArrayOfLength(Field(j, "options"), OptionCount) &&
    IntegerIn(Field(j, "correctIndex"), MinCorrectIndex, MaxCorrectIndex) &&
    (Field(j, "explanation").None? || IsString(Field(j, "explanation")))
  }

  /** QuizResponseSchema: 1 to 10 questions, each valid. */
  predicate QuizResponseSchema(j: Json) {
    var v := Field(j, "questions");
    v.Some? && v.value.JArr? &&
    MinQuizQuestions <= |v.value.items| <= MaxQuizQuestions &&
    forall k :: 0 <= k < |v.value.items| ==> QuestionSchema(v.value.items[k])
  }

  /** FeedbackResponseSchema: a feedback string of at least 10 characters. */
  predicate FeedbackResponseSchema(j: Json) {
    StringMin(Field(j, "feedback"), MinFeedbackLength)
  }

  // ---------------------------------------------------------------------------
  // The same constraints on typed values

  /** What every question that passed the schema satisfies. */
  predicate WellFormedQuestion(q: Question) {
    |q.question| >= MinQuestionLength &&
    |q.options| == OptionCount &&
    MinCorrectIndex <= q.correctIndex <= MaxCorrectIndex
  }

  /** What every question list that passed the quiz schema satisfies. */
  predicate ValidQuiz(qs: seq<Question>) {
    MinQuizQuestions <= |qs| <= MaxQuizQuestions &&
    forall k :: 0 <= k < |qs| ==> WellFormedQuestion(qs[k])
  }

  // ---------------------------------------------------------------------------
  // schema.parse(data): the typed value when the schema accepts, None when Zod throws

  function ParseQuestion(j: Json): (r: Option<Question>)
    ensures r.Some? <==> QuestionSchema(j)
    ensures r.Some? ==> WellFormedQuestion(r.value)
    ensures r.Some? ==> 0 <= r.value.correctIndex < |r.value.options|
    ensures r.Some? ==> r.value.id == j.fields["id"].s && r.value.question == j.fields["question"].s
  {
    if !QuestionSchema(j) then None
    else
      var f := j.fields;
      var opts := f["options"].items;
      Some(Question(
        f["id"].s,
        f["question"].s,
        seq(|opts|, k requires 0 <= k < |opts| => opts[k].s),
        f["correctIndex"].n.Floor,
        if "explanation" in f then Some(f["explanation"].s) else None))
  }

  function ParseQuizResponse(j: Json): (r: Option<seq<Question>>)
    ensures r.Some? <==> QuizResponseSchema(j)
    ensures r.Some? ==> ValidQuiz(r.value)
    ensures r.Some? ==> |r.value| == |j.fields["questions"].items|
  {
    if !QuizResponseSchema(j) then None
    else
      var items := j.fields["questions"].items;
      Some(seq(|items|, k requires 0 <= k < |items| => ParseQuestion(items[k]).value))
  }

  function ParseFeedbackResponse(j: Json): (r: Option<string>)
    ensures r.Some? <==> FeedbackResponseSchema(j)
    ensures r.Some? ==> |r.value| >= MinFeedbackLength
  {
    if FeedbackResponseSchema(j) then Some(j.fields["feedback"].s) else None
  }

  // ---------------------------------------------------------------------------
  // Encodings, the partners of the parsers

  function EncodeQuestion(q: Question): Json {
    var base := map[
      "id" := JStr(q.id),
      "question" := JStr(q.question),
      "options" := JArr(seq(|q.options|, k requires 0 <= k < |q.options| => JStr(q.options[k]))),
      "correctIndex" := JNum(q.correctIndex as real)];
    JObj(if q.explanation.Some? then base["explanation" := JStr(q.explanation.value)] else base)
  }

  function EncodeQuiz(qs: seq<Question>): Json {
    JObj(map["questions" := JArr(seq(|qs|, k requires 0 <= k < |qs| => EncodeQuestion(qs[k])))])
  }

  function EncodeFeedback(text: string): Json {
    JObj(map["feedback" := JStr(text)])
  }

  /** The question schema accepts the encoding of a question exactly when the question is well formed. */
  lemma QuestionSchemaIffWellFormed(q: Question)
    ensures QuestionSchema(EncodeQuestion(q)) <==> WellFormedQuestion(q)
  {
    var j := EncodeQuestion(q);
    assert Field(j, "question") == Some(JStr(q.question));
    assert Field(j, "options") == Some(JArr(seq(|q.options|, k requires 0 <= k < |q.options| => JStr(q.options[k]))));
    assert Field(j, "correctIndex") == Some(JNum(q.correctIndex as real));
  }

  /** Parsing the encoding of a well-formed question gives it back. */
  lemma ParseEncodeQuestion(q: Question)
    requires WellFormedQuestion(q)
    ensures ParseQuestion(EncodeQuestion(q)) == Some(q)
  {
    QuestionSchemaIffWellFormed(q);
    var p := ParseQuestion(EncodeQuestion(q)).value;
    assert p.options == q.options;
  }

  /** Parsing the encoding of a valid quiz gives the same questions back. */
  lemma ParseEncodeQuiz(qs: seq<Question>)
    requires ValidQuiz(qs)
    ensures ParseQuizResponse(EncodeQuiz(qs)) == Some(qs)
  {
    var items := EncodeQuiz(qs).fields["questions"].items;
    forall k | 0 <= k < |qs|
      ensures QuestionSchema(items[k]) && ParseQuestion(items[k]) == Some(qs[k])
    {
      QuestionSchemaIffWellFormed(qs[k]);
      ParseEncodeQuestion(qs[k]);
    }
    assert QuizResponseSchema(EncodeQuiz(qs));
    assert ParseQuizResponse(EncodeQuiz(qs)).value == qs;
  }

  /** The feedback schema accepts an encoded text exactly when it is long enough, and gives it back. */
  lemma ParseEncodeFeedback(text: string)
    ensures ParseFeedbackResponse(EncodeFeedback(text)) ==
            (if |text| >= MinFeedbackLength then Some(text) else None)
  {
  }

  /** A validated quiz is never empty, and every correct index addresses one of its question's options. */
  lemma ValidQuizIndexable(qs: seq<Question>, k: int)
    requires ValidQuiz(qs) && 0 <= k < |qs|
    ensures qs != []
    ensures 0 <= qs[k].correctIndex < |qs[k].options|
  {
  }
}
