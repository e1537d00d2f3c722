# AI quiz generator: session controller and AI gateway

This project models the logic of a quiz application. The user picks a topic.
A generative-AI service (Gemini) writes multiple-choice questions. The user
answers them, optionally against a timer. The application then scores the
answers and asks the same service for personalised feedback. Everything else
in the repository is rendering.

It has three modules, one per source file of the core, plus a small `Option`
datatype (`wrappers.dfy`):

- `QuizTypes` (`quiz_types.dfy`, src/utils/quizTypes.ts) holds the question,
  answer-detail and result shapes, and the `QUIZ_CONFIG` constants. It also
  holds the three Zod schemas. Each schema is a predicate over an abstract
  parsed-JSON value `Json`. Each `schema.parse` is a function that returns the
  typed value exactly when the predicate holds. Each parser is paired with an
  encoder and a round-trip lemma.
- `Api` (`api.dfy`, src/services/api.ts) holds the gateway.
  - `APIError` and the other values a `throw` can carry.
  - `withRetry`, an imperative method with a loop, proved against a contract
    stated over the outcomes of its attempts.
  - `extractJSON`, the regular expression `/\{[\s\S]*\}/`.
  - The API-key check.
  - The two catch-block error classifications.
  - `generateQuiz` and `generateFeedback`.

  The Gemini call is an oracle `call: nat -> CallOutcome`: the outcome (text or
  thrown value) of the k-th call. `JSON.parse` is a parameter
  `parse: string -> Option<Json>`, where `None` stands for a `SyntaxError`. The
  `setTimeout` waits are not performed. The retry loop returns the list of
  delays it asked for.
- `Session` (`session.dfy`, src/pages/index.tsx) holds the `QuizState` record
  and one function per `setState(prev => ...)` update. The scoring loop of
  `handleSubmit` is a method proved against the function that specifies the
  submitted state. The module also holds the feedback request with its
  wrong-answer list, and an event-driven state machine (`Event`, `Enabled`,
  `Step`, `Run`) with an invariant kept by every event. Two methods,
  `SelectTopicFlow` and `FeedbackFlow`, join the handlers to the gateway calls
  they await.

Where the specification text and the code disagree, the model follows the code:

- Loading a quiz does not clear the previous result, and neither does retrying.
  So "a result exists if and only if the screen is `result`" holds only from
  left to right. `Session.RetryKeepsStaleResult` shows a quiz screen that still
  holds the previous result.
- A failed load keeps whatever questions the state already held. After a retry,
  those are the previous quiz's questions.
- The question schema accepts any `id`, including the empty string and repeated
  ids.
- There is no separate "exhausted retries" error. When every attempt fails,
  `withRetry` throws the last error it caught.
- Only `generateQuiz` classifies an "API key" message as a non-retryable 401.
  Every in-loop failure of `generateFeedback` is retried.
- No completion is tagged with the session it belongs to. A feedback completion
  is applied to whatever state is current when it arrives. `Enabled` allows it
  on any screen.

## Model

| member | source | states |
|---|---|---|
| `QuizTypes.QuestionsPerQuizAccepted` | src/utils/quizTypes.ts:97-103 | the configured 5 questions lie in the schema's range [1, 10]; 3 attempts and a 1000 ms delay |
| `QuizTypes.ParseQuestion` | src/utils/quizTypes.ts:47-53 | `QuizQuestionSchema.parse` succeeds exactly when the schema predicate holds: question text of at least 10 characters, exactly 4 string options, an integer `correctIndex` in [0, 3], `explanation` absent or a string, any string `id`; the result's correct index addresses one of its options |
| `QuizTypes.ParseQuizResponse` | src/utils/quizTypes.ts:55-57 | succeeds exactly when `questions` is an array of 1 to 10 valid questions; the result is a valid quiz of the same length |
| `QuizTypes.ParseFeedbackResponse` | src/utils/quizTypes.ts:59-61 | succeeds exactly when `feedback` is a string of at least 10 characters, and returns a text that long |
| `QuizTypes.QuestionSchemaIffWellFormed` | src/utils/quizTypes.ts:47-53 | the question schema accepts the JSON form of a question if and only if the question is well formed |
| `QuizTypes.ParseEncodeQuestion` | src/utils/quizTypes.ts:47-53 | parsing the JSON form of a well-formed question gives the same question back |
| `QuizTypes.ParseEncodeQuiz` | src/utils/quizTypes.ts:55-57 | parsing the JSON form of a valid quiz gives the same questions back, in order |
| `QuizTypes.ParseEncodeFeedback` | src/utils/quizTypes.ts:59-61 | a feedback text round-trips exactly when it has at least 10 characters, and is rejected otherwise |
| `QuizTypes.ValidQuizIndexable` | src/utils/quizTypes.ts:50-56 | a validated quiz is non-empty and each correct index is a valid index into its options |
| `Api.NewAPIError` | src/services/api.ts:26-40 | an APIError keeps its message and status, and stops the retry loop exactly when `retryable` is false |
| `Api.APIErrorRetryableByDefault` | src/services/api.ts:30-39 | an APIError built without `retryable` is retried |
| `Api.WithRetry` | src/services/api.ts:44-72 | at most `maxRetries` calls; every call but the last failed with a retryable error; it stops early only on success or on a non-retryable APIError; what the last call returned or threw is passed on unchanged; the waits are `delay * 2^k` between calls and none after the last; with no attempts allowed it throws "Max retries exceeded" |
| `Api.RetryContractDeterministic` | src/services/api.ts:51-71 | the retry contract determines the result, the number of calls and the waits |
| `Api.FatalFirstAttemptStops` | src/services/api.ts:57-60 | a non-retryable APIError on the first attempt is rethrown after one call and no wait |
| `Api.FirstSuccessReturned` | src/services/api.ts:51-53 | a first successful call is returned unchanged, with no wait |
| `Api.ExhaustedWithConfig` | src/services/api.ts:62-71 | with 3 attempts and 1000 ms, three retryable failures give three calls, waits of 1000 then 2000 ms, and the third error |
| `Api.ExtractJSON` | src/services/api.ts:137-144 | the result is the span from the first `{` to the last `}` when a `}` follows a `{`, and the text unchanged otherwise; it is always a substring of the input |
| `Api.ExtractJSONIdempotent` | src/services/api.ts:137-144 | extracting twice is the same as extracting once |
| `Api.ExtractJSONStripsCommentary` | src/services/api.ts:137-144 | prose before and after an object is stripped, leaving exactly the object with all the braces it nests, provided the prose before has no `{` and the prose after has no `}` |
| `Api.ClassifyQuizError` | src/services/api.ts:177-189 | every failure becomes an APIError: a SyntaxError a retryable 500; an Error whose message contains "API key" a non-retryable 401; anything else, schema failures included, a retryable 500 |
| `Api.ClassifyFeedbackError` | src/services/api.ts:228-237 | every failure becomes a retryable 500 APIError |
| `Api.QuizAttempt` | src/services/api.ts:164-189 | one attempt returns questions exactly when the reply's extracted JSON parses and passes the quiz schema, and they are the parsed questions, a valid quiz; a failure of the call is classified by the catch block; what it throws is an APIError, and it is non-retryable exactly when the call itself threw a non-SyntaxError whose message contains "API key" |
| `Api.FeedbackAttempt` | src/services/api.ts:209-237 | one attempt returns text exactly when the extracted JSON parses and passes the feedback schema, and the text is the parsed `feedback` field, at least 10 characters long; a failure of the call is classified by the catch block; whatever it throws is a retryable APIError |
| `Api.GenerateQuiz` | src/services/api.ts:151-191 | without a usable key it throws the non-retryable 401 and never calls the model; otherwise it obeys the retry contract with 3 attempts and 1000 ms; what it returns is a valid quiz and what it throws is an APIError |
| `Api.GenerateFeedback` | src/services/api.ts:196-239 | the same key check; with a key, a failure comes only after all 3 attempts and waits of 1000 and 2000 ms; returned feedback has at least 10 characters |
| `Session.InitialInv` | src/pages/index.tsx:28-39 | the initial state satisfies the session invariant |
| `Session.SelectTopic` | src/pages/index.tsx:45-52 | shows the loading screen with the new topic and timer flag and clears the error; questions, answers and any previous result are kept |
| `Session.LoadSuccess` | src/pages/index.tsx:62-69 | shows the quiz screen with the new questions, one unanswered slot per question, the first question current and the start time recorded; nothing else changes |
| `Session.LoadFailure` | src/pages/index.tsx:70-79 | returns to the topic screen with the APIError's message, or the fixed generic message for other failures; nothing else changes |
| `Session.Retry` | src/pages/index.tsx:194-197 | reloads with the same topic and timer flag: the loading screen with the error cleared, and every other field, the previous result included, unchanged |
| `Session.SelectAnswer` | src/pages/index.tsx:84-89 | writes the choice into the current slot only; length, other slots, the current index and every other field stay as they were |
| `Session.SelectAnswerOverwrites` | src/pages/index.tsx:84-89 | a second choice on the same question replaces the first |
| `Session.Next` | src/pages/index.tsx:93-98 | advances by one, stopping at the last question; only the index changes and it stays in bounds |
| `Session.Prev` | src/pages/index.tsx:101-106 | goes back by one, stopping at the first question; only the index changes and it stays in bounds |
| `Session.TimeUp` | src/pages/index.tsx:109-117 | advances by one before the last question and leaves the state unchanged on the last one |
| `Session.TimeUpMovesLikeNext` | src/pages/index.tsx:93-117 | inside the bounds, the timer running out is the same update as the Next button |
| `Session.TimeUpOnLastQuestionKeepsQuizOpen` | src/pages/index.tsx:109-117 | on the last question, time running out does not submit: the quiz screen stays and no result appears |
| `Session.DetailOf` | src/pages/index.tsx:126-137 | an answer detail is correct exactly when a selection was made and equals the correct index, so an unanswered slot is never correct; it carries the question's id, text, correct index and explanation |
| `Session.Score` | src/pages/index.tsx:125-128 | the count accumulated by the scoring loop never exceeds the number of questions |
| `Session.ScoreCountsMatches` | src/pages/index.tsx:125-128 | the score equals the number of slots holding the correct index |
| `Session.RoundHalfUpNearest` | src/pages/index.tsx:140-141 | the rounding used for the percentage and the elapsed time picks the one integer r with r - 1/2 <= n/d < r + 1/2 |
| `Session.PercentageBounds` | src/pages/index.tsx:140 | the percentage lies in [0, 100]; all correct gives 100 and none correct gives 0 |
| `Session.Submitted` | src/pages/index.tsx:138-156 | shows the result screen with feedback pending and empty; the total is the question count; the score is the number of matching slots and lies in [0, total]; the percentage is `Math.round(100 * score / total)` and lies in [0, 100]; there is one detail per question, in order; nothing else changes |
| `Session.SubmitExample` | src/pages/index.tsx:125-140 | answers [0, 2, unanswered, 1] against correct indices [0, 1, 2, 1] score 2, which is 50% |
| `Session.Submit` | src/pages/index.tsx:120-176 | the scoring loop yields exactly the submitted state and the feedback request built from the same score, percentage and wrong answers |
| `Session.WrongAnswersCount` | src/pages/index.tsx:160-168 | the wrong-answer list has one entry per question not answered correctly |
| `Session.WrongAnswersComplete` | src/pages/index.tsx:160-168 | every detail that is not correct has its entry in the list |
| `Session.WrongAnswersSound` | src/pages/index.tsx:160-168 | every entry of the list belongs to a detail that is not correct |
| `Session.WrongAnswersLength` | src/pages/index.tsx:160-168 | the list has as many entries as there are details that are not correct |
| `Session.WrongCountMonotone` | src/pages/index.tsx:160-161 | a longer prefix of the details holds at least as many wrong ones |
| `Session.WrongAnswerPosition` | src/pages/index.tsx:160-168 | the entry of a wrong detail sits at the position given by the number of wrong details before it |
| `Session.WrongAnswersInOrder` | src/pages/index.tsx:160-168 | `filter` keeps order: the entry for an earlier wrong question comes before the entry for a later one |
| `Session.WrongAnswerNamesChosenOption` | src/pages/index.tsx:162-167 | an entry reports the text of the option chosen on its own question and that question's correct option text; an unanswered question is reported as "Not answered" |
| `Session.FindById` | src/pages/index.tsx:165 | `find` returns the first question with the id, or nothing when no question has it |
| `Session.WrongAnswersAsWritten` | src/pages/index.tsx:160-168 | the list as the source builds it, with each question looked up by id, has one entry per detail that is not correct, and is empty exactly when every detail is correct |
| `Session.AsWrittenAgreesWithDistinctIds` | src/pages/index.tsx:160-168 | when the question ids are distinct, the list as the source builds it equals the corrected list |
| `Session.AsWrittenAgreesWhenDistinct` | src/pages/index.tsx:160-168 | for a whole quiz with distinct ids, the source's list and the corrected list are equal |
| `Session.FeedbackRequestFor` | src/pages/index.tsx:160-176 | the request carries the topic, the question count, the score counted as matching slots, `Math.round(100 * score / total)`, and one wrong answer per question not answered correctly; with distinct ids its list is the one the source builds |
| `Session.DuplicateIdsMisreportWrongAnswer` | src/pages/index.tsx:165-167 | with two schema-valid questions sharing an id, the source reports the second question's wrong answer with the first question's option texts |
| `Session.FeedbackDone` | src/pages/index.tsx:178-190 | a feedback completion clears the loading flag and changes only the result's feedback text; the screen never changes, and no result is created when there is none |
| `Session.NewTopic` | src/pages/index.tsx:200-202 | every field is reset to the initial state |
| `Session.DismissError` | src/pages/index.tsx:252 | only the error is cleared |
| `Session.StepPreservesInv` | src/pages/index.tsx:45-202 | every enabled event keeps the invariant: one answer slot per question, the index in bounds, loaded questions schema-valid, the quiz screen never empty, a result on the result screen |
| `Session.Run` | src/pages/index.tsx:45-202 | every state reached by a sequence of enabled events satisfies the invariant |
| `Session.ReachableQuizInBounds` | src/pages/index.tsx:212-228 | in every reachable quiz screen the current index addresses an existing question, and there are as many slots as questions |
| `Session.RetryKeepsStaleResult` | src/pages/index.tsx:194-197 | after submit, retry and a new load, the quiz screen is shown while the earlier result is still held |
| `Session.SelectTopicFlow` | src/pages/index.tsx:45-81 | the loading update followed by the success update with the questions generateQuiz returned, or by the failure update with what it threw; generateQuiz obeys its key check and retry contract; the result is the quiz screen with a valid quiz or the topic screen with an error, and the invariant is kept |
| `Session.FeedbackFlow` | src/pages/index.tsx:158-191 | the result shows the text generateFeedback returned, or the fixed apology whenever it threw (after all 3 attempts with a key, at once without one); only the feedback and the loading flag change |

## Findings

| source | as written | input that shows it | evidently intended | confidence | as-written member | corrected member |
|---|---|---|---|---|---|---|
| src/pages/index.tsx:165-167 | each wrong answer's option texts are read from `questions.find(q => q.id === a.questionId)`, the first question with the same id | two schema-valid questions that both have id "q1", with the second answered wrongly (the schema does not require distinct ids) | each entry reports the chosen and correct option texts of its own question | medium; not executed | `Session.WrongAnswersAsWritten`, shown by `Session.DuplicateIdsMisreportWrongAnswer` | `Session.WrongAnswers`, proved by `Session.WrongAnswerNamesChosenOption`, `Session.WrongAnswersSound`, `Session.WrongAnswersComplete` and `Session.WrongAnswersInOrder`; `Session.Submit` sends this list |

## Left out

- Rendering (the screen switch in src/pages/index.tsx:208-263 and the
  components) is presentation only. So is the `answeredCount` display value.
- The QuestionCard countdown (`setInterval`) is real time. Only its effect is
  modelled, the `TimerExpired` event.
- The Gemini SDK is a foreign network call, modelled as the oracle `call`. The
  prompt templates are free text; the oracle stands for the model's reply to
  whichever prompt was sent, so the request parameters (topic, count,
  difficulty, seed, the wrong-answer list) do not reach it.
- `JSON.parse` and Zod's internals are foreign library code.
  - Parsing is the parameter `parse`.
  - Zod's error text is the constant `Api.SchemaErrorMessage`, which does not
    contain "API key".
  - JSON numbers are reals, with no NaN or Infinity.
  - String lengths count Unicode scalar values, where Zod counts UTF-16 code
    units.
- `Date.now()` and `setTimeout` are real time. Timestamps are parameters and
  waits are recorded delays.
- React's asynchronous ordering is a concurrency concern. Each completion is one
  atomic update. `handleSubmit`'s closure reads the state captured at render
  time; the model reads the current state.
- The startup `console.warn` is a module-level side effect.
- `Api.WithRetry`: a thrown non-Error falsy value (`throw null`), which would
  make `lastError || ...` throw "Max retries exceeded", is not modelled. Every
  wrapped function in this program throws APIError.
- `Session.SelectAnswer` requires the current index to address an existing
  slot. JavaScript would grow the array on a write past its end, but the
  handler only runs on the quiz screen, where `Session.StepPreservesInv` proves
  the index is in bounds.
- `Session.Submit` and `Session.Submitted` require a non-empty quiz and one slot
  per question. With no questions the source computes a NaN percentage, but
  submit only runs on the quiz screen, which the invariant proves non-empty.
- `Session.Submit` sends the corrected wrong-answer list `Session.WrongAnswers`,
  not the list index.tsx:160-168 builds with `questions.find`. The two differ
  only when question ids repeat (see "## Findings"). `Session.FeedbackRequestFor`
  proves they are equal when the ids are distinct.
- `Session.Submitted`: the percentage is computed exactly as a rational, not
  with IEEE doubles as `Math.round((score / total) * 100)` does.
- The `apiTimeout` and `defaultTimePerQuestion` constants are declared but not
  used by the core logic. `PREDEFINED_TOPICS` is display data.
