/**
 * The AI gateway (src/services/api.ts): the error type, the retry loop,
 * JSON extraction from free text, error classification, and the two calls
 * built from them.
 *
 * The Gemini model is an oracle `call: nat -> CallOutcome` that gives the
 * outcome of the k-th call (counting from 0); JSON.parse is a parameter
 * `parse: string -> Option<Json>` (None where it throws a SyntaxError).
 * Waits are not performed: the retry loop returns the delays it requested.
 */
module Api {
  import opened Wrappers
  import opened QuizTypes

  // ---------------------------------------------------------------------------
  // Thrown values

  /** What kind of Error object was thrown. */
  datatype ErrorKind =
    | SyntaxError
    | APIErrorKind(status: Option<int>, retryable: bool)
    | PlainError

  /** A thrown value: an Error object with its message, or anything else. */
  datatype Thrown = Error(kind: ErrorKind, message: string) | NonError

  predicate IsAPIError(e: Thrown) {
    e.Error? && e.kind.APIErrorKind?
  }

  /** The test in withRetry that stops retrying: an APIError whose `retryable` is false. */
  predicate IsFatal(e: Thrown) {
    IsAPIError(e) && !e.kind.retryable
  }

  /** `new APIError(message, status?, retryable = true)` */
  function NewAPIError(message: string, status: Option<int> := None, retryable: bool := true): (e: Thrown)
    ensures IsAPIError(e) && e.message == message && e.kind.status == status
    ensures IsFatal(e) <==> !retryable
  {
    Error(APIErrorKind(status, retryable), message)
  }

  /** An APIError built without a `retryable` argument is retried. */
  lemma APIErrorRetryableByDefault(message: string, status: Option<int>)
    ensures !IsFatal(NewAPIError(message, status))
    ensures !IsFatal(NewAPIError(message))
  {
  }

  /** What a call of the wrapped function gives back. */
  datatype Outcome<T> = Returned(value: T) | Threw(error: Thrown)

  // ---------------------------------------------------------------------------
  // withRetry

  function Pow2(k: nat): nat {
    if k == 0 then 1 else 2 * Pow2(k - 1)
  }

  /** The waits requested before attempts 2 .. n+1: `delay * 2^k` before attempt k+2. */
  function Backoff(delay: int, n: nat): seq<int> {
    seq(n, k requires 0 <= k < n => delay * Pow2(k))
  }

  /** Attempt `k` failed with an error that withRetry retries. */
  predicate Retried<T>(fn: nat -> Outcome<T>, k: int) {
    0 <= k && fn(k).Threw? && !IsFatal(fn(k).error)
  }

  const MaxRetriesExceeded: Thrown := NewAPIError("Max retries exceeded")

  /**
   * What `withRetry(fn, maxRetries, delay)` does, stated over the outcomes
   * `fn(0), fn(1), ...` of its attempts: `r` is what it returns or throws,
   * `calls` how often it invoked `fn`, `waits` the delays it slept.
   */
  ghost predicate RetryContract<T>(fn: nat -> Outcome<T>, maxRetries: int, delay: int,
                                   r: Outcome<T>, calls: nat, waits: seq<int>)
  {
    && (maxRetries <= 0 ==> calls == 0 && waits == [] && r == Threw(MaxRetriesExceeded))
    && (maxRetries > 0 ==>
      // fn is called at least once and at most maxRetries times
      && 1 <= calls <= maxRetries
      // every attempt but the last failed with an error that may be retried
      && (forall k :: 0 <= k < calls - 1 ==> Retried(fn, k))
      // it stops early only on a success or on a non-retryable APIError
      && (calls < maxRetries ==> fn(calls - 1).Returned? || IsFatal(fn(calls - 1).error))
      // what the last attempt gave is passed on unchanged: the value, the fatal error, or the last error
      && r == fn(calls - 1)
      // one wait between consecutive attempts, doubling each time, none after the last
      && waits == Backoff(delay, calls - 1))
  }

  method WithRetry<T>(fn: nat -> Outcome<T>, maxRetries: int, delay: int)
    returns (r: Outcome<T>, calls: nat, waits: seq<int>)
    ensures RetryContract(fn, maxRetries, delay, r, calls, waits)
  {
    var lastError: Option<Thrown> := None;
    calls, waits := 0, [];
    var attempt: nat := 0;
    while attempt < maxRetries
      invariant calls == attempt
      invariant maxRetries > 0 ==> attempt <= maxRetries
      invariant maxRetries <= 0 ==> attempt == 0
      invariant forall k :: 0 <= k < attempt ==> Retried(fn, k)
      invariant attempt == 0 ==> lastError == None
      invariant attempt > 0 ==> Retried(fn, attempt - 1) && lastError == Some(fn(attempt - 1).error)
      invariant waits == Backoff(delay, if 0 < attempt == maxRetries then attempt - 1 else attempt)
    {
      var outcome := fn(attempt);
      calls := calls + 1;
      if outcome.Returned? {
        r := outcome;
        assert waits == Backoff(delay, calls - 1);
        return;
      }
      lastError := Some(outcome.error);
      if IsFatal(outcome.error) {
        r := Threw(outcome.error);
        assert waits == Backoff(delay, calls - 1);
        return;
      }
      if attempt < maxRetries - 1 {
        waits := waits + [delay * Pow2(attempt)];
        assert waits == Backoff(delay, attempt + 1);
      }
      attempt := attempt + 1;
    }
    r := Threw(if lastError.Some? then lastError.value else MaxRetriesExceeded);
  }

  /** The contract pins down one behaviour: two runs on the same outcomes agree. */
  lemma RetryContractDeterministic<T>(fn: nat -> Outcome<T>, maxRetries: int, delay: int,
                                      r1: Outcome<T>, calls1: nat, waits1: seq<int>,
                                      r2: Outcome<T>, calls2: nat, waits2: seq<int>)
    requires RetryContract(fn, maxRetries, delay, r1, calls1, waits1)
    requires RetryContract(fn, maxRetries, delay, r2, calls2, waits2)
    ensures r1 == r2 && calls1 == calls2 && waits1 == waits2
  {
    if maxRetries > 0 {
      // an earlier stop of one run is an attempt the other run retried
      var last1, last2: int := calls1 - 1, calls2 - 1;
      assert calls1 < calls2 ==> Retried(fn, last1);
      assert calls2 < calls1 ==> Retried(fn, last2);
    }
  }

  /** A non-retryable APIError on the first attempt is thrown at once: one call, no wait. */
  lemma FatalFirstAttemptStops<T>(fn: nat -> Outcome<T>, maxRetries: int, delay: int,
                                  r: Outcome<T>, calls: nat, waits: seq<int>)
    requires RetryContract(fn, maxRetries, delay, r, calls, waits)
    requires maxRetries > 0 && fn(0).Threw? && IsFatal(fn(0).error)
    ensures calls == 1 && waits == [] && r == fn(0)
  {
    assert calls > 1 ==> Retried(fn, 0);
  }

  /** A first success is returned unchanged, after one call and no wait. */
  lemma FirstSuccessReturned<T>(fn: nat -> Outcome<T>, maxRetries: int, delay: int,
                                r: Outcome<T>, calls: nat, waits: seq<int>)
    requires RetryContract(fn, maxRetries, delay, r, calls, waits)
    requires maxRetries > 0 && fn(0).Returned?
    ensures calls == 1 && waits == [] && r == fn(0)
  {
    assert calls > 1 ==> Retried(fn, 0);
  }

  /**
   * With the configured 3 attempts and 1000 ms, attempts that all fail with
   * retryable errors give three calls, waits of 1000 then 2000 ms, and the
   * third error.
   */
  lemma ExhaustedWithConfig<T>(fn: nat -> Outcome<T>, r: Outcome<T>, calls: nat, waits: seq<int>)
    requires forall k :: 0 <= k < MaxRetries ==> Retried(fn, k)
    requires RetryContract(fn, MaxRetries, RetryDelay, r, calls, waits)
    ensures calls == 3 && waits == [1000, 2000] && r == fn(2)
  {
    assert Retried(fn, calls - 1);
    assert Pow2(1) == 2;
  }

  // ---------------------------------------------------------------------------
  // extractJSON: the regular expression /\{[\s\S]*\}/ (leftmost, greedy)

  /** `s.indexOf(c)` */
  function IndexOf(s: string, c: char): (r: int)
    ensures -1 <= r < |s|
    ensures r >= 0 ==> s[r] == c && forall k :: 0 <= k < r ==> s[k] != c
    ensures r == -1 ==> forall k :: 0 <= k < |s| ==> s[k] != c
  {
    if |s| == 0 then -1
    else if s[0] == c then 0
    else
      var r := IndexOf(s[1..], c);
      if r == -1 then -1 else r + 1
  }

  /** `s.lastIndexOf(c)` */
  function LastIndexOf(s: string, c: char): (r: int)
    ensures -1 <= r < |s|
    ensures r >= 0 ==> s[r] == c && forall k :: r < k < |s| ==> s[k] != c
    ensures r == -1 ==> forall k :: 0 <= k < |s| ==> s[k] != c
  {
    if |s| == 0 then -1
    else if s[|s| - 1] == c then |s| - 1
    else LastIndexOf(s[..|s| - 1], c)
  }

  /** `t` holds a `{` with a `}` somewhere after it: what the pattern needs to match. */
  predicate HasBracePair(t: string) {
    exists i, j :: 0 <= i < j < |t| && t[i] == '{' && t[j] == '}'
  }

  /** `i` is the position of the first `c` in `t`. */
  predicate FirstAt(t: string, c: char, i: int) {
    0 <= i < |t| && t[i] == c && forall k :: 0 <= k < i ==> t[k] != c
  }

  /** `j` is the position of the last `c` in `t`. */
  predicate LastAt(t: string, c: char, j: int) {
    0 <= j < |t| && t[j] == c && forall k :: j < k < |t| ==> t[k] != c
  }

  /** `r` occurs in `t` at position `k`. */
  predicate SubstringAt(r: string, t: string, k: int) {
    0 <= k && k + |r| <= |t| && t[k..k + |r|] == r
  }

  function ExtractJSON(text: string): (r: string)
    // the span from the first `{` to the last `}`, both included, when there is such a span
    ensures forall i, j :: FirstAt(text, '{', i) && LastAt(text, '}', j) && i < j ==> r == text[i..j + 1]
    ensures HasBracePair(text) ==> 2 <= |r| && r[0] == '{' && r[|r| - 1] == '}'
    // otherwise the text itself
    ensures !HasBracePair(text) ==> r == text
    ensures exists k :: SubstringAt(r, text, k)
  {
    var i := IndexOf(text, '{');
    var j := LastIndexOf(text, '}');
    if 0 <= i < j then
      assert SubstringAt(text[i..j + 1], text, i);
      text[i..j + 1]
    else
      assert SubstringAt(text, text, 0);
      text
  }

  /** Extracting twice is extracting once. */
  lemma ExtractJSONIdempotent(text: string)
    ensures ExtractJSON(ExtractJSON(text)) == ExtractJSON(text)
  {
    var r := ExtractJSON(text);
    if HasBracePair(text) {
      assert FirstAt(r, '{', 0);
      assert LastAt(r, '}', |r| - 1);
      assert r[0..|r| - 1 + 1] == r;
    }
  }

  /**
   * A reply with prose around the object still yields exactly the object,
   * whatever braces the object nests inside, as long as the prose before it
   * has no `{` and the prose after it no `}`.
   */
  lemma ExtractJSONStripsCommentary(before: string, body: string, after: string)
    requires forall k :: 0 <= k < |before| ==> before[k] != '{'
    requires forall k :: 0 <= k < |after| ==> after[k] != '}'
    ensures ExtractJSON(before + "{" + body + "}" + after) == "{" + body + "}"
  {
    var t := before + "{" + body + "}" + after;
    var i, j := |before|, |before| + |body| + 1;
    assert FirstAt(t, '{', i) by {
      forall k | 0 <= k < i ensures t[k] != '{' { assert t[k] == before[k]; }
    }
    assert LastAt(t, '}', j) by {
      forall k | j < k < |t| ensures t[k] != '}' { assert t[k] == after[k - j - 1]; }
    }
    assert t[i..j + 1] == "{" + body + "}";
  }

  // ---------------------------------------------------------------------------
  // The API key precondition

  const PlaceholderKey: string := "your_api_key_here"
  const KeyNotConfiguredMessage: string := "Gemini API key not configured. Please add your key to .env file."

  /** `API_KEY` is set, non-empty and not the placeholder (`!API_KEY` is true for undefined and ""). */
  predicate KeyConfigured(apiKey: Option<string>) {
    apiKey.Some? && apiKey.value != "" && apiKey.value != PlaceholderKey
  }

  const KeyNotConfigured: Thrown := NewAPIError(KeyNotConfiguredMessage, Some(401), false)

  // ---------------------------------------------------------------------------
  // Error classification in the catch blocks

  /** `s.includes(t)` */
  predicate Contains(s: string, t: string)
    decreases |s|
  {
    |t| <= |s| && (s[..|t|] == t || (|s| > 0 && Contains(s[1..], t)))
  }

  /** A text in which the first character of `t` never occurs does not contain `t`. */
  lemma {:induction false} NotContainsWithoutFirstChar(s: string, t: string)
    requires |t| > 0 && forall k :: 0 <= k < |s| ==> s[k] != t[0]
    ensures !Contains(s, t)
    decreases |s|
  {
    if |t| <= |s| {
      assert s[..|t|][0] == s[0];
      if |s| > 0 {
        NotContainsWithoutFirstChar(s[1..], t);
      }
    }
  }

  /** `error instanceof Error ? error.message : 'Unknown error'` */
  function MessageOf(e: Thrown): string {
    if e.Error? then e.message else "Unknown error"
  }

  const ParseFailureMessage: string := "Failed to parse AI response as JSON"

  /** The catch block of generateQuiz. */
  function ClassifyQuizError(e: Thrown): (a: Thrown)
    ensures IsAPIError(a)
    ensures e.Error? && e.kind.SyntaxError? ==> a == NewAPIError(ParseFailureMessage, Some(500), true)
    ensures IsFatal(a) <==> e.Error? && !e.kind.SyntaxError? && Contains(e.message, "API key")
    ensures a.kind.status == if IsFatal(a) then Some(401) else Some(500)
  {
    if e.Error? && e.kind.SyntaxError? then
      NewAPIError(ParseFailureMessage, Some(500), true)
    else if e.Error? && Contains(e.message, "API key") then
      NewAPIError("Invalid Gemini API key", Some(401), false)
    else
      NewAPIError("Failed to generate quiz: " + MessageOf(e), Some(500), true)
  }

  /** The catch block of generateFeedback: it has no 401 branch, so every failure is retried. */
  function ClassifyFeedbackError(e: Thrown): (a: Thrown)
    ensures IsAPIError(a) && !IsFatal(a) && a.kind.status == Some(500)
    ensures e.Error? && e.kind.SyntaxError? ==> a.message == ParseFailureMessage
  {
    if e.Error? && e.kind.SyntaxError? then
      NewAPIError(ParseFailureMessage, Some(500), true)
    else
      NewAPIError("Failed to generate feedback: " + MessageOf(e), Some(500), true)
  }

  // ---------------------------------------------------------------------------
  // One attempt: call the model, extract, parse, validate

  /** What one `model.generateContent(prompt)` followed by `response.text()` gives. */
  datatype CallOutcome = Text(text: string) | Throws(error: Thrown)

  /**
   * The message Zod puts on the error it throws. Zod formats its issue list
   * here; that text is not modelled, only that it never mentions an API key.
   */
  const SchemaErrorMessage: string := "schema validation failed"

  /** The value JSON.parse gives for the reply of one call, if it gives one. */
  function ParsedReply(o: CallOutcome, parse: string -> Option<Json>): Option<Json>
    requires o.Text?
  {
    parse(ExtractJSON(o.text))
  }

  /** The body of the function generateQuiz hands to withRetry. */
  function QuizAttempt(o: CallOutcome, parse: string -> Option<Json>): (r: Outcome<seq<Question>>)
    ensures r.Returned? <==> o.Text? && ParsedReply(o, parse).Some? && QuizResponseSchema(ParsedReply(o, parse).value)
    ensures r.Returned? ==> ValidQuiz(r.value) && Some(r.value) == ParseQuizResponse(ParsedReply(o, parse).value)
    ensures r.Threw? ==> IsAPIError(r.error)
    // a failure of the call itself goes through the catch block, so an "API key" error is fatal and nothing else is
    ensures o.Throws? ==> r == Threw(ClassifyQuizError(o.error))
    ensures r.Threw? && IsFatal(r.error) <==>
              o.Throws? && o.error.Error? && !o.error.kind.SyntaxError? && Contains(o.error.message, "API key")
  {
    match o
    case Throws(e) => Threw(ClassifyQuizError(e))
    case Text(t) =>
      match parse(ExtractJSON(t))
      case None => Threw(ClassifyQuizError(Error(SyntaxError, "JSON.parse")))
      case Some(j) =>
        match ParseQuizResponse(j)
        case None =>
          NotContainsWithoutFirstChar(SchemaErrorMessage, "API key");
          Threw(ClassifyQuizError(Error(PlainError, SchemaErrorMessage)))
        case Some(qs) => Returned(qs)
  }

  /** The body of the function generateFeedback hands to withRetry. */
  function FeedbackAttempt(o: CallOutcome, parse: string -> Option<Json>): (r: Outcome<string>)
    ensures r.Returned? <==> o.Text? && ParsedReply(o, parse).Some? && FeedbackResponseSchema(ParsedReply(o, parse).value)
    ensures r.Returned? ==> |r.value| >= MinFeedbackLength
    ensures r.Returned? ==> Some(r.value) == ParseFeedbackResponse(ParsedReply(o, parse).value)
    ensures r.Threw? ==> IsAPIError(r.error) && !IsFatal(r.error)
    ensures o.Throws? ==> r == Threw(ClassifyFeedbackError(o.error))
  {
    match o
    case Throws(e) => Threw(ClassifyFeedbackError(e))
    case Text(t) =>
      match parse(ExtractJSON(t))
      case None => Threw(ClassifyFeedbackError(Error(SyntaxError, "JSON.parse")))
      case Some(j) =>
        match ParseFeedbackResponse(j)
        case None => Threw(ClassifyFeedbackError(Error(PlainError, SchemaErrorMessage)))
        case Some(text) => Returned(text)
  }

  function QuizAttempts(call: nat -> CallOutcome, parse: string -> Option<Json>): nat -> Outcome<seq<Question>> {
    (k: nat) => QuizAttempt(call(k), parse)
  }

  function FeedbackAttempts(call: nat -> CallOutcome, parse: string -> Option<Json>): nat -> Outcome<string> {
    (k: nat) => FeedbackAttempt(call(k), parse)
  }

  // ---------------------------------------------------------------------------
  // generateQuiz and generateFeedback

  method GenerateQuiz(apiKey: Option<string>, call: nat -> CallOutcome, parse: string -> Option<Json>)
    returns (r: Outcome<seq<Question>>, calls: nat, waits: seq<int>)
    // without a usable key: a non-retryable 401, and the model is never called
    ensures !KeyConfigured(apiKey) ==> r == Threw(KeyNotConfigured) && calls == 0 && waits == []
    ensures KeyConfigured(apiKey) ==> RetryContract(QuizAttempts(call, parse), MaxRetries, RetryDelay, r, calls, waits)
    ensures calls <= MaxRetries
    // what comes back passed the quiz schema; what is thrown is always an APIError
    ensures r.Returned? ==> ValidQuiz(r.value)
    ensures r.Threw? ==> IsAPIError(r.error)
  {
    if !KeyConfigured(apiKey) {
      return Threw(KeyNotConfigured), 0, [];
    }
    r, calls, waits := WithRetry(QuizAttempts(call, parse), MaxRetries, RetryDelay);
    assert r == QuizAttempt(call(calls - 1), parse);
  }

  method GenerateFeedback(apiKey: Option<string>, call: nat -> CallOutcome, parse: string -> Option<Json>)
    returns (r: Outcome<string>, calls: nat, waits: seq<int>)
    ensures !KeyConfigured(apiKey) ==> r == Threw(KeyNotConfigured) && calls == 0 && waits == []
    ensures KeyConfigured(apiKey) ==> RetryContract(FeedbackAttempts(call, parse), MaxRetries, RetryDelay, r, calls, waits)
    ensures r.Returned? ==> |r.value| >= MinFeedbackLength
    ensures r.Threw? ==> IsAPIError(r.error)
    // every failure after the key check is retried: a configured call fails only after all three attempts
    ensures KeyConfigured(apiKey) && r.Threw? ==> calls == MaxRetries && waits == [1000, 2000]
  {
    if !KeyConfigured(apiKey) {
      return Threw(KeyNotConfigured), 0, [];
    }
    r, calls, waits := WithRetry(FeedbackAttempts(call, parse), MaxRetries, RetryDelay);
    assert r == FeedbackAttempt(call(calls - 1), parse);
    if r.Threw? {
      assert calls == MaxRetries;
      assert Pow2(1) == 2;
    }
  }
}
