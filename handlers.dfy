/**
 * Model of the three HTTP handlers in functions/main.py: `detectAIText`,
 * `summarizeText` and `generateText`.
 *
 * Each handler is split in two. A `Decide...` function makes the pure
 * early-return decision from the method and the request body: 204, 405, 400,
 * 500, or a call of the core with the validated arguments and the input to
 * log. `Respond` then runs the core call and the store write. The store
 * write's outcome is recorded but never reaches the response.
 *
 * The parsed JSON body is abstracted field by field. A field is missing,
 * present with the value Python's conversion (`.strip()`, `float()`,
 * `int()`) produces, or invalid when that conversion raises.
 */
module Handlers {
  import opened Wrappers
  import opened PyText
  import opened Detection
  import Generation

  // ---------------------------------------------------------------------
  // Requests
  // ---------------------------------------------------------------------

  /** One field of the JSON body, as seen through its conversion. */
  datatype Field<T> = Missing | Present(value: T) | Invalid(error: string)

  /** The parsed body: `get_json()` raised or gave a non-object, or an object. */
  datatype Body =
    | NotAnObject(error: string)
    | Object(
        text: Field<string>,
        prompt: Field<string>,
        ratio: Field<real>,
        format: Option<string>,
        tone: Option<string>,
        maxLength: Field<int>,
        temperature: Field<real>)

  datatype Request = Request(verb: string, body: Body)

  /** A Python evaluation step: a value, or the message of the exception it raised. */
  datatype Outcome<T> = Ok(value: T) | Raised(error: string)

  /** A body that submits no text: the field is absent or only whitespace. */
  predicate SubmitsBlank(f: Field<string>) {
    f.Missing? || (f.Present? && forall i :: 0 <= i < |f.value| ==> IsSpace(f.value[i]))
  }

  /** `data.get(key, '').strip()`: a stripped string, empty exactly for a blank field. */
  function StrippedOrEmpty(f: Field<string>): (o: Outcome<string>)
    ensures o.Raised? <==> f.Invalid?
    ensures f.Missing? ==> o == Ok("")
    ensures f.Present? ==> o == Ok(Strip(f.value))
    ensures o.Ok? ==> Strip(o.value) == o.value
  {
    match f
    case Missing => Ok("")
    case Present(s) => StripIdempotent(s); Ok(Strip(s))
    case Invalid(e) => Raised(e)
  }

  /** The stripped field is empty exactly when the field is blank or absent. */
  lemma StrippedEmptyIffBlank(f: Field<string>)
    ensures StrippedOrEmpty(f) == Ok("") <==> SubmitsBlank(f)
  {
    if f.Present? { StripEmptyIffAllSpace(f.value); }
  }

  /** `conv(data.get(key, default))`. */
  function ConvertedOr<T>(f: Field<T>, default: T): Outcome<T> {
    match f
    case Missing => Ok(default)
    case Present(v) => Ok(v)
    case Invalid(e) => Raised(e)
  }

  /** `data.get(key, default)` for a field that is never converted. */
  function OrDefault(f: Option<string>, default: string): string {
    match f
    case None => default
    case Some(v) => v
  }

  /*
   * Reading one field of the body. When `get_json()` raised, or gave
   * something without `.get`, the first read raises; later reads are then
   * never reached.
   */

  function ReadText(body: Body): Outcome<string> {
    match body
    case NotAnObject(e) => Raised(e)
    case Object(text, _, _, _, _, _, _) => StrippedOrEmpty(text)
  }

  function ReadPrompt(body: Body): Outcome<string> {
    match body
    case NotAnObject(e) => Raised(e)
    case Object(_, prompt, _, _, _, _, _) => StrippedOrEmpty(prompt)
  }

  function ReadRatio(body: Body): Outcome<real> {
    match body
    case NotAnObject(e) => Raised(e)
    case Object(_, _, ratio, _, _, _, _) => ConvertedOr(ratio, 0.5)
  }

  function ReadMaxLength(body: Body): Outcome<int> {
    match body
    case NotAnObject(e) => Raised(e)
    case Object(_, _, _, _, _, maxLength, _) => ConvertedOr(maxLength, 500)
  }

  function ReadTemperature(body: Body): Outcome<real> {
    match body
    case NotAnObject(e) => Raised(e)
    case Object(_, _, _, _, _, _, temperature) => ConvertedOr(temperature, 0.7)
  }

  function ReadFormat(body: Body): string {
    match body
    case NotAnObject(_) => "paragraph"
    case Object(_, _, _, format, _, _, _) => OrDefault(format, "paragraph")
  }

  function ReadTone(body: Body): string {
    match body
    case NotAnObject(_) => "formal"
    case Object(_, _, _, _, tone, _, _) => OrDefault(tone, "formal")
  }

  // ---------------------------------------------------------------------
  // Decisions
  // ---------------------------------------------------------------------

  const MethodNotAllowedMessage: string := "Method not allowed"
  const NoTextMessage: string := "No text provided"
  const TooShortMessage: string := "Text must be at least 50 characters"
  const NoPromptMessage: string := "No prompt provided"
  const InternalErrorPrefix: string := "Internal server error: "

  /** The shortest text detection accepts, in characters. */
  const MinDetectionLength: nat := 50
  /** The longest input snippet stored for detection and summaries. */
  const SnippetLength: nat := 500

  /** What a handler does before any core call is made. */
  datatype Decision<A> =
    | NoContent
    | MethodNotAllowed
    | BadRequest(message: string)
    | InternalError(detail: string)
    | Call(args: A, logInput: string)

  datatype SummarizeArgs = SummarizeArgs(text: string, ratio: real, format: string)
  datatype GenerateArgs = GenerateArgs(prompt: string, tone: string, maxLength: int, temperature: real)

  /** The method checks every handler makes first, before reading the body. */
  function DecideMethod<A>(verb: string, posted: Decision<A>): (d: Decision<A>)
    requires !posted.NoContent? && !posted.MethodNotAllowed?
    ensures d.NoContent? <==> verb == "OPTIONS"
    ensures d.MethodNotAllowed? <==> verb != "OPTIONS" && verb != "POST"
    ensures verb == "POST" ==> d == posted
  {
    if verb == "OPTIONS" then NoContent
    else if verb != "POST" then MethodNotAllowed
    else posted
  }

  /**
   * The checks `detectAIText` makes on the stripped text of a POST: an
   * exception gives 500, empty text and text under 50 characters give 400
   * with their own messages, and only the rest reaches `predict`.
   */
  function ValidateDetect(text: Outcome<string>): (d: Decision<string>)
    ensures !d.NoContent? && !d.MethodNotAllowed?
    ensures d.InternalError? <==> text.Raised?
    ensures d == BadRequest(NoTextMessage) <==> text == Ok("")
    ensures d == BadRequest(TooShortMessage) <==> text.Ok? && 0 < |text.value| < MinDetectionLength
    ensures d.Call? <==> text.Ok? && |text.value| >= MinDetectionLength
    ensures d.Call? ==> d.args == text.value && d.logInput == Take(d.args, SnippetLength)
  {
    assert NoTextMessage != TooShortMessage by { assert NoTextMessage[0] != TooShortMessage[0]; }
    match text
    case Raised(e) => InternalError(e)
    case Ok(t) =>
      if t == [] then BadRequest(NoTextMessage)
      else if |t| < MinDetectionLength then BadRequest(TooShortMessage)
      else Call(t, Take(t, SnippetLength))
  }

  /** The early-return logic of `detectAIText`. */
  function DecideDetect(req: Request): Decision<string> {
    DecideMethod(req.verb, ValidateDetect(ReadText(req.body)))
  }

  /**
   * The checks `summarizeText` makes on a POST. The text is stripped and
   * the ratio converted before the emptiness check, so a bad ratio gives
   * 500 even without text; there is no minimum length.
   */
  function ValidateSummarize(text: Outcome<string>, ratio: Outcome<real>, format: string): (d: Decision<SummarizeArgs>)
    ensures !d.NoContent? && !d.MethodNotAllowed?
    ensures d.InternalError? <==> text.Raised? || ratio.Raised?
    ensures d.BadRequest? <==> text == Ok("") && ratio.Ok?
    ensures d.BadRequest? ==> d.message == NoTextMessage
    ensures d.Call? ==>
      && text.Ok? && ratio.Ok? && text.value != []
      && d.args == SummarizeArgs(text.value, ratio.value, format)
      && d.logInput == Take(text.value, SnippetLength)
  {
    match text
    case Raised(e) => InternalError(e)
    case Ok(t) =>
      match ratio
      case Raised(e) => InternalError(e)
      case Ok(r) =>
        if t == [] then BadRequest(NoTextMessage)
        else Call(SummarizeArgs(t, r, format), Take(t, SnippetLength))
  }

  /** The early-return logic of `summarizeText`. */
  function DecideSummarize(req: Request): Decision<SummarizeArgs> {
    DecideMethod(req.verb,
      ValidateSummarize(ReadText(req.body), ReadRatio(req.body), ReadFormat(req.body)))
  }

  /**
   * The checks `generateText` makes on a POST. The prompt is stripped and
   * the numbers converted before the emptiness check; `maxLength` and
   * `temperature` are not range-checked. The whole prompt is logged.
   */
  function ValidateGenerate(prompt: Outcome<string>, tone: string, maxLength: Outcome<int>,
                            temperature: Outcome<real>): (d: Decision<GenerateArgs>)
    ensures !d.NoContent? && !d.MethodNotAllowed?
    ensures d.InternalError? <==> prompt.Raised? || maxLength.Raised? || temperature.Raised?
    ensures d.BadRequest? <==> prompt == Ok("") && maxLength.Ok? && temperature.Ok?
    ensures d.BadRequest? ==> d.message == NoPromptMessage
    ensures d.Call? ==>
      && prompt.Ok? && maxLength.Ok? && temperature.Ok? && prompt.value != []
      && d.args == GenerateArgs(prompt.value, tone, maxLength.value, temperature.value)
      && d.logInput == prompt.value
  {
    match prompt
    case Raised(e) => InternalError(e)
    case Ok(p) =>
      match maxLength
      case Raised(e) => InternalError(e)
      case Ok(m) =>
        match temperature
        case Raised(e) => InternalError(e)
        case Ok(t) =>
          if p == [] then BadRequest(NoPromptMessage)
          else Call(GenerateArgs(p, tone, m, t), p)
  }

  /** The early-return logic of `generateText`. */
  function DecideGenerate(req: Request): Decision<GenerateArgs> {
    DecideMethod(req.verb,
      ValidateGenerate(ReadPrompt(req.body), ReadTone(req.body),
                       ReadMaxLength(req.body), ReadTemperature(req.body)))
  }

  // ---------------------------------------------------------------------
  // Responses and the store
  // ---------------------------------------------------------------------

  /** What a core call gives back: its result, or the message of an exception. */
  datatype Reply<P> = Returned(result: P) | CoreRaised(message: string)

  datatype Payload<P> = Empty | ErrorMessage(error: string) | ResultOf(value: P)
  datatype Response<P> = Response(status: nat, payload: Payload<P>)

  /** The document added to the `results` collection (the timestamp is left out). */
  datatype LogRecord<P> = LogRecord(kind: string, input: string, output: P)
  datatype StoreOutcome = Stored | StoreRaised(message: string)
  datatype Write<P> = Write(record: LogRecord<P>, outcome: StoreOutcome)

  /** A handled request: the response sent and the store write attempted, if any. */
  datatype Handled<P> = Handled(response: Response<P>, write: Option<Write<P>>)

  function InternalErrorResponse<P>(detail: string): Response<P> {
    Response(500, ErrorMessage(InternalErrorPrefix + detail))
  }

  /**
   * Carry out a decision: the core is called only for `Call`, the store only
   * after the core returned, and the store's outcome is caught and dropped.
   */
  function Respond<A, P>(d: Decision<A>, kind: string, core: A -> Reply<P>,
                         persist: LogRecord<P> -> StoreOutcome): (h: Handled<P>)
    ensures h.response.status in {200, 204, 400, 405, 500}
    ensures h.response.status == 204 <==> d.NoContent?
    ensures h.response.status == 204 ==> h.response.payload == Empty
    ensures h.response.status == 405 <==> d.MethodNotAllowed?
    ensures d.MethodNotAllowed? ==> h.response.payload == ErrorMessage(MethodNotAllowedMessage)
    ensures h.response.status == 400 <==> d.BadRequest?
    ensures d.BadRequest? ==> h.response.payload == ErrorMessage(d.message)
    ensures h.response.status == 500 <==> d.InternalError? || (d.Call? && core(d.args).CoreRaised?)
    ensures d.InternalError? ==> h.response.payload == ErrorMessage(InternalErrorPrefix + d.detail)
    ensures d.Call? && core(d.args).CoreRaised? ==>
      h.response.payload == ErrorMessage(InternalErrorPrefix + core(d.args).message)
    ensures h.response.status == 200 <==> d.Call? && core(d.args).Returned?
    ensures h.write.Some? <==> h.response.status == 200
    ensures d.Call? && core(d.args).Returned? ==>
      && h.response.payload == ResultOf(core(d.args).result)
      && h.write.value.record == LogRecord(kind, d.logInput, core(d.args).result)
      && h.write.value.outcome == persist(h.write.value.record)
  {
    match d
    case NoContent => Handled(Response(204, Empty), None)
    case MethodNotAllowed => Handled(Response(405, ErrorMessage(MethodNotAllowedMessage)), None)
    case BadRequest(m) => Handled(Response(400, ErrorMessage(m)), None)
    case InternalError(e) => Handled(InternalErrorResponse(e), None)
    case Call(args, logInput) =>
      match core(args)
      case CoreRaised(e) => Handled(InternalErrorResponse(e), None)
      case Returned(p) =>
        var record := LogRecord(kind, logInput, p);
        Handled(Response(200, ResultOf(p)), Some(Write(record, persist(record))))
  }

  // ---------------------------------------------------------------------
  // The three handlers
  // ---------------------------------------------------------------------

  /** `detectAIText`, calling `AIDetector.predict` with the given oracles. */
  function DetectAIText(req: Request, o: Oracles,
                        persist: LogRecord<DetectionResult> -> StoreOutcome): (h: Handled<DetectionResult>)
    ensures h.response.status == 204 <==> req.verb == "OPTIONS"
    ensures h.response.status == 405 <==> req.verb != "OPTIONS" && req.verb != "POST"
    ensures h.response.status == 200 <==> DecideDetect(req).Call?
    ensures h.response.status == 400 <==> DecideDetect(req).BadRequest?
    ensures h.response.status == 400 ==> h.response.payload == ErrorMessage(DecideDetect(req).message)
    ensures h.response.status == 500 <==> DecideDetect(req).InternalError?
    ensures h.response.status == 500 ==>
      h.response.payload == ErrorMessage(InternalErrorPrefix + DecideDetect(req).detail)
    ensures h.write.Some? <==> h.response.status == 200
    ensures h.response.status == 200 ==>
      var t := DecideDetect(req).args;
      && |t| >= MinDetectionLength
      && h.response.payload == ResultOf(Predict(t, o))
      && h.write.value.record == LogRecord("detection", Take(t, SnippetLength), Predict(t, o))
  {
    Respond(DecideDetect(req), "detection", (t: string) => Returned(Predict(t, o)), persist)
  }

  /** `summarizeText`, calling the summariser given as `summarize`. */
  function SummarizeText<S>(req: Request, summarize: SummarizeArgs -> Reply<S>,
                            persist: LogRecord<S> -> StoreOutcome): (h: Handled<S>)
    ensures h.response.status == 204 <==> req.verb == "OPTIONS"
    ensures h.response.status == 405 <==> req.verb != "OPTIONS" && req.verb != "POST"
    ensures h.response.status == 400 <==> DecideSummarize(req).BadRequest?
    ensures h.response.status == 400 ==> h.response.payload == ErrorMessage(NoTextMessage)
    ensures var d := DecideSummarize(req);
      h.response.status == 500 <==> d.InternalError? || (d.Call? && summarize(d.args).CoreRaised?)
    ensures var d := DecideSummarize(req);
      h.response.status == 500 ==> h.response.payload == ErrorMessage(InternalErrorPrefix +
        if d.InternalError? then d.detail else summarize(d.args).message)
    ensures h.write.Some? <==> h.response.status == 200
    ensures h.response.status == 200 ==>
      var d := DecideSummarize(req);
      && d.Call? && summarize(d.args).Returned?
      && h.response.payload == ResultOf(summarize(d.args).result)
      && h.write.value.record == LogRecord("summary", Take(d.args.text, SnippetLength), summarize(d.args).result)
  {
    Respond(DecideSummarize(req), "summary", summarize, persist)
  }

  /** `generateText`, calling the generator given as `generate`. */
  function GenerateText<G>(req: Request, generate: GenerateArgs -> Reply<G>,
                           persist: LogRecord<G> -> StoreOutcome): (h: Handled<G>)
    ensures h.response.status == 204 <==> req.verb == "OPTIONS"
    ensures h.response.status == 405 <==> req.verb != "OPTIONS" && req.verb != "POST"
    ensures h.response.status == 400 <==> DecideGenerate(req).BadRequest?
    ensures h.response.status == 400 ==> h.response.payload == ErrorMessage(NoPromptMessage)
    ensures var d := DecideGenerate(req);
      h.response.status == 500 <==> d.InternalError? || (d.Call? && generate(d.args).CoreRaised?)
    ensures var d := DecideGenerate(req);
      h.response.status == 500 ==> h.response.payload == ErrorMessage(InternalErrorPrefix +
        if d.InternalError? then d.detail else generate(d.args).message)
    ensures h.write.Some? <==> h.response.status == 200
    ensures h.response.status == 200 ==>
      var d := DecideGenerate(req);
      && d.Call? && generate(d.args).Returned?
      && h.response.payload == ResultOf(generate(d.args).result)
      && h.write.value.record == LogRecord("generation", d.args.prompt, generate(d.args).result)
  {
    Respond(DecideGenerate(req), "generation", generate, persist)
  }

  // ---------------------------------------------------------------------
  // Lemmas
  // ---------------------------------------------------------------------

  /** An `OPTIONS` request gets 204 with an empty body from every handler, and nothing is stored. */
  lemma OptionsIsNoContent<S, G>(req: Request, o: Oracles,
                                 pd: LogRecord<DetectionResult> -> StoreOutcome,
                                 summarize: SummarizeArgs -> Reply<S>, ps: LogRecord<S> -> StoreOutcome,
                                 generate: GenerateArgs -> Reply<G>, pg: LogRecord<G> -> StoreOutcome)
    requires req.verb == "OPTIONS"
    ensures DetectAIText(req, o, pd) == Handled(Response(204, Empty), None)
    ensures SummarizeText(req, summarize, ps) == Handled(Response(204, Empty), None)
    ensures GenerateText(req, generate, pg) == Handled(Response(204, Empty), None)
  {
  }

  /** Any method but `POST` and `OPTIONS` gets 405 "Method not allowed" from every handler. */
  lemma OtherMethodsNotAllowed<S, G>(req: Request, o: Oracles,
                                     pd: LogRecord<DetectionResult> -> StoreOutcome,
                                     summarize: SummarizeArgs -> Reply<S>, ps: LogRecord<S> -> StoreOutcome,
                                     generate: GenerateArgs -> Reply<G>, pg: LogRecord<G> -> StoreOutcome)
    requires req.verb != "OPTIONS" && req.verb != "POST"
    ensures DetectAIText(req, o, pd).response == Response(405, ErrorMessage(MethodNotAllowedMessage))
    ensures SummarizeText(req, summarize, ps).response == Response(405, ErrorMessage(MethodNotAllowedMessage))
    ensures GenerateText(req, generate, pg).response == Response(405, ErrorMessage(MethodNotAllowedMessage))
  {
  }

  /** `strip()` leaves nothing exactly when every character is whitespace. */
  lemma StripEmptyIffAllSpace(s: string)
    ensures Strip(s) == [] <==> forall i :: 0 <= i < |s| ==> IsSpace(s[i])
  {
    var l := StripLeft(s);
    if l != [] {
      assert s[|s| - |l|] == l[0];
      assert !IsSpace(l[0]);
      assert StripRight(l) != [];
    }
  }

  /**
   * Detection answers 400 "No text provided" exactly for a blank or missing
   * text, and 400 "Text must be at least 50 characters" exactly for a
   * stripped text of 1 to 49 characters.
   */
  lemma DetectRejections(req: Request)
    requires req.verb == "POST" && req.body.Object?
    ensures DecideDetect(req) == BadRequest(NoTextMessage) <==> SubmitsBlank(req.body.text)
    ensures DecideDetect(req) == BadRequest(TooShortMessage) <==>
      req.body.text.Present? && 0 < |Strip(req.body.text.value)| < MinDetectionLength
  {
    var o := StrippedOrEmpty(req.body.text);
    StrippedEmptyIffBlank(req.body.text);
    assert ReadText(req.body) == o;
    assert DecideDetect(req) == ValidateDetect(o);
  }

  /**
   * The responses detection sends for a POST object: 400 "No text provided"
   * exactly for a blank or missing text, 400 with the length message
   * exactly for a stripped text of 1 to 49 characters.
   */
  lemma DetectBadRequestResponses(req: Request, o: Oracles,
                                  persist: LogRecord<DetectionResult> -> StoreOutcome)
    requires req.verb == "POST" && req.body.Object?
    ensures DetectAIText(req, o, persist).response == Response(400, ErrorMessage(NoTextMessage))
      <==> SubmitsBlank(req.body.text)
    ensures DetectAIText(req, o, persist).response == Response(400, ErrorMessage(TooShortMessage))
      <==> req.body.text.Present? && 0 < |Strip(req.body.text.value)| < MinDetectionLength
  {
    DetectRejections(req);
  }

  /** A POST to detection gets 500 exactly when the body or its text cannot be read. */
  lemma DetectInternalErrors(req: Request)
    requires req.verb == "POST"
    ensures DecideDetect(req).InternalError? <==> req.body.NotAnObject? || req.body.text.Invalid?
  {
    assert DecideDetect(req) == ValidateDetect(ReadText(req.body));
  }

  /** Hence `predict` is only ever called on stripped text of at least 50 characters. */
  lemma PredictSeesLongStrippedText(req: Request)
    requires DecideDetect(req).Call?
    ensures req.verb == "POST" && req.body.Object? && req.body.text.Present?
    ensures var t := DecideDetect(req).args;
      |t| >= MinDetectionLength && Strip(t) == t && t == Strip(req.body.text.value)
  {
    var o := ReadText(req.body);
    var v := ValidateDetect(o);
    assert DecideDetect(req) == DecideMethod(req.verb, v);
    assert req.verb == "POST";
    assert v.Call? && DecideDetect(req) == v;
    assert o.Ok? && |o.value| >= MinDetectionLength && v.args == o.value;
    assert req.body.Object?;
    var f := req.body.text;
    assert o == StrippedOrEmpty(f);
    assert o != Ok("");
    assert f.Present? && o.value == Strip(f.value);
  }

  /** Every valid detection request with enough text gets a 200: `predict` never raises. */
  lemma DetectionAlwaysAnswers(req: Request, o: Oracles,
                               persist: LogRecord<DetectionResult> -> StoreOutcome)
    requires req.verb == "POST" && req.body.Object? && req.body.text.Present?
    requires |Strip(req.body.text.value)| >= MinDetectionLength
    ensures DetectAIText(req, o, persist).response.status == 200
  {
    assert ReadText(req.body) == Ok(Strip(req.body.text.value));
    assert DecideDetect(req).Call?;
  }

  /**
   * With `generate` as the generation core, every request that passes
   * validation gets a 200: the core catches its own failures, so its
   * fallback record is sent as a success.
   */
  lemma GenerationAlwaysAnswers(req: Request, model: Generation.SamplingRequest -> Generation.GenerationReply,
                                persist: LogRecord<Generation.GenerationResult> -> StoreOutcome)
    requires DecideGenerate(req).Call?
    ensures var core := (a: GenerateArgs) =>
              Returned(Generation.Generate(a.prompt, a.tone, a.maxLength, a.temperature, model));
      var h := GenerateText(req, core, persist);
      && h.response.status == 200
      && h.response.payload.ResultOf?
      && var r := h.response.payload.value;
         (r.error == None ==> r.wordCount == |Words(r.generatedText)|)
         && (r.error.Some? ==> r.generatedText == Generation.FallbackText && r.wordCount == 0)
  {
  }

  /** Summarising has no minimum length: any non-blank text is passed on, stripped. */
  lemma SummarizeAcceptsAnyNonBlankText(req: Request)
    requires req.verb == "POST" && req.body.Object? && req.body.text.Present?
    requires !req.body.ratio.Invalid?
    requires !SubmitsBlank(req.body.text)
    ensures DecideSummarize(req).Call?
    ensures DecideSummarize(req).args.text == Strip(req.body.text.value)
  {
    SummarizeRejections(req);
    SummarySeesStrippedText(req);
  }

  /** The summariser is called with the stripped text, never an empty one. */
  lemma SummarySeesStrippedText(req: Request)
    requires DecideSummarize(req).Call?
    ensures req.verb == "POST" && req.body.Object? && req.body.text.Present?
    ensures var t := DecideSummarize(req).args.text;
      t != [] && Strip(t) == t && t == Strip(req.body.text.value)
  {
    var o := ReadText(req.body);
    assert DecideSummarize(req) == ValidateSummarize(o, ReadRatio(req.body), ReadFormat(req.body));
    assert req.body.Object? && o == StrippedOrEmpty(req.body.text);
  }

  /** A summary call gets `ratio` 0.5 and `format` "paragraph" when the body leaves them out. */
  lemma SummarizeDefaults(req: Request)
    requires DecideSummarize(req).Call?
    ensures req.body.Object?
    ensures req.body.ratio.Missing? ==> DecideSummarize(req).args.ratio == 0.5
    ensures req.body.ratio.Present? ==> DecideSummarize(req).args.ratio == req.body.ratio.value
    ensures req.body.format.None? ==> DecideSummarize(req).args.format == "paragraph"
  {
    assert DecideSummarize(req) ==
      ValidateSummarize(ReadText(req.body), ReadRatio(req.body), ReadFormat(req.body));
  }

  /**
   * Summarising answers 400 exactly for a blank or missing text, once the
   * text and `ratio` convert, and 500 exactly when one of them raises.
   */
  lemma SummarizeRejections(req: Request)
    requires req.verb == "POST" && req.body.Object?
    ensures DecideSummarize(req).BadRequest? <==>
      SubmitsBlank(req.body.text) && !req.body.ratio.Invalid?
    ensures DecideSummarize(req).InternalError? <==>
      req.body.text.Invalid? || req.body.ratio.Invalid?
  {
    var o := ReadText(req.body);
    assert o == StrippedOrEmpty(req.body.text);
    StrippedEmptyIffBlank(req.body.text);
    assert ReadRatio(req.body).Ok? <==> !req.body.ratio.Invalid?;
    assert DecideSummarize(req) == ValidateSummarize(o, ReadRatio(req.body), ReadFormat(req.body));
  }

  /**
   * The error responses summarising sends for a POST object: 400 "No text
   * provided" exactly for a blank text and a readable ratio, and 500 with
   * the internal-error prefix exactly when the text or ratio cannot be read
   * or the summariser raises.
   */
  lemma SummarizeErrorResponses<S>(req: Request, summarize: SummarizeArgs -> Reply<S>,
                                   persist: LogRecord<S> -> StoreOutcome)
    requires req.verb == "POST" && req.body.Object?
    ensures SummarizeText(req, summarize, persist).response == Response(400, ErrorMessage(NoTextMessage))
      <==> SubmitsBlank(req.body.text) && !req.body.ratio.Invalid?
    ensures SummarizeText(req, summarize, persist).response.status == 500 <==>
      || req.body.text.Invalid? || req.body.ratio.Invalid?
      || (DecideSummarize(req).Call? && summarize(DecideSummarize(req).args).CoreRaised?)
  {
    SummarizeRejections(req);
  }

  /** `ratio` is converted before the emptiness check: a bad ratio gives 500 even with no text. */
  lemma RatioConvertedBeforeEmptyCheck(req: Request, e: string)
    requires req.verb == "POST" && req.body.Object? && req.body.text.Missing?
    requires req.body.ratio == Invalid(e)
    ensures DecideSummarize(req) == InternalError(e)
  {
    assert ReadText(req.body) == Ok("");
  }

  /** Generation rejects only a blank prompt: any other prompt is passed on, stripped. */
  lemma GenerateAcceptsAnyNonBlankPrompt(req: Request)
    requires req.verb == "POST" && req.body.Object? && req.body.prompt.Present?
    requires !req.body.maxLength.Invalid? && !req.body.temperature.Invalid?
    requires !SubmitsBlank(req.body.prompt)
    ensures DecideGenerate(req).Call?
    ensures DecideGenerate(req).args.prompt == Strip(req.body.prompt.value)
  {
    GenerateRejections(req);
    GeneratorSeesStrippedPrompt(req);
  }

  /** The generator is called with the stripped prompt, never an empty one. */
  lemma GeneratorSeesStrippedPrompt(req: Request)
    requires DecideGenerate(req).Call?
    ensures req.verb == "POST" && req.body.Object? && req.body.prompt.Present?
    ensures var p := DecideGenerate(req).args.prompt;
      p != [] && Strip(p) == p && p == Strip(req.body.prompt.value)
  {
    var o := ReadPrompt(req.body);
    assert DecideGenerate(req) == ValidateGenerate(o, ReadTone(req.body),
      ReadMaxLength(req.body), ReadTemperature(req.body));
    assert req.body.Object? && o == StrippedOrEmpty(req.body.prompt);
  }

  /**
   * A generation call gets `tone` "formal", `maxLength` 500 and
   * `temperature` 0.7 when the body leaves them out, and the given numbers
   * unchecked otherwise.
   */
  lemma GenerateDefaultsAndNoRangeCheck(req: Request)
    requires DecideGenerate(req).Call?
    ensures req.body.Object?
    ensures DecideGenerate(req).args.tone == (if req.body.tone.Some? then req.body.tone.value else "formal")
    ensures DecideGenerate(req).args.maxLength ==
      (if req.body.maxLength.Present? then req.body.maxLength.value else 500)
    ensures DecideGenerate(req).args.temperature ==
      (if req.body.temperature.Present? then req.body.temperature.value else 0.7)
  {
    assert DecideGenerate(req) == ValidateGenerate(ReadPrompt(req.body), ReadTone(req.body),
      ReadMaxLength(req.body), ReadTemperature(req.body));
  }

  /**
   * Generation answers 400 exactly for a blank or missing prompt once the
   * numbers convert, and 500 exactly when the prompt or a number raises.
   */
  lemma GenerateRejections(req: Request)
    requires req.verb == "POST" && req.body.Object?
    ensures DecideGenerate(req).BadRequest? <==>
      SubmitsBlank(req.body.prompt) && !req.body.maxLength.Invalid? && !req.body.temperature.Invalid?
    ensures DecideGenerate(req).InternalError? <==>
      req.body.prompt.Invalid? || req.body.maxLength.Invalid? || req.body.temperature.Invalid?
  {
    var o := ReadPrompt(req.body);
    assert o == StrippedOrEmpty(req.body.prompt);
    StrippedEmptyIffBlank(req.body.prompt);
    assert ReadMaxLength(req.body).Ok? <==> !req.body.maxLength.Invalid?;
    assert ReadTemperature(req.body).Ok? <==> !req.body.temperature.Invalid?;
    assert DecideGenerate(req) == ValidateGenerate(o, ReadTone(req.body),
      ReadMaxLength(req.body), ReadTemperature(req.body));
  }

  /**
   * The error responses generation sends for a POST object: 400 "No prompt
   * provided" exactly for a blank prompt with readable numbers, and 500
   * exactly when the prompt or a number cannot be read or the generator
   * raises.
   */
  lemma GenerateErrorResponses<G>(req: Request, generate: GenerateArgs -> Reply<G>,
                                  persist: LogRecord<G> -> StoreOutcome)
    requires req.verb == "POST" && req.body.Object?
    ensures GenerateText(req, generate, persist).response == Response(400, ErrorMessage(NoPromptMessage))
      <==> SubmitsBlank(req.body.prompt) && !req.body.maxLength.Invalid? && !req.body.temperature.Invalid?
    ensures GenerateText(req, generate, persist).response.status == 500 <==>
      || req.body.prompt.Invalid? || req.body.maxLength.Invalid? || req.body.temperature.Invalid?
      || (DecideGenerate(req).Call? && generate(DecideGenerate(req).args).CoreRaised?)
  {
    GenerateRejections(req);
  }

  /**
   * The stored snippet is the first 500 characters of the text for
   * detection and summaries (all of it when shorter); generation stores the
   * whole prompt.
   */
  lemma StoredInputs(req: Request)
    ensures DecideDetect(req).Call? ==>
      var d := DecideDetect(req);
      d.logInput <= d.args
      && |d.logInput| == (if |d.args| <= SnippetLength then |d.args| else SnippetLength)
    ensures DecideSummarize(req).Call? ==>
      var d := DecideSummarize(req);
      d.logInput <= d.args.text
      && |d.logInput| == (if |d.args.text| <= SnippetLength then |d.args.text| else SnippetLength)
    ensures DecideGenerate(req).Call? ==>
      DecideGenerate(req).logInput == DecideGenerate(req).args.prompt
  {
  }

  /** A failing store write never changes the response. */
  lemma StoreFailureIsolated<A, P>(d: Decision<A>, kind: string, core: A -> Reply<P>,
                                   persist: LogRecord<P> -> StoreOutcome,
                                   persist': LogRecord<P> -> StoreOutcome)
    ensures Respond(d, kind, core, persist).response == Respond(d, kind, core, persist').response
  {
  }

  /** A summariser or generator exception gives 500 and nothing is stored. */
  lemma CoreExceptionIsInternalError<A, P>(d: Decision<A>, kind: string, core: A -> Reply<P>,
                                           persist: LogRecord<P> -> StoreOutcome)
    requires d.Call? && core(d.args).CoreRaised?
    ensures Respond(d, kind, core, persist) ==
      Handled(Response(500, ErrorMessage(InternalErrorPrefix + core(d.args).message)), None)
  {
  }
}
