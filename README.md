# Text analysis functions: a Dafny model of the inference orchestration

The repository serves three HTTP functions: `detectAIText`, `summarizeText` and `generateText`.
Each one sits in front of a pretrained model. This project models the logic around those models:

- **Detection** (`AIDetector` in `functions/models/detector.py`, module `Detection`):
  - The classifier's AI probability becomes a percentage confidence.
  - The perplexity heuristic is the exponentiated loss, capped at 100, or 0.0 when it raises.
  - The burstiness heuristic is the coefficient of variation of the word counts of the
    `.`-separated sentences, capped at 1, and 0.0 for fewer than two sentences.
  - The verdict is "confidence above 50".
  - The reported numbers are rounded to two decimals.
  - A classifier failure gives the neutral fallback record.
- **Generation** (`TextGenerator` in `functions/models/summarizer.py`, module `Generation`):
  - Tone conditioning puts a fixed instruction in front of the prompt.
  - The token budget is `int(max_length * 1.3)`.
  - The request handed to the generative model has a fixed sampling policy.
  - One echoed copy of the conditioned prompt is removed.
  - The text is repaired: whitespace is collapsed and the text is cut back to its last `.`, `!`
    or `?` when it does not already end a sentence.
  - The word count is taken.
  - A failure gives a fixed apology record.
- **Handlers** (`functions/main.py`, module `Handlers`):
  - OPTIONS gets 204, and any method other than POST gets 405.
  - The body is read and its fields converted with their defaults.
  - Empty or too short input gets 400.
  - An exception while reading gets 500.
  - Otherwise the core is called and its result returned with 200.
  - A result record is written to the store; a failure of that write never reaches the caller.
- **Python text semantics** (module `PyText`): `str.split()`, `' '.join`, `str.strip()`,
  `str.split(sep)`, `str.rfind`, `str.startswith` and `s[:n]`, stated over `seq<char>`.

The models, numpy's square root and the results store are oracles: total functions passed in as
parameters.

- The classifier, the perplexity loss and the square root make up `Detection.Oracles`.
- The generative model is a function from `Generation.SamplingRequest` to a decoded text and its
  sequence length, or to an exception message.
- The summariser and the store appear in the handlers as function parameters.

Floats are exact reals:
- `round(x, 2)` is rounding half to even at two decimals (`Detection.Round2`).
- `int(x * 1.3)` is `13/10` of the integer, truncated toward zero (`Generation.MaxTokens`).

Files: `wrappers.dfy` (Option), `python_text.dfy`, `generation.dfy`, `detection.dfy`,
`handlers.dfy`. All five are given to Dafny together.

### Behaviour of the code worth knowing

The model follows the code, and proves these points about it:
- `predict` decides `is_ai` from the unrounded confidence (functions/models/detector.py:115), but
  reports the confidence rounded to two decimals (detector.py:119). The handler documents the
  reported confidence as a percentage, `float (0-100)` (functions/main.py:41). A probability of
  0.50001 therefore gives `isAI == true` with a reported confidence of `50.0`. The two verdicts
  differ exactly for confidences in (50, 50.005]. See `Detection.VerdictBeforeRounding` and
  `Detection.RoundedConfidenceHidesVerdict`.
- The fallback record of `generate` (functions/models/summarizer.py:121-126) has `wordCount` 0,
  although its apology text has words (`Generation.FallbackWordCountDiffers`). The count of
  words is taken on the success path only (summarizer.py:107).
- `generate` removes one echoed copy of the prompt (summarizer.py:100-101). Output that echoes
  twice a tidy prompt that ends a sentence still starts with the prompt
  (`Generation.DoubleEchoKeepsPrompt`).
- The token budget is `int(max_length * 1.3)` (summarizer.py:77-78). `int` cuts toward zero
  (`Generation.MaxTokens`).
- The docstrings give ranges: `maxLength` 100-1000 and `temperature` 0.1-1.0 (main.py:195-196),
  and `temperature` 0.1-1.0 again at summarizer.py:60. Neither the handler nor `generate` checks
  them. Any converted value reaches the generative model
  (`Handlers.GenerateDefaultsAndNoRangeCheck`).
- Only a classifier failure leads to the detection fallback. A failing perplexity computation is
  caught inside `calculate_perplexity` and gives 0.0 (detector.py:58-59). The `except` branch of
  `calculate_burstiness` cannot be reached for a string. See `Detection.Predict` and
  `Detection.PerplexityFailureIsCaught`.
- All three reported numbers, burstiness included, are rounded to two decimals (detector.py:119-121).
- `summarizeText` converts `ratio` (main.py:143) before it checks for empty text (main.py:146).
  A bad ratio therefore gives 500 even when there is no text
  (`Handlers.RatioConvertedBeforeEmptyCheck`).

## Model

| member | source | states |
|---|---|---|
| PyText.Words | functions/models/summarizer.py:107 | every element `split()` yields is a non-empty run without whitespace, and a string that starts with a non-space has at least one |
| PyText.Join | functions/models/summarizer.py:131 | `' '.join(ws)`: the words with a single blank between neighbours; its properties are stated by `JoinOfWordsIsNormal` and `WordsOfJoin` |
| PyText.WordsAcrossSpace | functions/models/detector.py:73 | any whitespace character (blank, tab, newline and the rest) separates words: `split()` of `x`, a whitespace character and `y` is the words of `x` followed by the words of `y` |
| PyText.Collapse | functions/models/summarizer.py:131 | `' '.join(text.split())` is whitespace-normal: single blanks only, none at either end |
| PyText.JoinOfWordsIsNormal | functions/models/summarizer.py:131 | joining words with single blanks always gives a whitespace-normal string |
| PyText.WordsOfJoin | functions/models/summarizer.py:131 | splitting undoes joining: `split()` of `' '.join(ws)` is `ws` for any list of words |
| PyText.CollapseOfNormal | functions/models/summarizer.py:131 | collapsing whitespace leaves an already normal string unchanged |
| PyText.Strip | functions/main.py:59 | `strip()` leaves no whitespace at either end |
| PyText.StripIdempotent | functions/models/detector.py:68 | stripping twice is stripping once |
| PyText.StripOfNormal | functions/models/summarizer.py:144 | the final `strip()` of a whitespace-normal text changes nothing |
| PyText.StrippedHasWord | functions/models/detector.py:68-73 | a non-empty stripped sentence has at least one word |
| PyText.StripKeepsAbsence | functions/models/detector.py:67-68 | stripping introduces no character that was not there |
| PyText.SplitOn | functions/models/detector.py:67 | `split('.')` gives at least one piece and no piece contains the separator |
| PyText.SplitOnRoundTrip | functions/models/detector.py:67 | joining the pieces of `split(sep)` with `sep` gives the text back; with the separator-free pieces this fixes the split |
| PyText.RFind | functions/models/summarizer.py:136-140 | `rfind` is -1 or an index holding the character, with no later occurrence |
| PyText.StartsWith | functions/models/summarizer.py:100 | `s.startswith(p)`: `p` is no longer than `s` and is its leading part |
| PyText.NormalPrefix | functions/models/summarizer.py:141-142 | cutting a normal text after a non-space character keeps it normal |
| PyText.Take | functions/main.py:84 | `s[:n]` is the prefix of `s` of exactly `n` characters, or all of `s` when `s` is shorter |
| Generation.TonePrefix | functions/models/summarizer.py:49 | `tone_prefixes.get(tone, "")`: the table's instruction for a known tone, the empty string otherwise |
| Generation.ApplyTone | functions/models/summarizer.py:40-50 | the conditioned prompt is the tone's instruction followed by the prompt; an unknown tone adds nothing |
| Generation.KnownTones | functions/models/summarizer.py:42-47 | the four known tones give exactly their fixed instructions |
| Generation.ToneLetters | functions/models/summarizer.py:42-47 | the instructions differ at fixed positions: index 6 marks "creative", and index 11 holds the tone word's first letter otherwise |
| Generation.ToneConditioningInjective | functions/models/summarizer.py:40-50 | for known tones, equal conditioned prompts mean equal tones and equal prompts |
| Generation.MaxTokens | functions/models/summarizer.py:78 | the budget is `13/10` of the word limit truncated toward zero, for either sign |
| Generation.TokenBudgetBounds | functions/models/summarizer.py:78 | a non-negative limit never shrinks and 500 words give 650 tokens |
| Generation.Policy | functions/models/summarizer.py:70-94 | the request handed to the generative model: the conditioned prompt truncated to 512 tokens, the budget `MaxTokens(max_length)`, `min_length` 50, the caller's temperature, `top_k` 50, `top_p` 0.95, sampling on, one sequence, no repeated 3-grams |
| Generation.StripEcho | functions/models/summarizer.py:100-101 | when the output starts with the conditioned prompt, the prompt is cut off and the rest stripped; otherwise the output is kept |
| Generation.IsTerminal | functions/models/summarizer.py:134 | membership in `'.!?'`: the characters that end a sentence |
| Generation.LastTerminal | functions/models/summarizer.py:136-140 | the maximum of the three `rfind`s is -1 or the index of the last `.`, `!` or `?` |
| Generation.TrimToSentenceEnd | functions/models/summarizer.py:134-142 | the result is a prefix of the input that is the input itself or ends at the last sentence terminal, and it keeps whitespace-normality |
| Generation.CleanGeneratedText | functions/models/summarizer.py:128-144 | the repaired text is whitespace-normal and is either the collapsed text or a prefix of it that ends at its last terminal |
| Generation.CleanCutsAtLastTerminal | functions/models/summarizer.py:133-144 | exactly when the collapsed text is non-empty, does not end a sentence and has its last terminal at an index above 0, the result is cut after that terminal; otherwise it is the collapsed text |
| Generation.CleanIdempotent | functions/models/summarizer.py:128-144 | cleaning a cleaned text changes nothing |
| Generation.CleanIsTidy | functions/models/summarizer.py:128-144 | the cleaned text has no leading, trailing or doubled whitespace |
| Generation.CleanFixesTidyText | functions/models/summarizer.py:128-144 | cleaning leaves a text unchanged if and only if it is whitespace-normal and it ends a sentence or has no terminal above index 0 |
| Generation.CleanLeavesTidyText | functions/models/summarizer.py:128-144 | a whitespace-normal text with nothing to cut is returned as it is |
| Generation.CleanKeepsUnpunctuated | functions/models/summarizer.py:134-142 | a continuation without any terminal ("The sky is blue") is not cut |
| Generation.CleanIgnoresTerminalAtZero | functions/models/summarizer.py:141 | a terminal at index 0 is no cut point: a whitespace-normal text with no terminal after index 0 is returned unchanged |
| Generation.CleanKeepsLeadingDot | functions/models/summarizer.py:141 | ".net is fun", whose only terminal is its first character, is kept whole |
| Generation.Generate | functions/models/summarizer.py:52-126 | on success the text is the cleaned, echo-stripped continuation, the word count is its number of words and the tokens used are the model's sequence length; on failure it is the fallback record |
| Generation.GenerationFallback | functions/models/summarizer.py:121-126 | the fallback record: the apology text, zero words and tokens, and the exception's message as error |
| Generation.GenerateFailure | functions/models/summarizer.py:119-126 | a failing model yields the apology text with zero counts and an error |
| Generation.FallbackWordCountDiffers | functions/models/summarizer.py:119-126 | the fallback's apology text has words but its word count is 0 |
| Generation.EchoRemovedOnce | functions/models/summarizer.py:100-101 | echo removal of a normal prompt echoed twice leaves exactly one copy |
| Generation.DoubleEchoKeepsPrompt | functions/models/summarizer.py:100-104 | a tidy, sentence-ending prompt echoed twice survives as the whole result after one echo removal and cleaning |
| Generation.DoubleEchoExample | functions/models/summarizer.py:100-104 | for the prompt "Hi." echoed twice, the result starts with the prompt |
| Detection.CalculatePerplexity | functions/models/detector.py:36-59 | the exponentiated loss capped at 100, or 0.0 when its computation raised; always within [0, 100] |
| Detection.KeepBy | functions/models/detector.py:68 | the comprehension `[f(s) for s in pieces if f(s)]` keeps at most one result per piece |
| Detection.KeepByAppend | functions/models/detector.py:68 | the comprehension works piece by piece: on two runs of pieces it gives the two runs' results, in order |
| Detection.KeepSentences | functions/models/detector.py:68 | the comprehension with `strip` keeps at most as many sentences as there were pieces; which ones is stated by `KeepSentencesAppend` and `KeepSentencesSingle` |
| Detection.KeepSentencesCons | functions/models/detector.py:68 | the first piece's sentence, if any, comes before the sentences of the remaining pieces |
| Detection.KeepSentencesAppend | functions/models/detector.py:68 | the list comprehension works piece by piece: the sentences of two runs of pieces are the two runs' sentences, in order |
| Detection.KeepSentencesSingle | functions/models/detector.py:68 | one piece contributes its stripped text exactly when that is non-empty, and nothing otherwise |
| Detection.Sentences | functions/models/detector.py:67-68 | the sentences of a text: its `.`-separated pieces, stripped, blank ones dropped |
| Detection.KeepSentencesStripped | functions/models/detector.py:68 | every kept sentence is non-empty and already stripped |
| Detection.KeepSentencesAvoid | functions/models/detector.py:67-68 | a character absent from every piece is absent from every kept sentence |
| Detection.SentencesWellFormed | functions/models/detector.py:67-68 | each sentence is non-empty, stripped, free of `.` and has at least one word |
| Detection.WordCounts | functions/models/detector.py:73 | one count per sentence |
| Detection.WordCountsCountWords | functions/models/detector.py:73 | each count is the number of words of its sentence |
| Detection.Mean | functions/models/detector.py:74 | the mean of counts is non-negative |
| Detection.SquaredDeviations | functions/models/detector.py:75 | the sum of squared deviations is non-negative |
| Detection.Variance | functions/models/detector.py:75 | the population variance is non-negative, so its square root is defined |
| Detection.SumOfConstant | functions/models/detector.py:74 | `n` equal counts `c` sum to `n * c` |
| Detection.NoDeviationFromConstant | functions/models/detector.py:75 | equal counts have no deviation from their common value |
| Detection.ConstantStatistics | functions/models/detector.py:74-75 | equal counts have that count as mean and variance 0 |
| Detection.CalculateBurstiness | functions/models/detector.py:61-84 | burstiness lies in [0, 1] and is 0.0 for fewer than two sentences |
| Detection.MeanSentenceLengthAtLeastOne | functions/models/detector.py:77-78 | with two or more sentences the mean length is at least 1, so the `mean == 0` branch never runs |
| Detection.UniformSentencesNoBurstiness | functions/models/detector.py:61-84 | when all sentences have the same number of words, burstiness is 0.0 |
| Detection.SplitWithoutSeparator | functions/models/detector.py:67 | `split('.')` of a text without `.` is that text alone |
| Detection.NoPeriodNoBurstiness | functions/models/detector.py:67-71 | a text without `.` has at most one sentence and burstiness 0.0 |
| Detection.HelloWorldBurstiness | functions/models/detector.py:67-71 | "Hello world" is one sentence and has burstiness 0.0 |
| Detection.Round2 | functions/models/detector.py:119-121 | rounding to two decimals moves a value by at most 0.005 |
| Detection.Round2Monotone | functions/models/detector.py:119-121 | rounding to two decimals is monotone |
| Detection.Round2Cents | functions/models/detector.py:119-121 | a whole number of hundredths is left unchanged |
| Detection.Round2Between | functions/models/detector.py:119-121 | rounding keeps a value inside bounds given in hundredths, so the rounded fields keep their ranges |
| Detection.Verdict | functions/models/detector.py:115 | the threshold rule: AI exactly when the confidence is above 50 |
| Detection.DetectionFallback | functions/models/detector.py:130-136 | the neutral record: not AI, confidence 50.0, zero heuristics, and the exception's message as error |
| Detection.Predict | functions/models/detector.py:86-136 | confidence, perplexity and burstiness stay in [0,100], [0,100] and [0,1]; on success the verdict is "probability times 100 above 50" and the fields are the rounded confidence and heuristics with no error; a classifier failure gives the fallback record |
| Detection.PerplexityFailureIsCaught | functions/models/detector.py:110-122 | a failing perplexity computation gives perplexity 0.0 and no error, and the verdict stays the classifier's |
| Detection.VerdictBeforeRounding | functions/models/detector.py:115-119 | the verdicts from the raw and from the rounded confidence differ if and only if the confidence is in (50, 50.005], which rounds to 50.0 |
| Detection.RoundedConfidenceHidesVerdict | functions/models/detector.py:108-119 | a probability of 0.50001 gives `isAI` true with a reported confidence of 50.0 |
| Detection.FallbackFollowsVerdict | functions/models/detector.py:127-136 | the fallback record is neutral: not AI at 50.0 confidence, with zero heuristics |
| Handlers.StrippedOrEmpty | functions/main.py:59 | `data.get(key, '').strip()`: missing gives "", present gives the stripped value, a failed conversion raises, and the result is already stripped |
| Handlers.StrippedEmptyIffBlank | functions/main.py:59-62 | the stripped field is empty if and only if it is missing or all whitespace |
| Handlers.StripEmptyIffAllSpace | functions/main.py:59-62 | `strip()` gives "" if and only if every character is whitespace |
| Handlers.ReadText | functions/main.py:58-59 | the stripped `text` field, "" when missing; it raises when the body could not be read as an object or the field cannot be stripped |
| Handlers.ReadPrompt | functions/main.py:217-218 | the stripped `prompt` field, "" when missing; it raises like `ReadText` |
| Handlers.ReadRatio | functions/main.py:141-143 | `float(data.get('ratio', 0.5))`: the default 0.5, the converted value, or the conversion's exception |
| Handlers.ConvertedOr | functions/main.py:143 | `conv(data.get(key, default))` for `float` and `int` (also main.py:220-221): the default when the field is missing, the converted value, or the conversion's exception |
| Handlers.ReadFormat | functions/main.py:144 | `data.get('format', 'paragraph')` |
| Handlers.OrDefault | functions/main.py:144 | `data.get(key, default)` for a field that is not converted (also `tone` at main.py:219): the field's value, or the default when missing |
| Handlers.ReadTone | functions/main.py:219 | `data.get('tone', 'formal')` |
| Handlers.ReadMaxLength | functions/main.py:220 | `int(data.get('maxLength', 500))`: the default 500, the converted value, or the conversion's exception |
| Handlers.ReadTemperature | functions/main.py:221 | `float(data.get('temperature', 0.7))`: the default 0.7, the converted value, or the conversion's exception |
| Handlers.DecideMethod | functions/main.py:46-54 | 204 exactly for OPTIONS, 405 exactly for methods other than OPTIONS and POST, and POST continues to the body checks |
| Handlers.ValidateDetect | functions/main.py:62-84 | 500 iff reading raised, "No text provided" iff the text is empty, the length message iff it has 1 to 49 characters, and the call iff it has at least 50, with the first 500 characters logged |
| Handlers.DecideDetect | functions/main.py:46-84 | the early returns of `detectAIText`: the method checks, then the text checks, then the call of `predict` |
| Handlers.ValidateSummarize | functions/main.py:142-161 | 500 iff the text or the ratio raised, 400 iff the text is empty and the ratio converted, and otherwise the call with text, ratio and format and the first 500 characters logged |
| Handlers.DecideSummarize | functions/main.py:130-161 | the early returns of `summarizeText`: the method checks, then reading text, ratio and format, then the emptiness check |
| Handlers.ValidateGenerate | functions/main.py:218-238 | 500 iff the prompt, the length or the temperature raised, 400 iff the prompt is empty and the rest converted, and otherwise the call with all four arguments and the whole prompt logged |
| Handlers.DecideGenerate | functions/main.py:206-238 | the early returns of `generateText`: the method checks, then reading prompt, tone, length and temperature, then the emptiness check |
| Handlers.Respond | functions/main.py:76-104 | the status is one of 200, 204, 400, 405 and 500; 204 is empty and 405 says "Method not allowed"; 400 iff the decision rejected the input, with its message as `error`; 500 iff reading raised or the core raised, with `"Internal server error: "` and the exception's message; 200 iff the core was called and returned, with its result; a store write happens iff the status is 200 and records the kind, the logged input and the result |
| Handlers.InternalErrorResponse | functions/main.py:98-104 | the response to a caught exception: status 500 with `"Internal server error: "` followed by the exception's message as `error` |
| Handlers.DetectAIText | functions/main.py:29-104 | 204 iff OPTIONS, 405 iff not POST, 400 iff validation rejected the text, with the rejection's message, 500 iff reading raised, with the internal-error prefix and the exception's message, and 200 iff validation reached the call; only a 200 writes to the store; a 200 carries `predict` of a text of at least 50 characters and logs it with its first 500 characters |
| Handlers.SummarizeText | functions/main.py:111-180 | 204 iff OPTIONS, 405 iff not POST, 400 "No text provided" iff validation rejected the input, 500 iff reading raised or the summariser raised, with the internal-error prefix and that exception's message; only a 200 writes to the store; a 200 carries the summariser's result for the validated arguments and logs it with the first 500 characters |
| Handlers.GenerateText | functions/main.py:187-257 | 204 iff OPTIONS, 405 iff not POST, 400 "No prompt provided" iff validation rejected the input, 500 iff reading raised or the generator raised, with the internal-error prefix and that exception's message; only a 200 writes to the store; a 200 carries the generator's result for the validated arguments and logs it with the whole prompt |
| Handlers.OptionsIsNoContent | functions/main.py:46-47 | OPTIONS gets an empty 204 from all three handlers, with no core call and no store write |
| Handlers.OtherMethodsNotAllowed | functions/main.py:49-54 | any method other than OPTIONS and POST gets 405 with "Method not allowed" from all three handlers |
| Handlers.DetectRejections | functions/main.py:59-74 | for a POST object, "No text provided" iff the text is missing or blank, and the length message iff the stripped text has 1 to 49 characters |
| Handlers.DetectBadRequestResponses | functions/main.py:59-74 | for a POST object, the response is 400 "No text provided" iff the text is missing or blank, and 400 "Text must be at least 50 characters" iff the stripped text has 1 to 49 characters |
| Handlers.DetectInternalErrors | functions/main.py:98-104 | a POST gets 500 exactly when the body is not an object or its text cannot be read |
| Handlers.PredictSeesLongStrippedText | functions/main.py:59-78 | `predict` is only called on the stripped submitted text, which has at least 50 characters |
| Handlers.DetectionAlwaysAnswers | functions/main.py:59-96 | a POST whose stripped text has at least 50 characters always gets 200, since `predict` never raises |
| Handlers.SummarizeAcceptsAnyNonBlankText | functions/main.py:142-155 | with a readable ratio, any non-blank text reaches the summariser, stripped, whatever its length |
| Handlers.SummarySeesStrippedText | functions/main.py:142-155 | the summariser only sees the non-empty stripped submitted text |
| Handlers.SummarizeDefaults | functions/main.py:143-144 | a missing ratio is 0.5, a present ratio is passed on, and a missing format is "paragraph" |
| Handlers.SummarizeRejections | functions/main.py:141-151 | for a POST object, 400 iff the text is blank and the ratio converts, and 500 iff the text or the ratio raises |
| Handlers.SummarizeErrorResponses | functions/main.py:141-180 | for a POST object, the response is 400 "No text provided" iff the text is blank and the ratio converts, and 500 iff the text or the ratio raises or the summariser raises |
| Handlers.RatioConvertedBeforeEmptyCheck | functions/main.py:142-151 | a missing text with a bad ratio gives 500 with the conversion error, not 400 |
| Handlers.GenerateAcceptsAnyNonBlankPrompt | functions/main.py:218-232 | with a readable length and temperature, any non-blank prompt reaches the generator, stripped |
| Handlers.GeneratorSeesStrippedPrompt | functions/main.py:218-232 | the generator only sees the non-empty stripped submitted prompt |
| Handlers.GenerateDefaultsAndNoRangeCheck | functions/main.py:218-221 | tone, length and temperature default to "formal", 500 and 0.7, and any submitted value is passed on unchecked |
| Handlers.GenerateRejections | functions/main.py:217-228 | for a POST object, 400 iff the prompt is blank and the numbers convert, and 500 iff any of the three raises |
| Handlers.GenerateErrorResponses | functions/main.py:217-257 | for a POST object, the response is 400 "No prompt provided" iff the prompt is blank and the numbers convert, and 500 iff the prompt, the length or the temperature raises or the generator raises |
| Handlers.GenerationAlwaysAnswers | functions/models/summarizer.py:119-126 | with `generate` as the core, every validated request gets 200; a success carries a correct word count, a failure the apology text with count 0 |
| Handlers.StoredInputs | functions/main.py:81-89 | the stored input is the first 500 characters of the text for detection and summaries, or the whole text when it is shorter, and the whole prompt for generation |
| Handlers.StoreFailureIsolated | functions/main.py:81-89 | the response does not depend on the store's outcome |
| Handlers.CoreExceptionIsInternalError | functions/main.py:98-104 | a core that raises gives 500 with the internal-error prefix and the message, and no store write |

## Left out

- Model loading (`__init__` of both classes), device selection and `model.eval()`: process setup
  with no logic to model.
- The tokenizer, the generative `model.generate`, `decode(..., skip_special_tokens=True)`, the
  classifier's softmax and the cross-entropy loss are oracles. `Generation.Policy` records the fixed
  sampling settings (prompt limit 512 tokens, `min_length` 50, `top_k` 50, `top_p` 0.95, sampling,
  one sequence, no repeated 3-grams), but what the model does with them is not modelled.
- Sampling is random in the source. The oracle is a function, so the model gives the same reply to
  the same request.
- IEEE floating point: all float arithmetic is exact on reals, including `1.3`, `np.mean`,
  `np.std` and `round`. numpy's square root is an oracle.
- The results store (Firestore), the server timestamp, CORS settings, JSON parsing and serialisation,
  the MIME type and every `print`: I/O. The store is a parameter whose outcome is recorded.
- `models/generator.py`, which `functions/main.py` imports `TextGenerator` from, is not part of this
  model. The handler takes the generator as a parameter, and `Handlers.GenerationAlwaysAnswers`
  instantiates it with the `TextGenerator` of `functions/models/summarizer.py`.
- The summariser (`TextSummarizer`) is not part of this model: `summarizeText` takes it as a
  parameter.
- JSON bodies whose `tone` or `format` is not a string, and bodies whose fields have other JSON
  types. Such fields are abstracted as present, missing or failing to convert.
- The `except` branch of `calculate_burstiness`: for a string argument nothing in its body raises,
  so it is unreachable.
- The `__main__` demonstration blocks of both model files.
- Generation.FallbackWordCountDiffers: states that the apology text has at least one word, not that
  it has exactly nine, because counting all nine costs far more proof effort than it adds.
