/**
 * Model of `TextGenerator` in functions/models/summarizer.py: tone
 * conditioning, the token budget, the sampling request handed to the
 * generative model, removal of an echoed prompt, repair of the generated
 * text and the success and fallback result records.
 *
 * The generative model (tokenizer, sampling decode, detokenizer) is an
 * oracle: a total function from the sampling request to either the decoded
 * text with its sequence length or the message of the exception it raised.
 */
module Generation {
  import opened Wrappers
  import opened PyText

  // ---------------------------------------------------------------------
  // Tone conditioning (apply_tone)
  // ---------------------------------------------------------------------

  /** The fixed tone-to-instruction table. */
  const TonePrefixes: map<string, string> := map[
    "formal" := "Write in a formal, professional manner: ",
    "casual" := "Write in a casual, conversational style: ",
    "creative" := "Write creatively and imaginatively: ",
    "technical" := "Write in a technical, precise manner: "
  ]

  /** `tone_prefixes.get(tone, "")`. */
  function TonePrefix(tone: string): string {
    if tone in TonePrefixes then TonePrefixes[tone] else ""
  }

  /** The conditioned prompt: the tone's instruction, then the prompt itself. */
  function ApplyTone(prompt: string, tone: string): (full: string)
    ensures StartsWith(full, TonePrefix(tone))
    ensures full[|TonePrefix(tone)|..] == prompt
    ensures tone !in TonePrefixes ==> full == prompt
  {
    TonePrefix(tone) + prompt
  }

  // ---------------------------------------------------------------------
  // Token budget and the sampling request
  // ---------------------------------------------------------------------

  /**
   * `int(max_length * 1.3)`: the product taken exactly as `13/10` and cut
   * toward zero, as Python's `int` of a float does.
   */
  function MaxTokens(maxLength: int): (n: int)
    ensures maxLength >= 0 ==> n * 10 <= maxLength * 13 < n * 10 + 10
    ensures maxLength < 0 ==> n * 10 - 10 < maxLength * 13 <= n * 10
  {
    if maxLength >= 0 then maxLength * 13 / 10 else -((-maxLength) * 13 / 10)
  }

  /** Everything the generative model is asked to do in one call. */
  datatype SamplingRequest = SamplingRequest(
    prompt: string,
    promptTokenLimit: nat,      // the tokenizer truncates the prompt to this many tokens
    maxTokens: int,             // max_length of the whole sequence
    minLength: nat,
    temperature: real,
    topK: nat,
    topP: real,
    doSample: bool,
    numReturnSequences: nat,
    noRepeatNgramSize: nat
  )

  /** The fixed sampling policy with the caller's prompt, length and temperature. */
  function Policy(fullPrompt: string, maxLength: int, temperature: real): SamplingRequest {
    SamplingRequest(fullPrompt, 512, MaxTokens(maxLength), 50, temperature, 50, 0.95, true, 1, 3)
  }

  /** What the generative model gives back: decoded text and sequence length, or an exception. */
  datatype GenerationReply =
    | Decoded(text: string, sequenceLength: nat)
    | GenerationRaised(message: string)

  // ---------------------------------------------------------------------
  // Prompt echo removal
  // ---------------------------------------------------------------------

  /** Remove one echoed copy of `fullPrompt` from the front of `decoded`, then strip. */
  function StripEcho(decoded: string, fullPrompt: string): (r: string)
    ensures StartsWith(decoded, fullPrompt) ==>
      decoded == fullPrompt + decoded[|fullPrompt|..] && r == Strip(decoded[|fullPrompt|..])
    ensures !StartsWith(decoded, fullPrompt) ==> r == decoded
  {
    if StartsWith(decoded, fullPrompt) then Strip(decoded[|fullPrompt|..]) else decoded
  }

  // ---------------------------------------------------------------------
  // Text repair (clean_generated_text)
  // ---------------------------------------------------------------------

  /** The characters that end a sentence. */
  predicate IsTerminal(c: char) {
    c == '.' || c == '!' || c == '?'
  }

  /** `max(text.rfind('.'), text.rfind('!'), text.rfind('?'))`. */
  function LastTerminal(x: string): (k: int)
    ensures -1 <= k < |x|
    ensures k >= 0 ==> IsTerminal(x[k])
    ensures forall j :: k < j < |x| ==> !IsTerminal(x[j])
  {
    var a, b, c := RFind(x, '.'), RFind(x, '!'), RFind(x, '?');
    if a >= b && a >= c then a else if b >= c then b else c
  }

  /**
   * The punctuation step: a non-empty text that does not end in `.`, `!`
   * or `?` is cut back to its last such character, but only when that
   * character is at an index above 0.
   */
  function TrimToSentenceEnd(x: string): (r: string)
    ensures r <= x
    ensures r == x || (|r| >= 2 && IsTerminal(r[|r| - 1]) &&
                       forall j :: |r| <= j < |x| ==> !IsTerminal(x[j]))
    ensures Normal(x) ==> Normal(r)
  {
    if x != [] && !IsTerminal(x[|x| - 1]) then
      var k := LastTerminal(x);
      if k > 0 then
        assert Normal(x) ==> Normal(x[..k + 1]) by {
          if Normal(x) { NormalPrefix(x, k + 1); }
        }
        x[..k + 1]
      else x
    else x
  }

  /** `clean_generated_text`: collapse whitespace, cut back to a sentence end, strip. */
  function CleanGeneratedText(text: string): (r: string)
    ensures Normal(r)
    ensures r <= Collapse(text)
    ensures r == Collapse(text) ||
      (|r| > 0 && IsTerminal(r[|r| - 1]) &&
       forall j :: |r| <= j < |Collapse(text)| ==> !IsTerminal(Collapse(text)[j]))
  {
    var t := TrimToSentenceEnd(Collapse(text));
    StripOfNormal(t);
    Strip(t)
  }

  // ---------------------------------------------------------------------
  // generate
  // ---------------------------------------------------------------------

  /** The record `generate` returns; `error` is present only on the fallback. */
  datatype GenerationResult = GenerationResult(
    generatedText: string,
    wordCount: nat,
    tokensUsed: nat,
    error: Option<string>
  )

  /** The fixed apology text of the fallback record (its two sentences joined by a blank). */
  const FallbackText: string := "Error generating text." + " " + "Please try with a different prompt."

  /** The record returned when generation raised `message`. */
  function GenerationFallback(message: string): GenerationResult {
    GenerationResult(FallbackText, 0, 0, Some(message))
  }

  /**
   * `generate(prompt, tone, max_length, temperature)` against the generative
   * model `model`.
   */
  function Generate(prompt: string, tone: string, maxLength: int, temperature: real,
                    model: SamplingRequest -> GenerationReply): (r: GenerationResult)
    ensures var reply := model(Policy(ApplyTone(prompt, tone), maxLength, temperature));
      match reply
      case Decoded(text, n) =>
        && r.error == None
        && r.generatedText == CleanGeneratedText(StripEcho(text, ApplyTone(prompt, tone)))
        && r.wordCount == |Words(r.generatedText)|
        && r.tokensUsed == n
      case GenerationRaised(m) => r == GenerationFallback(m)
    ensures r.error == None ==> Normal(r.generatedText) && r.wordCount == |Words(r.generatedText)|
  {
    var fullPrompt := ApplyTone(prompt, tone);
    match model(Policy(fullPrompt, maxLength, temperature))
    case GenerationRaised(m) => GenerationFallback(m)
    case Decoded(decoded, n) =>
      var text := CleanGeneratedText(StripEcho(decoded, fullPrompt));
      GenerationResult(text, |Words(text)|, n, None)
  }

  // ---------------------------------------------------------------------
  // Lemmas
  // ---------------------------------------------------------------------

  /** The four known tones give their fixed instruction followed by the prompt. */
  lemma KnownTones(prompt: string)
    ensures ApplyTone(prompt, "formal") == "Write in a formal, professional manner: " + prompt
    ensures ApplyTone(prompt, "casual") == "Write in a casual, conversational style: " + prompt
    ensures ApplyTone(prompt, "creative") == "Write creatively and imaginatively: " + prompt
    ensures ApplyTone(prompt, "technical") == "Write in a technical, precise manner: " + prompt
  {
  }

  /** Over the known tones, the conditioned prompt determines both the tone and the prompt. */
  lemma ToneConditioningInjective(p1: string, t1: string, p2: string, t2: string)
    requires t1 in TonePrefixes && t2 in TonePrefixes
    requires ApplyTone(p1, t1) == ApplyTone(p2, t2)
    ensures t1 == t2 && p1 == p2
  {
    ToneLetters(t1);
    ToneLetters(t2);
    var k := if t1 == "creative" || t2 == "creative" then 6 else 11;
    var c1, c2 := TonePrefix(t1)[k], TonePrefix(t2)[k];
    assert ApplyTone(p1, t1)[k] == c1;
    assert ApplyTone(p2, t2)[k] == c2;
    assert t1 != t2 ==> c1 != c2;
    assert p1 == ApplyTone(p1, t1)[|TonePrefix(t1)|..];
  }

  /**
   * Where the four instructions differ: index 6 is `c` only for "creative"
   * ("Write creatively" against "Write in a"), and for the others index 11
   * is the first letter of the tone word.
   */
  lemma ToneLetters(t: string)
    requires t in TonePrefixes
    ensures |TonePrefix(t)| > 11
    ensures TonePrefix(t)[6] == (if t == "creative" then 'c' else 'i')
    ensures t != "creative" ==> TonePrefix(t)[11] == t[0]
    ensures t == "formal" || t == "casual" || t == "creative" || t == "technical"
  {
  }

  /**
   * The token budget never shrinks a non-negative word budget and never
   * grows a negative one (truncation is toward zero).
   */
  lemma TokenBudgetBounds(maxLength: int)
    ensures maxLength >= 0 ==> maxLength <= MaxTokens(maxLength)
    ensures maxLength < 0 ==> MaxTokens(maxLength) <= maxLength
    ensures MaxTokens(500) == 650
  {
  }

  /** Cleaning is idempotent. */
  lemma CleanIdempotent(text: string)
    ensures CleanGeneratedText(CleanGeneratedText(text)) == CleanGeneratedText(text)
  {
    var c := Collapse(text);
    var t := TrimToSentenceEnd(c);
    StripOfNormal(t);
    assert CleanGeneratedText(text) == t;
    CollapseOfNormal(t);
    assert Collapse(t) == t;
    var t2 := TrimToSentenceEnd(t);
    assert t2 == t;
    StripOfNormal(t2);
  }

  /**
   * The cut-back rule in both directions: when the collapsed text is
   * non-empty, does not end a sentence and has its last `.`, `!` or `?` at
   * an index `k > 0`, the result is exactly the collapsed text up to and
   * including index `k`; in every other case the result is the collapsed
   * text itself.
   */
  lemma CleanCutsAtLastTerminal(text: string)
    ensures var c := Collapse(text); var k := LastTerminal(c);
      if c != [] && !IsTerminal(c[|c| - 1]) && k > 0 then
        CleanGeneratedText(text) == c[..k + 1] && IsTerminal(CleanGeneratedText(text)[k])
      else
        CleanGeneratedText(text) == c
  {
    var c := Collapse(text);
    StripOfNormal(TrimToSentenceEnd(c));
  }

  /** The generated text has no leading, trailing or doubled whitespace. */
  lemma CleanIsTidy(text: string)
    ensures var r := CleanGeneratedText(text);
      (r == [] || (!IsSpace(r[0]) && !IsSpace(r[|r| - 1]))) &&
      (forall i :: 0 <= i < |r| - 1 ==> !(IsSpace(r[i]) && IsSpace(r[i + 1])))
  {
    var r := CleanGeneratedText(text);
    if r != [] { NormalEnds(r); }
  }

  /**
   * Cleaning leaves a text alone exactly when there is nothing to repair: it
   * is already whitespace-normal and it ends a sentence or has no cut point
   * (no `.`, `!` or `?` at an index above 0).
   */
  lemma CleanFixesTidyText(s: string)
    ensures CleanGeneratedText(s) == s <==>
      Normal(s) && (s == [] || IsTerminal(s[|s| - 1]) || LastTerminal(s) <= 0)
  {
    if Normal(s) {
      CollapseOfNormal(s);
      StripOfNormal(s);
      CleanCutsAtLastTerminal(s);
    }
  }

  /** The direction of `CleanFixesTidyText` that `CleanIgnoresTerminalAtZero` and `DoubleEchoKeepsPrompt` use. */
  lemma CleanLeavesTidyText(s: string)
    requires Normal(s) && (s == [] || IsTerminal(s[|s| - 1]) || LastTerminal(s) <= 0)
    ensures CleanGeneratedText(s) == s
  {
    CollapseOfNormal(s);
    StripOfNormal(s);
  }

  /**
   * A terminal at index 0 is no cut point, as the guard is `last_punct > 0`:
   * a whitespace-normal text with no `.`, `!` or `?` after index 0 is
   * returned as it is, whether or not it ends a sentence.
   */
  lemma CleanIgnoresTerminalAtZero(s: string)
    requires Normal(s)
    requires forall j :: 0 < j < |s| ==> !IsTerminal(s[j])
    ensures CleanGeneratedText(s) == s
  {
    CleanLeavesTidyText(s);
  }

  /** "The sky is blue", a continuation with single blanks and no sentence punctuation, is whitespace-normal. */
  lemma SkyIsNormal(s: string)
    requires s == "The sky is blue"
    ensures Normal(s)
  {
  }

  /** A continuation with no sentence punctuation is returned as it is. */
  lemma CleanKeepsUnpunctuated(s: string)
    requires s == "The sky is blue"
    ensures CleanGeneratedText(s) == s
  {
    SkyIsNormal(s);
    assert forall j :: 0 < j < |s| ==> !IsTerminal(s[j]);
    CleanIgnoresTerminalAtZero(s);
  }

  /** A text whose only terminal is its first character, a leading `.`, is kept whole. */
  lemma CleanKeepsLeadingDot(s: string)
    requires s == ".net is fun"
    ensures CleanGeneratedText(s) == s
  {
    assert Normal(s);
    assert forall j :: 0 < j < |s| ==> !IsTerminal(s[j]);
    CleanIgnoresTerminalAtZero(s);
  }

  /**
   * The word-count equation holds only on the success path: the fallback
   * text has words ("Error" is the first of nine) but reports a word count
   * of 0.
   */
  lemma FallbackWordCountDiffers(message: string)
    ensures var r := GenerationFallback(message);
      r.wordCount == 0 && r.tokensUsed == 0 && |Words(r.generatedText)| >= 1 && r.error.Some?
  {
    assert FallbackText[0] == 'E';
  }

  /** With the model failing, generation yields exactly the fallback record. */
  lemma GenerateFailure(prompt: string, tone: string, maxLength: int, temperature: real,
                        model: SamplingRequest -> GenerationReply)
    requires model(Policy(ApplyTone(prompt, tone), maxLength, temperature)).GenerationRaised?
    ensures var r := Generate(prompt, tone, maxLength, temperature, model);
      r.generatedText == FallbackText && r.wordCount == 0 && r.tokensUsed == 0 && r.error.Some?
  {
  }

  /**
   * Exactly one echoed copy of the prompt is removed: output that echoes a
   * tidy, sentence-ending prompt twice still starts with the prompt after
   * echo removal and cleaning.
   */
  lemma DoubleEchoKeepsPrompt(full: string)
    requires Normal(full) && full != [] && IsTerminal(full[|full| - 1])
    ensures CleanGeneratedText(StripEcho(full + " " + full, full)) == full
  {
    EchoRemovedOnce(full);
    CleanLeavesTidyText(full);
  }

  /** Echo removal of a doubled normal prompt leaves exactly one copy. */
  lemma EchoRemovedOnce(full: string)
    requires Normal(full) && full != []
    ensures StripEcho(full + " " + full, full) == full
  {
    var d := full + " " + full;
    assert d[..|full|] == full;
    assert d[|full|..] == " " + full;
    NormalEnds(full);
    StripAfterBlank(full);
  }

  /** A concrete double echo: the prompt "Hi." echoed as "Hi. Hi.". */
  lemma DoubleEchoExample(full: string)
    requires full == "Hi."
    ensures StartsWith(CleanGeneratedText(StripEcho(full + " " + full, full)), full)
  {
    assert Normal(full);
    DoubleEchoKeepsPrompt(full);
  }
}
