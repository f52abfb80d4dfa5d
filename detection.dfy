/**
 * Model of `AIDetector` in functions/models/detector.py: the perplexity
 * cap, the burstiness heuristic and the fusion of the classifier's
 * probability into a verdict.
 *
 * The classifier, the exponentiated cross-entropy loss and numpy's square
 * root are oracles: total functions handed in by the caller. Floats are
 * real numbers; `round(x, 2)` is rounding half to even at two decimals.
 */
module Detection {
  import opened Wrappers
  import opened PyText

  type NonNegReal = r: real | r >= 0.0
  type Probability = p: real | 0.0 <= p <= 1.0

  /** What the classifier gives back: P(label 1) after the softmax, or an exception. */
  datatype ClassifierReply =
    | Probabilities(aiProbability: Probability)
    | ClassifierRaised(message: string)

  /** What the perplexity computation gives back: `exp(loss)`, or an exception. */
  datatype PerplexityReply =
    | Exponentiated(value: NonNegReal)
    | PerplexityRaised

  /** The three external computations the detector relies on. */
  datatype Oracles = Oracles(
    classify: string -> ClassifierReply,
    lossExp: string -> PerplexityReply,
    sqrt: real -> NonNegReal
  )

  // ---------------------------------------------------------------------
  // calculate_perplexity
  // ---------------------------------------------------------------------

  /** `min(exp(loss), 100.0)`, or 0.0 when the computation raised. */
  function CalculatePerplexity(text: string, lossExp: string -> PerplexityReply): (r: real)
    ensures 0.0 <= r <= 100.0
    ensures match lossExp(text)
      case Exponentiated(v) => r == (if v <= 100.0 then v else 100.0)
      case PerplexityRaised => r == 0.0
  {
    match lossExp(text)
    case PerplexityRaised => 0.0
    case Exponentiated(v) => if v <= 100.0 then v else 100.0
  }

  // ---------------------------------------------------------------------
  // calculate_burstiness
  // ---------------------------------------------------------------------

  /** `[f(s) for s in pieces if f(s)]`: each piece mapped by `f`, empty results dropped. */
  function KeepBy(f: string -> string, pieces: seq<string>): (ss: seq<string>)
    ensures |ss| <= |pieces|
  {
    if pieces == [] then []
    else (if f(pieces[0]) != [] then [f(pieces[0])] else []) + KeepBy(f, pieces[1..])
  }

  /** `[s.strip() for s in pieces if s.strip()]`. */
  function KeepSentences(pieces: seq<string>): (ss: seq<string>)
    ensures |ss| <= |pieces|
  {
    KeepBy(Strip, pieces)
  }

  /** The sentences of `text`: split on `.` only, stripped, empty pieces dropped. */
  function Sentences(text: string): seq<string> {
    KeepSentences(SplitOn(text, '.'))
  }

  /** `[len(s.split()) for s in sentences]`. */
  function WordCounts(ss: seq<string>): (counts: seq<nat>)
    ensures |counts| == |ss|
  {
    if ss == [] then [] else [|Words(ss[0])|] + WordCounts(ss[1..])
  }

  function Sum(xs: seq<nat>): nat {
    if xs == [] then 0 else xs[0] + Sum(xs[1..])
  }

  /** numpy `mean`. */
  function Mean(xs: seq<nat>): (m: real)
    requires |xs| > 0
    ensures m >= 0.0
  {
    QuotientNonNegative(Sum(xs) as real, |xs| as real);
    Sum(xs) as real / |xs| as real
  }

  /** The sum of squared deviations from `m`. */
  function SquaredDeviations(xs: seq<nat>, m: real): (r: real)
    ensures r >= 0.0
  {
    if xs == [] then 0.0
    else
      var d := xs[0] as real - m;
      assert d * d >= 0.0 by { if d < 0.0 { assert d * d == (-d) * (-d); } }
      d * d + SquaredDeviations(xs[1..], m)
  }

  /** The population variance, whose square root numpy's `std` takes. */
  function Variance(xs: seq<nat>, m: real): (r: real)
    requires |xs| > 0
    ensures r >= 0.0
  {
    SquaredDeviations(xs, m) / |xs| as real
  }

  /**
   * `calculate_burstiness`: the coefficient of variation of the sentence
   * word counts, capped at 1; 0.0 for fewer than two sentences. For a string
   * argument nothing in the body raises, so the `except` branch is not
   * reachable here.
   */
  function CalculateBurstiness(text: string, sqrt: real -> NonNegReal): (b: real)
    ensures 0.0 <= b <= 1.0
    ensures |Sentences(text)| < 2 ==> b == 0.0
  {
    var ss := Sentences(text);
    if |ss| < 2 then 0.0
    else
      var counts := WordCounts(ss);
      var mean := Mean(counts);
      if mean == 0.0 then 0.0
      else
        var sd := sqrt(Variance(counts, mean));
        QuotientNonNegative(sd, mean);
        var cv := sd / mean;
        if cv <= 1.0 then cv else 1.0
  }

  // ---------------------------------------------------------------------
  // round(x, 2)
  // ---------------------------------------------------------------------

  /** Python's `round(x, 2)` on an exact real: nearest hundredth, ties to even. */
  function Round2(x: real): (r: real)
    ensures x - 0.005 <= r <= x + 0.005
  {
    var y := x * 100.0;
    var f := y.Floor;
    var frac := y - f as real;
    var n := if frac < 0.5 then f
             else if frac > 0.5 then f + 1
             else if f % 2 == 0 then f else f + 1;
    n as real / 100.0
  }

  // ---------------------------------------------------------------------
  // predict
  // ---------------------------------------------------------------------

  /** The record `predict` returns; `error` is present only on the fallback. */
  datatype DetectionResult = DetectionResult(
    isAI: bool,
    confidence: real,
    perplexity: real,
    burstiness: real,
    error: Option<string>
  )

  /** The neutral record returned when prediction raised `message`. */
  function DetectionFallback(message: string): DetectionResult {
    DetectionResult(false, 50.0, 0.0, 0.0, Some(message))
  }

  /** The verdict rule: AI when the confidence is above 50 percent. */
  predicate Verdict(confidence: real) {
    confidence > 50.0
  }

  /** `predict(text)`: fuse the classifier's probability and the two heuristics. */
  function Predict(text: string, o: Oracles): (r: DetectionResult)
    ensures 0.0 <= r.confidence <= 100.0
    ensures 0.0 <= r.perplexity <= 100.0
    ensures 0.0 <= r.burstiness <= 1.0
    ensures o.classify(text).Probabilities? ==>
      && r.error == None
      && r.isAI == Verdict(o.classify(text).aiProbability * 100.0)
      && r.confidence == Round2(o.classify(text).aiProbability * 100.0)
      && r.perplexity == Round2(CalculatePerplexity(text, o.lossExp))
      && r.burstiness == Round2(CalculateBurstiness(text, o.sqrt))
    ensures o.classify(text).ClassifierRaised? ==> r == DetectionFallback(o.classify(text).message)
  {
    match o.classify(text)
    case ClassifierRaised(m) => DetectionFallback(m)
    case Probabilities(p) =>
      var confidence := p * 100.0;
      var perplexity := CalculatePerplexity(text, o.lossExp);
      var burstiness := CalculateBurstiness(text, o.sqrt);
      var isAI := Verdict(confidence);
      Round2Between(confidence, 0, 10000);
      Round2Between(perplexity, 0, 10000);
      Round2Between(burstiness, 0, 100);
      DetectionResult(isAI, Round2(confidence), Round2(perplexity), Round2(burstiness), None)
  }

  // ---------------------------------------------------------------------
  // Lemmas
  // ---------------------------------------------------------------------

  /** Rounding to hundredths is monotone. */
  lemma Round2Monotone(x: real, y: real)
    requires x <= y
    ensures Round2(x) <= Round2(y)
  {
    var fx, fy := (x * 100.0).Floor, (y * 100.0).Floor;
    assert fx <= fy;
  }

  /** A whole number of hundredths is left as it is. */
  lemma Round2Cents(k: int)
    ensures Round2(k as real / 100.0) == k as real / 100.0
  {
    var x := k as real / 100.0;
    assert x * 100.0 == k as real;
    assert (x * 100.0).Floor == k;
  }

  /** Rounding keeps a value inside bounds given in hundredths. */
  lemma Round2Between(x: real, lo: int, hi: int)
    requires lo as real / 100.0 <= x <= hi as real / 100.0
    ensures lo as real / 100.0 <= Round2(x) <= hi as real / 100.0
  {
    Round2Monotone(lo as real / 100.0, x);
    Round2Monotone(x, hi as real / 100.0);
    Round2Cents(lo);
    Round2Cents(hi);
  }

  /** Every kept sentence is non-empty and already stripped. */
  lemma {:induction false} KeepSentencesStripped(pieces: seq<string>)
    ensures forall k :: 0 <= k < |KeepSentences(pieces)| ==>
      KeepSentences(pieces)[k] != [] && Strip(KeepSentences(pieces)[k]) == KeepSentences(pieces)[k]
  {
    if pieces != [] {
      StripIdempotent(pieces[0]);
      KeepSentencesStripped(pieces[1..]);
      KeepSentencesCons(pieces);
      KeepSentencesSingle(pieces[0]);
    }
  }

  /** Filtering works piece by piece: the kept results of two runs of pieces are concatenated. */
  lemma {:induction false} KeepByAppend(f: string -> string, a: seq<string>, b: seq<string>)
    ensures KeepBy(f, a + b) == KeepBy(f, a) + KeepBy(f, b)
  {
    if a == [] {
      assert a + b == b;
    } else {
      assert (a + b)[0] == a[0] && (a + b)[1..] == a[1..] + b;
      KeepByAppend(f, a[1..], b);
    }
  }

  /** The sentences of two runs of pieces are the two runs' sentences, in order. */
  lemma KeepSentencesAppend(a: seq<string>, b: seq<string>)
    ensures KeepSentences(a + b) == KeepSentences(a) + KeepSentences(b)
  {
    KeepByAppend(Strip, a, b);
  }

  /** The first piece's sentences come before those of the rest. */
  lemma KeepSentencesCons(pieces: seq<string>)
    requires pieces != []
    ensures KeepSentences(pieces) == KeepSentences([pieces[0]]) + KeepSentences(pieces[1..])
  {
    KeepSentencesAppend([pieces[0]], pieces[1..]);
    assert [pieces[0]] + pieces[1..] == pieces;
  }

  /** One piece is kept, stripped, exactly when it is not blank. */
  lemma KeepSentencesSingle(p: string)
    ensures KeepSentences([p]) == if Strip(p) == [] then [] else [Strip(p)]
  {
    assert [p][1..] == [];
  }

  /** Each count is the number of words of its sentence. */
  lemma {:induction false} WordCountsCountWords(ss: seq<string>)
    ensures forall k :: 0 <= k < |ss| ==> WordCounts(ss)[k] == |Words(ss[k])|
  {
    if ss != [] { WordCountsCountWords(ss[1..]); }
  }

  /**
   * The sentences of a text are non-empty, stripped, free of `.`, and have
   * at least one word each.
   */
  lemma SentencesWellFormed(text: string)
    ensures forall k :: 0 <= k < |Sentences(text)| ==>
      var s := Sentences(text)[k];
      s != [] && Strip(s) == s && '.' !in s && |Words(s)| >= 1
  {
    var pieces := SplitOn(text, '.');
    var ss := KeepSentences(pieces);
    KeepSentencesStripped(pieces);
    KeepSentencesAvoid(pieces, '.');
    forall k | 0 <= k < |ss| ensures |Words(ss[k])| >= 1 { StrippedHasWord(ss[k]); }
  }

  /** A character absent from every piece is absent from every kept sentence. */
  lemma {:induction false} KeepSentencesAvoid(pieces: seq<string>, c: char)
    requires forall k :: 0 <= k < |pieces| ==> c !in pieces[k]
    ensures forall k :: 0 <= k < |KeepSentences(pieces)| ==> c !in KeepSentences(pieces)[k]
  {
    if pieces != [] {
      var h, t := KeepSentences([pieces[0]]), KeepSentences(pieces[1..]);
      assert forall k :: 0 <= k < |h| ==> c !in h[k] by {
        StripKeepsAbsence(pieces[0], c);
        KeepSentencesSingle(pieces[0]);
      }
      assert forall k :: 0 <= k < |t| ==> c !in t[k] by {
        KeepSentencesAvoid(pieces[1..], c);
      }
      KeepSentencesCons(pieces);
      AvoidConcat(h, t, c);
    }
  }

  /** A character absent from every string of two lists is absent from every string of their concatenation. */
  lemma AvoidConcat(h: seq<string>, t: seq<string>, c: char)
    requires forall k :: 0 <= k < |h| ==> c !in h[k]
    requires forall k :: 0 <= k < |t| ==> c !in t[k]
    ensures forall k :: 0 <= k < |h + t| ==> c !in (h + t)[k]
  {
    forall k | 0 <= k < |h + t| ensures c !in (h + t)[k] {
      if k < |h| { assert (h + t)[k] == h[k]; } else { assert (h + t)[k] == t[k - |h|]; }
    }
  }


  /** The sum of counts that are all at least 1 is at least their number. */
  lemma {:induction false} SumAtLeastLength(xs: seq<nat>)
    requires forall k :: 0 <= k < |xs| ==> xs[k] >= 1
    ensures Sum(xs) >= |xs|
  {
    if xs != [] { SumAtLeastLength(xs[1..]); }
  }

  /**
   * Every kept sentence has a word, so the mean sentence length is at least
   * 1 and the `mean_length == 0` branch never runs.
   */
  lemma MeanSentenceLengthAtLeastOne(text: string)
    requires |Sentences(text)| >= 2
    ensures Mean(WordCounts(Sentences(text))) >= 1.0
  {
    var ss := Sentences(text);
    var counts := WordCounts(ss);
    SentencesWellFormed(text);
    WordCountsCountWords(ss);
    SumAtLeastLength(counts);
    QuotientAtLeastOne(Sum(counts) as real, |counts| as real);
  }

  lemma QuotientNonNegative(a: real, b: real)
    requires a >= 0.0 && b > 0.0
    ensures a / b >= 0.0
  {
  }

  lemma QuotientAtLeastOne(s: real, n: real)
    requires s >= n > 0.0
    ensures s / n >= 1.0
  {
  }

  /** `split('.')` of a text without `.` is that text alone. */
  lemma {:induction false} SplitWithoutSeparator(s: string, sep: char)
    requires sep !in s
    ensures SplitOn(s, sep) == [s]
  {
    if s != [] {
      assert sep !in s[1..];
      SplitWithoutSeparator(s[1..], sep);
      assert [s[0]] + s[1..] == s;
    }
  }

  /** The sum of `n` copies of `c` is `n * c`. */
  lemma {:induction false} SumOfConstant(xs: seq<nat>, c: nat)
    requires forall k :: 0 <= k < |xs| ==> xs[k] == c
    ensures Sum(xs) == |xs| * c
  {
    if xs != [] { SumOfConstant(xs[1..], c); }
  }

  /** Copies of `c` do not deviate from `c`. */
  lemma {:induction false} NoDeviationFromConstant(xs: seq<nat>, c: nat)
    requires forall k :: 0 <= k < |xs| ==> xs[k] == c
    ensures SquaredDeviations(xs, c as real) == 0.0
  {
    if xs != [] { NoDeviationFromConstant(xs[1..], c); }
  }

  /** The mean of copies of `c` is `c`, and their variance about it is 0. */
  lemma ConstantStatistics(xs: seq<nat>, c: nat)
    requires |xs| > 0
    requires forall k :: 0 <= k < |xs| ==> xs[k] == c
    ensures Mean(xs) == c as real
    ensures Variance(xs, c as real) == 0.0
  {
    SumOfConstant(xs, c);
    var n := |xs| as real;
    assert Sum(xs) as real == n * c as real;
    assert (n * c as real) / n == c as real;
    NoDeviationFromConstant(xs, c);
  }

  /**
   * Burstiness measures variation: when every sentence has the same number
   * of words the standard deviation is 0 and so is the burstiness (for a
   * square root that maps 0 to 0).
   */
  lemma UniformSentencesNoBurstiness(text: string, sqrt: real -> NonNegReal)
    requires sqrt(0.0) == 0.0
    requires var ss := Sentences(text);
      forall j, k :: 0 <= j < |ss| && 0 <= k < |ss| ==> |Words(ss[j])| == |Words(ss[k])|
    ensures CalculateBurstiness(text, sqrt) == 0.0
  {
    var ss := Sentences(text);
    if |ss| >= 2 {
      var counts := WordCounts(ss);
      WordCountsCountWords(ss);
      var c := counts[0];
      assert forall k :: 0 <= k < |counts| ==> counts[k] == c;
      ConstantStatistics(counts, c);
      MeanSentenceLengthAtLeastOne(text);
      var mean := Mean(counts);
      assert sqrt(Variance(counts, mean)) == 0.0;
      assert 0.0 / mean == 0.0;
    }
  }

  /** Only `.` separates sentences: a text without `.` has burstiness 0.0. */
  lemma NoPeriodNoBurstiness(text: string, sqrt: real -> NonNegReal)
    requires '.' !in text
    ensures |Sentences(text)| <= 1
    ensures CalculateBurstiness(text, sqrt) == 0.0
  {
    SplitWithoutSeparator(text, '.');
  }

  /** "Hello world" is a single sentence, so its burstiness is exactly 0.0. */
  lemma HelloWorldBurstiness(text: string, sqrt: real -> NonNegReal)
    requires text == "Hello world"
    ensures CalculateBurstiness(text, sqrt) == 0.0
  {
    NoPeriodNoBurstiness(text, sqrt);
  }

  /**
   * The verdict uses the confidence before rounding. The reported (rounded)
   * confidence disagrees with the verdict exactly for confidences in
   * (50, 50.005], where it reads 50.0 while the verdict is AI.
   */
  lemma VerdictBeforeRounding(c: real)
    ensures Verdict(c) != Verdict(Round2(c)) <==> 50.0 < c <= 50.005
    ensures 50.0 < c <= 50.005 ==> Round2(c) == 50.0
  {
    Round2Cents(5000);
    if c <= 50.0 {
      Round2Monotone(c, 50.0);
    } else if c <= 50.005 {
      Round2Monotone(50.0, c);
      Round2Monotone(c, 50.005);
      assert Round2(50.005) == 50.0 by {
        assert (50.005 * 100.0).Floor == 5000;
      }
    }
  }

  /** With P(AI) = 0.50001 the result says AI while reporting confidence 50.0. */
  lemma RoundedConfidenceHidesVerdict(text: string, o: Oracles)
    requires o.classify(text) == Probabilities(0.50001)
    ensures Predict(text, o).isAI && Predict(text, o).confidence == 50.0
  {
    VerdictBeforeRounding(0.50001 * 100.0);
  }

  /** The fallback record is consistent with the threshold rule. */
  lemma FallbackFollowsVerdict(message: string)
    ensures var r := DetectionFallback(message);
      r.isAI == Verdict(r.confidence) && r.perplexity == 0.0 && r.burstiness == 0.0
  {
  }

  /**
   * A failing perplexity computation is caught inside the heuristic: the
   * prediction still succeeds, with the classifier's verdict and perplexity 0.
   */
  lemma PerplexityFailureIsCaught(text: string, o: Oracles)
    requires o.classify(text).Probabilities? && o.lossExp(text).PerplexityRaised?
    ensures Predict(text, o).error == None
    ensures Predict(text, o).isAI == Verdict(o.classify(text).aiProbability * 100.0)
    ensures Predict(text, o).perplexity == 0.0
  {
    Round2Cents(0);
  }
}
