/** The full analysis (`analyze` of the analysis service): preprocess the text, run the
    rule-based analyser on the normalised text, ask the local classifier (or, when it cannot be
    loaded, the remote zero-shot classifier) for per-label scores, and raise the confidence of
    each finding whose category one of the labels names. */
module AnalysisService {
  import opened Wrappers
  import Chars
  import BiasLexicon
  import StableSort
  import Preprocess
  import Analyzer
  import LocalModel

  /** Which classifier answered, with its labels and scores. */
  datatype ModelInfo = ModelInfo(provider: string, labels: seq<string>, scores: seq<Num>)

  /** The analyser's result with the classifier's answer (absent when none answered) and the
      preprocessed tokens. */
  datatype FullAnalysis = FullAnalysis(result: Analyzer.AnalysisResult, model: Option<ModelInfo>, tokens: seq<string>)

  /** What the remote zero-shot classifier returned. */
  datatype Classified = Classified(labels: seq<string>, scores: seq<Num>)

  /** The labels sent to the remote classifier. */
  const FallbackLabels: seq<string> := [
    "Gender Bias", "Age Bias", "Cultural Bias", "Racial Bias",
    "Religious Bias", "Ableist Language", "LGBTQ+ Bias", "Socioeconomic Bias"]

  /** The remote classifier is asked about exactly the analyser's categories, in lexicon order. */
  lemma FallbackLabelsAreCategories()
    ensures |FallbackLabels| == |BiasLexicon.Categories()|
    ensures forall k :: 0 <= k < |FallbackLabels| ==> FallbackLabels[k] == BiasLexicon.Name(BiasLexicon.Categories()[k])
  {
  }

  // The blend.

  /** `labels.findIndex(l => l.toLowerCase() === name.toLowerCase())`, searching from `from`. */
  function FindLabel(labels: seq<string>, name: string, from: nat): (r: Option<nat>)
    requires from <= |labels|
    ensures r.Some? ==> from <= r.value < |labels| && Chars.Lower(labels[r.value]) == Chars.Lower(name)
    ensures r.Some? ==> forall k :: from <= k < r.value ==> Chars.Lower(labels[k]) != Chars.Lower(name)
    ensures r.None? ==> forall k :: from <= k < |labels| ==> Chars.Lower(labels[k]) != Chars.Lower(name)
    decreases |labels| - from
  {
    if from == |labels| then None
    else if Chars.Lower(labels[from]) == Chars.Lower(name) then Some(from)
    else FindLabel(labels, name, from + 1)
  }

  /** `scores[idx]`: past the end it is `undefined`, which `Math.min` turns into NaN. */
  function ScoreAt(scores: seq<Num>, idx: nat): Num {
    if idx < |scores| then scores[idx] else NaN
  }

  /** One finding after calibration: the first label naming its category raises its confidence
      to at most 1; with no such label it is unchanged. */
  function Calibrated(f: Analyzer.Finding, labels: seq<string>, scores: seq<Num>): Analyzer.Finding {
    match FindLabel(labels, BiasLexicon.Name(f.category), 0)
    case None => f
    case Some(idx) => f.(confidence := JsMax(f.confidence, JsMin(Finite(1.0), ScoreAt(scores, idx))))
  }

  /** The map over the findings. */
  function Blend(findings: seq<Analyzer.Finding>, labels: seq<string>, scores: seq<Num>): (r: seq<Analyzer.Finding>)
    ensures |r| == |findings|
  {
    seq(|findings|, k requires 0 <= k < |findings| => Calibrated(findings[k], labels, scores))
  }

  /** Label `i` is the first that names the category, ignoring case. */
  predicate FirstNaming(labels: seq<string>, c: BiasLexicon.Category, i: int) {
    0 <= i < |labels| && Chars.Lower(labels[i]) == Chars.Lower(BiasLexicon.Name(c)) &&
    forall h :: 0 <= h < i ==> Chars.Lower(labels[h]) != Chars.Lower(BiasLexicon.Name(c))
  }

  /** Blending keeps every finding in its place with its category, examples and suggestions; a
      finding no label names keeps its confidence; one that a label names gets the larger of its
      confidence and the score capped at 1. */
  lemma BlendKeeps(findings: seq<Analyzer.Finding>, labels: seq<string>, scores: seq<Num>, k: nat)
    requires k < |findings|
    ensures var f, g := findings[k], Blend(findings, labels, scores)[k];
      g.category == f.category && g.examples == f.examples && g.suggestions == f.suggestions &&
      ((forall i :: 0 <= i < |labels| ==> Chars.Lower(labels[i]) != Chars.Lower(BiasLexicon.Name(f.category))) ==> g == f) &&
      (forall i :: FirstNaming(labels, f.category, i) ==>
        g.confidence == JsMax(f.confidence, JsMin(Finite(1.0), ScoreAt(scores, i))))
  {
    var f := findings[k];
    var r := FindLabel(labels, BiasLexicon.Name(f.category), 0);
    if r.Some? {
      forall i | FirstNaming(labels, f.category, i)
        ensures i == r.value
      {
        if i != r.value {
          assert false;
        }
      }
    }
  }

  /** A confidence of at most 1 does not decrease and stays at most 1 when the score is a
      number; a missing or NaN score makes it NaN. */
  lemma CalibratedConfidence(f: Analyzer.Finding, labels: seq<string>, scores: seq<Num>)
    requires f.confidence.Finite? && f.confidence.value <= 1.0
    ensures var g := Calibrated(f, labels, scores);
      match FindLabel(labels, BiasLexicon.Name(f.category), 0)
      case None => g == f
      case Some(idx) =>
        (g.confidence.NaN? <==> ScoreAt(scores, idx).NaN?) &&
        (g.confidence.Finite? ==> f.confidence.value <= g.confidence.value <= 1.0)
  {
  }

  /** Calibrating twice with the same scores is calibrating once. */
  lemma BlendIdempotent(findings: seq<Analyzer.Finding>, labels: seq<string>, scores: seq<Num>)
    ensures Blend(Blend(findings, labels, scores), labels, scores) == Blend(findings, labels, scores)
  {
    var once := Blend(findings, labels, scores);
    forall k | 0 <= k < |findings|
      ensures Calibrated(once[k], labels, scores) == once[k]
    {
      var f := findings[k];
      match FindLabel(labels, BiasLexicon.Name(f.category), 0)
      case None =>
      case Some(idx) =>
        var m := JsMin(Finite(1.0), ScoreAt(scores, idx));
        assert JsMax(JsMax(f.confidence, m), m) == JsMax(f.confidence, m);
    }
  }

  /** The blend does not sort again: a finding that a score raises can overtake one before it. */
  lemma BlendMayUnsort()
    ensures var fs := [
        Analyzer.Finding(BiasLexicon.Gender, Finite(0.95), ["he"], ["they"]),
        Analyzer.Finding(BiasLexicon.Age, Finite(0.9), ["young"], ["motivated"])];
      StableSort.Descending(fs, Analyzer.ByConfidence) &&
      !StableSort.Descending(Blend(fs, ["Age Bias"], [Finite(1.0)]), Analyzer.ByConfidence)
  {
    var fs := [
      Analyzer.Finding(BiasLexicon.Gender, Finite(0.95), ["he"], ["they"]),
      Analyzer.Finding(BiasLexicon.Age, Finite(0.9), ["young"], ["motivated"])];
    var labels := ["Age Bias"];
    assert Chars.Lower(labels[0]) != Chars.Lower("Gender Bias") by {
      assert Chars.Lower(labels[0])[0] == 'a' && Chars.Lower("Gender Bias")[0] == 'g';
    }
    assert FindLabel(labels, "Gender Bias", 0) == None;
    assert FindLabel(labels, "Age Bias", 0) == Some(0);
    var b := Blend(fs, labels, [Finite(1.0)]);
    assert b[0] == fs[0];
    assert b[1].confidence == Finite(1.0);
  }

  // The orchestration.

  /** The classifier's answer: the local model when it loads (its `predict` may throw), the remote
      classifier otherwise, and nothing when both fail. */
  function ModelOutcome(fetched: LocalModel.Fetched, zeroShot: Option<Classified>, tokens: seq<string>, sigmoid: real -> real): Result<Option<ModelInfo>> {
    match LocalModel.LoadLocalModel(fetched)
    case Some(m) =>
      (match LocalModel.Predicted(m.artifact, tokens, sigmoid)
       case Throws(e) => Throws(e)
       case Ok(p) => Ok(Some(ModelInfo("local", p.labels, p.scores))))
    case None =>
      (match zeroShot
       case None => Ok(None)
       case Some(c) => Ok(Some(ModelInfo("huggingface", c.labels, c.scores))))
  }

  /** What `analyze` resolves to, or the error it rejects with. */
  function Analyzed(text: string, fetched: LocalModel.Fetched, zeroShot: Option<Classified>, sigmoid: real -> real): Result<FullAnalysis> {
    var prep := Preprocess.Preprocess(text);
    var base := Analyzer.Analysis(prep.text, BiasLexicon.WithArticles);
    match ModelOutcome(fetched, zeroShot, prep.tokens, sigmoid)
    case Throws(e) => Throws(e)
    case Ok(None) => Ok(FullAnalysis(base, None, prep.tokens))
    case Ok(Some(info)) =>
      var blended := if info.labels != [] && info.scores != [] then Blend(base.biasTypes, info.labels, info.scores) else base.biasTypes;
      Ok(FullAnalysis(base.(biasTypes := blended), Some(info), prep.tokens))
  }

  /** `analyze`. The artifact read and the remote call are given as their outcomes. */
  method Analyze(text: string, fetched: LocalModel.Fetched, zeroShot: Option<Classified>, sigmoid: real -> real)
    returns (r: Result<FullAnalysis>)
    ensures r == Analyzed(text, fetched, zeroShot, sigmoid)
  {
    var prep := Preprocess.Preprocess(text);
    var base := Analyzer.AnalyzeTextLocal(prep.text);
    var provider := "local";
    var labels: seq<string> := [];
    var scores: seq<Num> := [];
    var localModel := LocalModel.LoadLocalModel(fetched);
    if localModel.Some? {
      var res := LocalModel.Predict(localModel.value, prep.tokens, sigmoid);
      if res.Throws? {
        return Throws(res.message);
      }
      labels, scores := res.value.labels, res.value.scores;
    } else {
      provider := "huggingface";
      if zeroShot.Some? {
        labels, scores := zeroShot.value.labels, zeroShot.value.scores;
      } else {
        provider := "none";
      }
    }
    if |labels| > 0 && |scores| > 0 {
      base := base.(biasTypes := Blend(base.biasTypes, labels, scores));
    }
    var model := if provider == "none" then None else Some(ModelInfo(provider, labels, scores));
    r := Ok(FullAnalysis(base, model, prep.tokens));
  }

  // What the full analysis promises.

  /** The call fails only when the local model loads and its `predict` throws: there are labels
      but no bias array, or a label has no weight row; the error is `predict`'s. The model part
      is absent exactly when neither classifier answered, and names the one that did. */
  lemma AnalyzedOutcome(text: string, fetched: LocalModel.Fetched, zeroShot: Option<Classified>, sigmoid: real -> real)
    ensures var r := Analyzed(text, fetched, zeroShot, sigmoid);
      (r.Throws? <==>
         fetched.Parsed? &&
         ((|fetched.artifact.labels| > 0 && fetched.artifact.bias.None?) ||
          |fetched.artifact.weights| < |fetched.artifact.labels|)) &&
      (r.Throws? ==> r.message == LocalModel.Predicted(fetched.artifact, Preprocess.Preprocess(text).tokens, sigmoid).message) &&
      (r.Ok? ==> (r.value.model.None? <==> !fetched.Parsed? && zeroShot.None?)) &&
      (r.Ok? && fetched.Parsed? ==> r.value.model == Some(ModelInfo("local", fetched.artifact.labels,
         LocalModel.Predicted(fetched.artifact, Preprocess.Preprocess(text).tokens, sigmoid).value.scores))) &&
      (r.Ok? && !fetched.Parsed? && zeroShot.Some? ==>
         r.value.model == Some(ModelInfo("huggingface", zeroShot.value.labels, zeroShot.value.scores)))
  {
  }

  /** The analyser runs on the normalised text: the original text reported is the normalised
      one, and the score, the improved text and the tokens are the preprocessing's and the
      analyser's own; the findings are the analyser's, blended when there are labels and scores. */
  lemma AnalyzedParts(text: string, fetched: LocalModel.Fetched, zeroShot: Option<Classified>, sigmoid: real -> real)
    requires Analyzed(text, fetched, zeroShot, sigmoid).Ok?
    ensures var r := Analyzed(text, fetched, zeroShot, sigmoid).value;
      var t := Preprocess.Normalized(text);
      var base := Analyzer.Analysis(t, BiasLexicon.WithArticles);
      r.result.originalText == t &&
      r.result.fairnessScore == base.fairnessScore &&
      r.result.improvedText == base.improvedText &&
      r.tokens == Preprocess.Preprocess(text).tokens &&
      (r.model.Some? && r.model.value.labels != [] && r.model.value.scores != [] ==>
        r.result.biasTypes == Blend(base.biasTypes, r.model.value.labels, r.model.value.scores)) &&
      (r.model.None? || r.model.value.labels == [] || r.model.value.scores == [] ==>
        r.result.biasTypes == base.biasTypes)
  {
    Analyzer.OverParts(Preprocess.Normalized(text), BiasLexicon.WithArticles, BiasLexicon.Categories());
  }

  /** The classifier only calibrates: every reported finding is one of the analyser's findings
      with possibly a new confidence, in the same position, and no category gains a finding. */
  lemma AnalyzedFindings(text: string, fetched: LocalModel.Fetched, zeroShot: Option<Classified>, sigmoid: real -> real)
    requires Analyzed(text, fetched, zeroShot, sigmoid).Ok?
    ensures var bt := Analyzed(text, fetched, zeroShot, sigmoid).value.result.biasTypes;
      var base := Analyzer.Analysis(Preprocess.Normalized(text), BiasLexicon.WithArticles).biasTypes;
      |bt| == |base| &&
      forall k :: 0 <= k < |bt| ==>
        bt[k].category == base[k].category && bt[k].examples == base[k].examples && bt[k].suggestions == base[k].suggestions
  {
    AnalyzedParts(text, fetched, zeroShot, sigmoid);
    var r := Analyzed(text, fetched, zeroShot, sigmoid).value;
    var base := Analyzer.Analysis(Preprocess.Normalized(text), BiasLexicon.WithArticles).biasTypes;
    if r.model.Some? && r.model.value.labels != [] && r.model.value.scores != [] {
      forall k | 0 <= k < |base|
        ensures r.result.biasTypes[k].category == base[k].category && r.result.biasTypes[k].examples == base[k].examples &&
          r.result.biasTypes[k].suggestions == base[k].suggestions
      {
        BlendKeeps(base, r.model.value.labels, r.model.value.scores, k);
      }
    }
  }
}
