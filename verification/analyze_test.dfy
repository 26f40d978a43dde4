/** The standalone analyse script: its own copy of `analyzeTextLocal`, wired to the shared lexicon
    and to the shared rewriter, which corrects the article in front of a replaced example. */
module AnalyzeTest {
  import opened BiasLexicon
  import opened StableSort
  import opened Analyzer

  /** The script's `analyzeTextLocal`: the same category loop as the analyser's, so the same
      result, and with it the analyser's guarantees: the input kept as the original text, a score
      in 0..100 that is 100 exactly when nothing was found, and the findings one per category,
      by descending confidence. */
  method AnalyzeTextLocal(text: string) returns (r: AnalysisResult)
    ensures r == Analysis(text, WithArticles)
    ensures r.originalText == text && 0 <= r.fairnessScore <= 100
    ensures r.fairnessScore == 100 <==> r.biasTypes == []
    ensures forall i, j :: 0 <= i < j < |r.biasTypes| ==> r.biasTypes[i].category != r.biasTypes[j].category
    ensures Descending(r.biasTypes, ByConfidence)
  {
    r := AnalyzeCategories(text, Categories());
    AnalysisScore(text, WithArticles);
    AnalysisOrder(text, WithArticles);
  }
}
