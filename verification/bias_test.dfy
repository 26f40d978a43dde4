/** The standalone bias-test script: the same lexicon and the same analysis loop as the analyser,
    but a rewriter that only replaces each example literally and never corrects the article in
    front of it. */
module BiasTest {
  import opened Wrappers
  import opened Chars
  import opened Regex
  import opened BiasLexicon
  import opened StableSort
  import opened Analyzer

  /** The script's `applySuggestions`: every case-insensitive occurrence of each example in turn
      replaced by its suggestion, each step working on the previous one's output. */
  method ApplySuggestions(text: string, examples: seq<string>, suggestions: seq<string>) returns (improved: string)
    ensures improved == Rewritten(PlainOnly, text, examples, suggestions, |examples|)
    ensures (forall i :: 0 <= i < |examples| ==> !OccursIn(text, examples[i])) ==> improved == text
  {
    improved := text;
    ghost var absent := forall j :: 0 <= j < |examples| ==> !OccursIn(text, examples[j]);
    for i := 0 to |examples|
      invariant improved == Rewritten(PlainOnly, text, examples, suggestions, i)
      invariant absent ==> improved == text
    {
      var ex := examples[i];
      var sug := SuggestionFor(suggestions, i, ex);
      PlainStep(text, examples, suggestions, i);
      if absent {
        RewriteStepAbsent(PlainOnly, text, ex, sug);
      }
      improved := Replace(improved, Literal(ex), Template(sug));
    }
  }

  lemma PlainStep(text: string, examples: seq<string>, suggestions: seq<string>, i: nat)
    requires i < |examples|
    ensures Rewritten(PlainOnly, text, examples, suggestions, i + 1) ==
      Replace(Rewritten(PlainOnly, text, examples, suggestions, i), Literal(examples[i]),
              Template(SuggestionFor(suggestions, i, examples[i])))
  {
  }

  /** What a category that collected examples adds, rewriting without article correction. */
  method AddPlainFinding(text: string, category: Category, foundExamples: seq<string>, foundSuggestions: seq<string>, maxWeight: nat,
                         findings: seq<Finding>, penalty2: nat, improvedText: string)
    returns (findings': seq<Finding>, penalty2': nat, improvedText': string)
    requires improvedText == RewriteAll(PlainOnly, text, findings)
    ensures Progress(findings', penalty2') ==
      CategoryStep(Progress(findings, penalty2), category, Collected(foundExamples, foundSuggestions, maxWeight))
    ensures improvedText' == RewriteAll(PlainOnly, text, findings')
  {
    findings', penalty2', improvedText' := findings, penalty2, improvedText;
    if |foundExamples| > 0 {
      var confidence := Confidence(maxWeight);
      var finding := Finding(category, Finite(confidence), foundExamples, foundSuggestions);
      RewriteAllStep(PlainOnly, text, findings, finding);
      findings' := findings + [finding];
      penalty2' := penalty2 + Cost(|foundExamples|, maxWeight);
      improvedText' := ApplySuggestions(improvedText, foundExamples, foundSuggestions);
    }
  }

  /** The script's `analyzeText`: the analyser's result with the plain rewriter, so the same
      confidences, score and order as the analyser's. */
  method AnalyzeText(text: string) returns (r: AnalysisResult)
    ensures r == Analysis(text, PlainOnly)
    ensures r.originalText == text && 0 <= r.fairnessScore <= 100
    ensures r.fairnessScore == 100 <==> r.biasTypes == []
    ensures forall i :: 0 <= i < |r.biasTypes| ==> 0.9 <= ByConfidence(r.biasTypes[i]) <= 1.0
    ensures Descending(r.biasTypes, ByConfidence)
  {
    var categories := Categories();
    var findings: seq<Finding> := [];
    var penalty2: nat := 0;
    var improvedText := text;
    ghost var cols := CollectAll(text, categories);
    for ci := 0 to |categories|
      invariant Progress(findings, penalty2) == Run(categories, cols, ci)
      invariant improvedText == RewriteAll(PlainOnly, text, findings)
    {
      var category := categories[ci];
      var foundExamples, foundSuggestions, maxWeight := CollectCategoryOf(text, category);
      findings, penalty2, improvedText :=
        AddPlainFinding(text, category, foundExamples, foundSuggestions, maxWeight, findings, penalty2, improvedText);
    }
    r := AnalysisResult(text, FairnessScore(penalty2), SortDesc(findings, ByConfidence), improvedText);
    AnalysisScore(text, PlainOnly);
    AnalysisConfidence(text, PlainOnly);
    AnalysisOrder(text, PlainOnly);
  }

  /** The plain rewriter leaves the article alone: "an ambitious" becomes "an goal-oriented". */
  lemma ArticleKept()
    ensures RewriteStep(PlainOnly, "an ambitious", "ambitious", "goal-oriented") == "an " + "goal-oriented"
  {
    AmbitiousScan();
    NoDollar();
    GoalOrientedInserted("an ambitious", "goal-oriented");
  }

  lemma GoalOrientedInserted(t: string, sug: string)
    requires t == "an ambitious" && '$' !in sug
    ensures Rebuild(t, [Span(3, 12)], 0, Template(sug)) == "an " + sug
  {
    RebuildOne(t, 3, 12, sug);
    assert t[0..3] == "an ";
  }

  /** Replacing a single span that reaches the end of the text with a template without `$`. */
  lemma RebuildOne(t: string, i: nat, j: nat, sug: string)
    requires i <= j == |t| && '$' !in sug
    ensures Rebuild(t, [Span(i, j)], 0, Template(sug)) == t[0..i] + sug
  {
    assert [Span(i, j)][1..] == [];
    assert Rebuild(t, [], j, Template(sug)) == [];
    assert ReplacementFor(t, Span(i, j), Template(sug)) == sug;
  }

  lemma NoDollar()
    ensures '$' !in "goal-oriented"
  {
  }

  /** The only occurrence of "ambitious" in "an ambitious" spans 3 to 12. */
  lemma AmbitiousScan()
    ensures ScanFrom("an ambitious", Literal("ambitious"), 0) == [Span(3, 12)]
  {
    var t, p := "an ambitious", Literal("ambitious");
    AmbitiousTail();
    AmbitiousMatch(3);
    ScanTake(t, p, 3, 12);
    AmbitiousMatch(2);
    AmbitiousMatch(1);
    AmbitiousMatch(0);
  }

  lemma AmbitiousTail()
    ensures ScanFrom("an ambitious", Literal("ambitious"), 12) == []
  {
    AmbitiousMatch(12);
    assert ScanFrom("an ambitious", Literal("ambitious"), 13) == [];
  }

  lemma AmbitiousMatch(k: nat)
    requires k <= 3 || k == 12
    ensures MatchAt("an ambitious", k, Literal("ambitious")) == if k == 3 then Some(12) else None
  {
    AmbitiousAt(k);
    LiteralMatchAt("an ambitious", k, "ambitious");
  }

  /** "ambitious" occurs in "an ambitious" at 3 only. */
  lemma AmbitiousAt(k: nat)
    requires k <= 3 || k == 12
    ensures LitAt("an ambitious", k, "ambitious") <==> k == 3
  {
    var t, w := "an ambitious", "ambitious";
    if k == 3 {
      assert t[3..12] == w;
    } else if k < 3 {
      var c := if k == 0 then 1 else 0;
      assert t[k..k + 9][c] == (if k == 2 then ' ' else 'n');
      assert Lower(t[k..k + 9])[c] == LowerChar(t[k..k + 9][c]);
      assert Lower(w)[c] == LowerChar(w[c]);
    }
  }
}
