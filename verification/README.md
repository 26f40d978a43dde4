# FairAssess bias analyser in Dafny

This project models the core of FairAssess, a bias checker for job descriptions and other texts, and proves properties of that model.

**The analyser.** A fixed lexicon has eight bias categories, for example "Gender Bias" and "Age Bias". Each category holds word-bounded, case-insensitive patterns, and each pattern has suggestions and a severity weight. `analyzeTextLocal` works through the categories in lexicon order:
- it matches every pattern against the original text;
- it keeps the first example of every lowercased, trimmed spelling;
- it turns each category with examples into a finding whose confidence grows with the category's largest weight;
- it adds a penalty per example;
- it rewrites the text with the suggestions, category by category.

The fairness score is 100 minus the rounded total penalty, clamped to 0..100. The findings come back sorted by confidence, highest first, in a stable sort.

**The code around it.** The model also covers:
- the preprocessor: line endings, trimming, sentences and tokens;
- the bag-of-words classifier and its command-line check copy;
- the service that blends classifier scores into the findings;
- the CSV export;
- the dashboard summary of stored analyses and its type filter;
- the document-type dispatch of uploads;
- the two standalone scripts that repeat the analyser. One of them rewrites without correcting articles.

Some source is repeated and is modelled once. `src/backend/services/export.ts` repeats the CSV functions of `exportCsv.ts` line for line, so the table cites either file for the shared `ExportCsv` members. `bias-test.ts` repeats the lexicon (lines 19-51) entry for entry, so it uses `BiasLexicon` too.

**Modules.** There is one module per source file, plus four shared ones:
- `Wrappers`: Option, Result, and JavaScript numbers with NaN;
- `Chars`: character classes, lower-casing and `trim`;
- `Regex`: the part of the regular-expression engine that the lexicon's patterns and the rewriter use;
- `StableSort`: `Array.prototype.sort`, which is stable.

**Form of the model.** Code that loops and accumulates becomes a `method` with loop invariants. Each such method is proved equal to a specification function. Examples are the category loops of the analyser and of the scripts, `applySuggestions`, `predict`, the category counts of the dashboard and `extractMany`. The properties the source promises are then proved as lemmas about those functions. Pure expression chains become functions: the preprocessor, the CSV writer, the blend and the dashboard arithmetic.

**Numbers.** Weights are integer tenths, so confidences and penalties are exact. Scores that can be NaN use `Num`. I/O and the network are parameters: the model artifact's read, the remote classifier, the PDF and DOCX parsers and the date formatting.

## Model

| member | source | states |
|---|---|---|
| Wrappers.JsMin | src/backend/services/analysisService.ts:56 | `Math.min`: NaN when either side is NaN, else the smaller of the two operands |
| Wrappers.JsMax | src/backend/services/analysisService.ts:56 | `Math.max`: NaN when either side is NaN, else the larger of the two operands |
| Chars.Lower | src/ml-nlp/nlp/analyzer.ts:33 | `toLowerCase` keeps the length, leaves no upper-case letter and changes exactly the upper-case letters of its input |
| Chars.LowerIdempotent | src/ml-nlp/nlp/analyzer.ts:33 | lower-casing an already lower-cased text changes nothing |
| Chars.LowerAppend | src/ml-nlp/nlp/preprocess.ts:13-14 | lower-casing distributes over concatenation |
| Chars.Trim | src/ml-nlp/nlp/analyzer.ts:33 | `trim` never lengthens a string |
| Chars.TrimShape | src/ml-nlp/nlp/preprocess.ts:11 | the trimmed text is the slice after the leading whitespace and has no whitespace at either end |
| Chars.TrimExact | src/ml-nlp/nlp/preprocess.ts:11 | a text without whitespace at its ends is its own trim; a text trims to "" iff it is all whitespace |
| Chars.TrimIdempotent | src/ml-nlp/nlp/preprocess.ts:11 | trimming twice equals trimming once |
| Regex.MatchAt | src/ml-nlp/nlp/analyzer.ts:28 | a match starting at a position ends inside the text, honours `\b` at both ends and ends where one of the alternatives can end |
| Regex.ScanFrom | src/ml-nlp/nlp/analyzer.ts:28 | a global scan gives ordered, non-overlapping spans, each of them the engine's match at its start |
| Regex.ScanSpans | src/ml-nlp/nlp/analyzer.ts:28 | for the lexicon's pattern shape every match is non-empty and word-bounded at both ends |
| Regex.ScanNone | src/ml-nlp/nlp/analyzer.ts:28-29 | with no match at any position from `pos` on, the scan finds nothing |
| Regex.ScanTake | src/ml-nlp/nlp/analyzer.ts:28 | a non-empty match at the scan position is reported and the scan resumes at its end |
| Regex.MatchesNonEmpty | src/ml-nlp/nlp/analyzer.ts:32 | every matched string of a lexicon-shaped pattern is non-empty |
| Regex.EmptyTextNoMatches | src/ml-nlp/nlp/analyzer.ts:29 | the empty text has no match |
| Regex.LiteralMatchAt | src/ml-nlp/nlp/biasLexicon.ts:71 | an escaped literal matches at a position iff the text has it there ignoring case, and the match ends right after it |
| Regex.Expand | src/ml-nlp/nlp/biasLexicon.ts:72 | a replacement string without `$` is inserted verbatim |
| Regex.Replace | src/ml-nlp/nlp/biasLexicon.ts:72 | `replace` with a pattern that matches nowhere returns the text unchanged |
| Regex.EscapeRegex | src/ml-nlp/nlp/biasLexicon.ts:57 | escaping never shortens the example |
| Regex.EscapeRegexLiteral | src/ml-nlp/nlp/biasLexicon.ts:57 | the escaped example, read as a pattern source, is the literal example itself: every metacharacter is escaped |
| Regex.MatchAfterLastLit | src/ml-nlp/nlp/biasLexicon.ts:62 | a pattern ending with the example matches only in a text that contains the example |
| Regex.ReplaceAbsent | src/ml-nlp/nlp/biasLexicon.ts:62-66 | the article replacement leaves a text without the example unchanged |
| Regex.LiteralAbsentUnchanged | src/ml-nlp/nlp/biasLexicon.ts:71-72 | the plain replacement leaves a text without the example unchanged |
| BiasLexicon.Categories | src/ml-nlp/nlp/biasLexicon.ts:1-9 | exactly eight categories, in declaration order |
| BiasLexicon.CategoriesComplete | src/ml-nlp/nlp/biasLexicon.ts:1-9 | every category is in the list |
| BiasLexicon.Entries | src/ml-nlp/nlp/biasLexicon.ts:17-49 | every category has entries and every entry has suggestions |
| BiasLexicon.EntriesUsable | src/ml-nlp/nlp/biasLexicon.ts:17-49 | every entry has a non-empty first suggestion, a weight between 0.4 and 0.9, and a word-bounded pattern that never matches "" |
| BiasLexicon.SuggestionFor | src/ml-nlp/nlp/biasLexicon.ts:55 | the suggestion is `suggestions[i]`, else `suggestions[0]`, else the example, skipping missing and empty strings |
| BiasLexicon.ArticleMatchAt | src/ml-nlp/nlp/biasLexicon.ts:62 | `\b(a\|an)\s+EX\b` matches at a position iff a word boundary, "a" or "an" in either case, a non-empty whitespace run, the example ignoring case and another word boundary follow there, and the match then ends right after the example |
| BiasLexicon.ArticleCorrection | src/ml-nlp/nlp/biasLexicon.ts:61-66 | the article replacement turns an article, whitespace and the example into the article the suggestion needs ("an" before a vowel, else "a"), one space and the suggestion |
| BiasLexicon.ArticleRewritten | src/ml-nlp/nlp/biasLexicon.ts:60-72 | one example's rewrite, article step then plain step, turns an article, whitespace and the example into the corrected article and the suggestion when the suggestion does not contain the example |
| BiasLexicon.ArticleCorrected | src/ml-nlp/nlp/biasLexicon.ts:60-72 | "an ambitious" with the suggestion "goal-oriented" becomes "a goal-oriented" |
| BiasLexicon.RewrittenArticle | src/ml-nlp/nlp/biasLexicon.ts:51-75 | `applySuggestions` on an article, whitespace and its one example returns the corrected article and the example's suggestion |
| BiasLexicon.ApplySuggestions | src/ml-nlp/nlp/biasLexicon.ts:51-75 | each example in index order gets its article step and then the plain step, each working on the previous output; with no example present the text is unchanged |
| BiasLexicon.RewriteStepAbsent | src/ml-nlp/nlp/biasLexicon.ts:60-72 | one example's rewrite changes nothing when the text lacks the example |
| BiasLexicon.RewriteInsideWord | src/ml-nlp/nlp/biasLexicon.ts:71-72 | the plain step is not word-bounded: rewriting "he" to "they" turns "the" into "tthey" |
| Analyzer.Primary | src/ml-nlp/nlp/analyzer.ts:36 | the stored suggestion is the entry's first suggestion when that is non-empty, else the match |
| Analyzer.Max | src/ml-nlp/nlp/analyzer.ts:30 | the larger of the two weights |
| Analyzer.Confidence | src/ml-nlp/nlp/analyzer.ts:43 | `min(1, 0.5 + w)` lies in [0.5, 1] and is 1 exactly from weight 0.5 up |
| Analyzer.FairnessScore | src/ml-nlp/nlp/analyzer.ts:50 | the score lies in 0..100; it is 100 iff there is no penalty, it is clamped to 0 iff the doubled penalty is at least 199, and otherwise it is 100 minus the penalty rounded once, half up |
| Analyzer.RewriteAllStep | src/ml-nlp/nlp/analyzer.ts:46 | a new finding rewrites the text produced by the earlier findings |
| Analyzer.AddAll | src/ml-nlp/nlp/analyzer.ts:32-38 | the loop over one entry's matches equals the specification of the deduplicated addition |
| Analyzer.CollectCategory | src/ml-nlp/nlp/analyzer.ts:23-40 | the loop over a category's entries yields the examples, suggestions and largest weight of the specification |
| Analyzer.CollectCategoryOf | src/ml-nlp/nlp/analyzer.ts:22-40 | the same for a category of the lexicon |
| Analyzer.AddFinding | src/ml-nlp/nlp/analyzer.ts:42-47 | a category with examples appends its finding and cost and rewrites the text; one without changes nothing |
| Analyzer.AnalyzeCategories | src/ml-nlp/nlp/analyzer.ts:22-57 | the loop over any list of categories computes the specified result |
| Analyzer.AnalyzeTextLocal | src/ml-nlp/nlp/analyzer.ts:17-58 | `analyzeTextLocal` equals the specification `Analysis` with article correction |
| Analyzer.KeptKeys | src/ml-nlp/nlp/analyzer.ts:34 | a spelling is among the kept examples iff some match has it |
| Analyzer.FirstPerKeyDistinct | src/ml-nlp/nlp/analyzer.ts:31-38 | the kept examples are pairwise distinct after lowercase and trim |
| Analyzer.FirstPerKeyNonEmpty | src/ml-nlp/nlp/analyzer.ts:34-37 | something is kept iff there was a match |
| Analyzer.FirstPerKeyMembers | src/ml-nlp/nlp/analyzer.ts:35 | every kept example is one of the matches |
| Analyzer.AddMatchesKept | src/ml-nlp/nlp/analyzer.ts:32-38 | the incremental dedup equals "first of each spelling" over the matches seen so far |
| Analyzer.CollectFromKept | src/ml-nlp/nlp/analyzer.ts:27-40 | a category keeps the first match of each spelling, by entry order and then by match order |
| Analyzer.CandidatesNonEmpty | src/ml-nlp/nlp/analyzer.ts:29 | there are candidates iff some entry matched |
| Analyzer.CollectMaxWeight | src/ml-nlp/nlp/analyzer.ts:29-30 | the largest weight is that of an entry with a match and is at least every matching entry's weight, even one whose matches were all duplicates |
| Analyzer.CandidatesFrom | src/ml-nlp/nlp/analyzer.ts:27-37 | every candidate is a match of some entry, paired with that entry's primary suggestion |
| Analyzer.CollectNonEmpty | src/ml-nlp/nlp/analyzer.ts:42 | a category has examples iff one of its patterns matches the text |
| Analyzer.CollectFromNonEmpty | src/ml-nlp/nlp/analyzer.ts:42 | the same for any entries and match lists |
| Analyzer.CollectFromWeight | src/ml-nlp/nlp/analyzer.ts:30 | with weights between 0.4 and 0.9, the collected weight is 0 without examples and between 0.4 and 0.9 with them |
| Analyzer.CollectFirstPerKey | src/ml-nlp/nlp/analyzer.ts:31-38 | a lexicon category's examples are the first match of each spelling and are pairwise distinct |
| Analyzer.CollectFromOrigin | src/ml-nlp/nlp/analyzer.ts:35-36 | the suggestions are as many as the examples, and each one is the first suggestion of an entry that matched its example |
| Analyzer.CollectOrigin | src/ml-nlp/nlp/analyzer.ts:35-36 | the same for the lexicon's categories |
| Analyzer.CollectWeight | src/ml-nlp/nlp/analyzer.ts:29-30 | the collected weight is the largest weight among the matching entries, and between 0.4 and 0.9 when there are examples |
| Analyzer.RunMembers | src/ml-nlp/nlp/analyzer.ts:42-44 | the findings are exactly one per category that has examples |
| Analyzer.RunOrdered | src/ml-nlp/nlp/analyzer.ts:22 | before sorting, the findings are in category order |
| Analyzer.TotalExamplesPermutation | src/ml-nlp/nlp/analyzer.ts:55 | reordering the findings keeps the total number of examples |
| Analyzer.CostBounds | src/ml-nlp/nlp/analyzer.ts:45 | every example costs between 4.5 and 7 points |
| Analyzer.RunPenalty | src/ml-nlp/nlp/analyzer.ts:45 | the total penalty lies between 4.5 and 7 points per example, and every finding has an example |
| Analyzer.SortedFindings | src/ml-nlp/nlp/analyzer.ts:55 | the sorted findings are exactly the findings of the categories with examples |
| Analyzer.FindingConfidence | src/ml-nlp/nlp/analyzer.ts:43 | with lexicon weights a finding's confidence lies in [0.9, 1] |
| Analyzer.SortedConfidence | src/ml-nlp/nlp/analyzer.ts:43 | every sorted finding has a confidence in [0.9, 1] |
| Analyzer.SortedOrder | src/ml-nlp/nlp/analyzer.ts:55 | the sorted findings have distinct categories, descend by confidence and keep category order among equal confidences |
| Analyzer.SortedScore | src/ml-nlp/nlp/analyzer.ts:50 | the score is 100 iff there is no finding and lies between 100 − 7·examples and 100 − 4.5·examples, rounded, or is 0 |
| Analyzer.RunNothing | src/ml-nlp/nlp/analyzer.ts:42 | categories without examples add no finding and no penalty |
| Analyzer.OverParts | src/ml-nlp/nlp/analyzer.ts:52-57 | the original text is the input; the score comes from the total penalty, the findings are sorted, and the text is rewritten over the unsorted findings |
| Analyzer.CollectAllWeighted | src/ml-nlp/nlp/analyzer.ts:30 | every category's collected weight is within the lexicon's range |
| Analyzer.OverFindingsFrom | src/ml-nlp/nlp/analyzer.ts:42-44 | each finding is its category's collection from the original text |
| Analyzer.OverFindingsAll | src/ml-nlp/nlp/analyzer.ts:42-44 | every category with examples has its finding |
| Analyzer.OverOrder | src/ml-nlp/nlp/analyzer.ts:55 | at most one finding per category; descending confidence; equal confidences keep category order |
| Analyzer.OverConfidence | src/ml-nlp/nlp/analyzer.ts:43 | every confidence lies in [0.9, 1] |
| Analyzer.OverScore | src/ml-nlp/nlp/analyzer.ts:50 | score bounds as in `SortedScore`, for any list of categories |
| Analyzer.OverNothing | src/ml-nlp/nlp/analyzer.ts:18-21 | a text no pattern matches gives no finding, score 100 and the unchanged text |
| Analyzer.AnalysisFindingsFrom | src/ml-nlp/nlp/analyzer.ts:42-44 | each finding of the lexicon analysis is its category's collection from the original text |
| Analyzer.AnalysisFindingsAll | src/ml-nlp/nlp/analyzer.ts:42-44 | each lexicon category with examples yields a finding |
| Analyzer.AnalysisOrder | src/ml-nlp/nlp/analyzer.ts:55 | one finding per category at most, sorted by descending confidence, stable on ties |
| Analyzer.AnalysisConfidence | src/ml-nlp/nlp/analyzer.ts:43 | every confidence lies in [0.9, 1] |
| Analyzer.AnalysisScore | src/ml-nlp/nlp/analyzer.ts:50 | the original text is the input; the score lies in 0..100, is 100 iff there is no finding, and is bounded by the number of examples |
| Analyzer.NoMatches | src/ml-nlp/nlp/analyzer.ts:18-21 | without a match: no findings, score 100, improved text equal to the input |
| Analyzer.EmptyText | src/ml-nlp/nlp/analyzer.ts:18-21 | "" gives no findings, score 100 and "" |
| Preprocess.UnixNewlines | src/ml-nlp/nlp/preprocess.ts:11 | after line-ending normalisation no CR is left and the text is no longer |
| Preprocess.UnixNewlinesKeeps | src/ml-nlp/nlp/preprocess.ts:11 | a text without CR is unchanged |
| Preprocess.UnixNewlinesAppend | src/ml-nlp/nlp/preprocess.ts:11 | two texts are normalised separately unless a CR ends the first and an LF starts the second |
| Preprocess.UnixNewlinesCRLF | src/ml-nlp/nlp/preprocess.ts:11 | a CRLF between two texts becomes one LF and the texts around it are normalised on their own |
| Preprocess.UnixNewlinesCR | src/ml-nlp/nlp/preprocess.ts:11 | a CR not followed by LF becomes one LF and the texts around it are normalised on their own |
| Preprocess.NormalizedIdempotent | src/ml-nlp/nlp/preprocess.ts:11 | the normalised text has no CR, and normalising it again changes nothing |
| Preprocess.NormalizedText | src/ml-nlp/nlp/preprocess.ts:11-17 | the output text has no CR and no whitespace at its ends, and preprocessing it again gives the same output |
| Preprocess.BlankInput | src/ml-nlp/nlp/preprocess.ts:11-16 | empty or whitespace-only input gives "", no sentences and no tokens |
| Preprocess.NonEmptyKeeps | src/ml-nlp/nlp/preprocess.ts:12 | `filter(Boolean)` keeps only non-empty pieces of the input |
| Preprocess.SentencesShape | src/ml-nlp/nlp/preprocess.ts:12 | every sentence is non-empty and is a piece of the split text |
| Preprocess.SentenceAfterStop | src/ml-nlp/nlp/preprocess.ts:7 | the split happens after `.`, `!` or `?` and drops the whitespace: "a. b" gives "a." and "b" |
| Preprocess.SentenceAfterLineBreak | src/ml-nlp/nlp/preprocess.ts:7 | the split happens after a line feed, which stays with the first sentence: "a\nb" gives "a\n" and "b" |
| Preprocess.WordsShape | src/ml-nlp/nlp/preprocess.ts:8 | every word is non-empty and made of letters, digits and apostrophes from the text |
| Preprocess.PiecesAreWords | src/ml-nlp/nlp/preprocess.ts:15-16 | splitting on runs of other characters and dropping empty pieces gives the maximal token runs, left to right |
| Preprocess.TokensShape | src/ml-nlp/nlp/preprocess.ts:13-16 | tokens are the maximal runs of the lowercased text, non-empty, of token characters only, with no upper-case letter |
| Preprocess.TokensOfRaw | src/ml-nlp/nlp/preprocess.ts:13-16 | normalising and trimming do not change the tokens: they are the runs of the lowercased raw input |
| LocalModel.VocabIndex | src/ml-nlp/ml/localModel.ts:38 | the index has exactly the vocabulary's words, each mapped to a position holding that word |
| LocalModel.VocabIndexLast | src/ml-nlp/ml/localModel.ts:38 | a word listed twice maps to its last position |
| LocalModel.LoadLocalModel | src/ml-nlp/ml/localModel.ts:21-61 | null exactly when the response is not OK or reading fails; otherwise the model over the artifact, unvalidated |
| LocalModel.Hits | src/ml-nlp/ml/localModel.ts:44-47 | a count is at most the number of tokens |
| LocalModel.Counts | src/ml-nlp/ml/localModel.ts:43 | the count vector has the vocabulary's length |
| LocalModel.CountVector | src/ml-nlp/ml/localModel.ts:43-47 | the counting loop gives, at each position, the number of tokens indexed there |
| LocalModel.HitsPermutation | src/ml-nlp/ml/localModel.ts:44-47 | counts do not depend on token order |
| LocalModel.CountsPermutation | src/ml-nlp/ml/localModel.ts:43-47 | the vector does not depend on token order |
| LocalModel.CountsUnknown | src/ml-nlp/ml/localModel.ts:45-46 | an out-of-vocabulary token changes nothing |
| LocalModel.CountsKnown | src/ml-nlp/ml/localModel.ts:38-46 | a known token adds one at its word's last position only |
| LocalModel.CountsRepeatedWord | src/ml-nlp/ml/localModel.ts:38 | with vocabulary ["a","a"] the token "a" counts at position 1 |
| LocalModel.Dot | src/ml-nlp/ml/localModel.ts:50-52 | the weighted sum is NaN exactly when the weight row is longer than the vector |
| LocalModel.LinearScore | src/ml-nlp/ml/localModel.ts:50-52 | the inner loop computes the specified sum |
| LocalModel.Activate | src/ml-nlp/ml/localModel.ts:53 | the squashing keeps NaN and maps a number to a number |
| LocalModel.Predict | src/ml-nlp/ml/localModel.ts:42-56 | `predict` equals the specification `Predicted` |
| LocalModel.PredictedShape | src/ml-nlp/ml/localModel.ts:49-55 | predict throws iff there are labels but no bias array, or a label has no weight row, with the error of the first failing read; otherwise it returns the artifact's labels and one score per label |
| LocalModel.ScoreNaN | src/ml-nlp/ml/localModel.ts:52 | a score is NaN iff its weight row is longer than the vocabulary |
| LocalModel.PredictedPermutation | src/ml-nlp/ml/localModel.ts:44-55 | permuting the tokens does not change the prediction |
| LocalModel.DotZero | src/ml-nlp/ml/localModel.ts:52 | an all-zero vector leaves the bias alone |
| LocalModel.HitsNone | src/ml-nlp/ml/localModel.ts:45-46 | tokens outside the index count nowhere |
| LocalModel.PredictedUnknown | src/ml-nlp/ml/localModel.ts:50-53 | with only unknown tokens a score is the squashed bias, a missing bias being 0 |
| LocalModel.GuardedDotAgrees | scripts/check-local-model.js:25 | the guarded sum equals the runtime sum where that is a number, and ignores weights past the vector |
| LocalModel.GuardedScore | scripts/check-local-model.js:23-25 | the guarded inner loop computes the specified sum |
| LocalModel.CheckPredicted | scripts/check-local-model.js:22-28 | the script throws iff a label has no weight row, a missing bias array reading as zeros, and no score of it is NaN |
| LocalModel.CheckPredict | scripts/check-local-model.js:14-29 | the script's `predict` equals its specification |
| LocalModel.CheckAgrees | scripts/check-local-model.js:14-29 | with a bias array, or without labels, both predictors fail on the same artifacts; with labels and no bias array the runtime always fails while the script succeeds iff every label has a weight row; they agree on every score the runtime computes as a number |
| LocalModel.Tokenize | scripts/check-local-model.js:9-12 | `tokenize` gives exactly the preprocessor's tokens |
| AnalysisService.FallbackLabelsAreCategories | src/backend/services/analysisService.ts:31-40 | the remote classifier is asked about the lexicon's eight categories in order |
| AnalysisService.FindLabel | src/backend/services/analysisService.ts:53 | the first label equal to the category name ignoring case, or none |
| AnalysisService.Blend | src/backend/services/analysisService.ts:52-59 | blending keeps the number of findings |
| AnalysisService.BlendKeeps | src/backend/services/analysisService.ts:52-59 | each finding keeps its place, category, examples and suggestions; unnamed ones are unchanged; named ones get max(old, min(1, score)) |
| AnalysisService.CalibratedConfidence | src/backend/services/analysisService.ts:53-57 | a confidence never decreases and stays at most 1, unless the score is NaN, which makes it NaN |
| AnalysisService.BlendIdempotent | src/backend/services/analysisService.ts:52-59 | blending twice with the same scores equals blending once |
| AnalysisService.BlendMayUnsort | src/backend/services/analysisService.ts:52-59 | findings sorted by confidence can come out unsorted, since nothing re-sorts them |
| AnalysisService.Analyze | src/backend/services/analysisService.ts:13-63 | `analyze` equals the specification `Analyzed` |
| AnalysisService.AnalyzedOutcome | src/backend/services/analysisService.ts:23-62 | it rejects iff the loaded local artifact has labels but no bias array or lacks a weight row, with the error `predict` throws; `model` is absent iff neither classifier answered, local first |
| AnalysisService.AnalyzedParts | src/backend/services/analysisService.ts:14-62 | the lexicon pass runs on the normalised text; the score and improved text are its own; blending happens only with non-empty labels and scores |
| AnalysisService.AnalyzedFindings | src/backend/services/analysisService.ts:51-60 | blending never adds, removes or reorders findings or changes their examples |
| ExportCsv.SplitJoin | src/backend/services/exportCsv.ts:20 | splitting a join on a separator absent from the parts gives back the parts |
| ExportCsv.Escape | src/backend/services/exportCsv.ts:21-24 | a written field starts and ends with a double quote |
| ExportCsv.EscapeRoundTrip | src/backend/services/exportCsv.ts:21-24 | removing the outer quotes and collapsing doubled quotes gives back the field (RFC 4180, section 2, rule 7) |
| ExportCsv.ParseLine | src/backend/services/exportCsv.ts:25-34 | a line of quoted fields reads back as exactly those fields |
| ExportCsv.BiasTextSplits | src/backend/services/exportCsv.ts:20 | the bias field splits on `\|` into one `type:term` per entry, a missing term written as nothing |
| ExportCsv.Fields | src/backend/services/export.ts:25-34 | a row has as many fields as the header, in both copies of the writer |
| ExportCsv.ZeroIsWritten | src/backend/services/exportCsv.ts:26-28 | a score of 0 is written, since `??` keeps it, while an empty title gives an empty field |
| ExportCsv.RowRoundTrip | src/backend/services/export.ts:19-35 | a row reads back as its eight fields, in header order |
| ExportCsv.HeaderIsNames | src/backend/services/exportCsv.ts:39 | the header lists the eight field names in row order |
| ExportCsv.ParseRowsLines | src/backend/services/exportCsv.ts:40 | rows joined with LF read back as the rows |
| ExportCsv.BuildCsvLines | src/backend/services/exportCsv.ts:37-41 | the document is the header, an LF, then the rows joined with LF |
| ExportCsv.CsvRoundTrip | src/backend/services/exportCsv.ts:37-41 | the whole document reads back as the header followed by every record's fields |
| ExportCsv.BuildCsvShapes | src/backend/services/export.ts:38-40 | a lone record is a one-element list, and an empty list gives the header only |
| AnalysesRoute.StatusFor | src/app/api/analyses/route.ts:6-11 | ≥80 "Excellent", 70–79 "Good", 60–69 "Fair", else, including a missing score, "Needs Improvement" |
| AnalysesRoute.RoundDiv | src/app/api/analyses/route.ts:28 | `Math.round(a/n)`: the nearest integer, halves rounded up |
| AnalysesRoute.RoundDivBounds | src/app/api/analyses/route.ts:51 | rounding a quotient within [lo, hi] stays within [lo, hi] |
| AnalysesRoute.ScoreSumBounds | src/app/api/analyses/route.ts:28 | with scores in 0..100 the sum lies in 0..100·n |
| AnalysesRoute.AverageBounds | src/app/api/analyses/route.ts:27-29 | the average fairness lies in 0..100 |
| AnalysesRoute.ImprovedCount | src/app/api/analyses/route.ts:31 | at most one per analysis |
| AnalysesRoute.Weight | src/app/api/analyses/route.ts:44 | a finding weighs its example count, or 1 when examples are missing or empty |
| AnalysesRoute.Find | src/app/api/analyses/route.ts:44 | the position of the category among the counts, or none when absent |
| AnalysesRoute.Bump | src/app/api/analyses/route.ts:44 | one `set` on the count map |
| AnalysesRoute.CategoryCounts | src/app/api/analyses/route.ts:41-46 | the nested loops give the tally of all findings, in order |
| AnalysesRoute.TotalWeight | src/app/api/analyses/route.ts:47 | the total is at least the number of findings |
| AnalysesRoute.AddDistinct | src/app/api/analyses/route.ts:44 | categories stay distinct in the map |
| AnalysesRoute.AddNames | src/app/api/analyses/route.ts:44 | a category has a count iff one of its findings was seen |
| AnalysesRoute.AddWeights | src/app/api/analyses/route.ts:44 | each count is its category's summed weight |
| AnalysesRoute.AddSum | src/app/api/analyses/route.ts:47 | the counts sum to the total weight |
| AnalysesRoute.AddTallies | src/app/api/analyses/route.ts:43-44 | one `set` keeps all of the above |
| AnalysesRoute.TallyTallies | src/app/api/analyses/route.ts:41-47 | the tally has distinct names, one per seen category, each with its summed weight, together summing to the total |
| AnalysesRoute.DistributionShares | src/app/api/analyses/route.ts:48-53 | one share per category in first-seen order, each its percentage of the total rounded to nearest, in 0..100 |
| AnalysesRoute.NoFindings | src/app/api/analyses/route.ts:47-58 | the total is 0 iff there is no finding, and then there are three zero shares and no recommendation |
| AnalysesRoute.TopCategories | src/app/api/analyses/route.ts:70-72 | the three largest categories, fewer when there are fewer |
| AnalysesRoute.TopCategoriesAreTop | src/app/api/analyses/route.ts:70-73 | the chosen categories are a sub-multiset of the counts, largest first; no category left out has a larger count, and among equal counts the first seen are chosen |
| AnalysesRoute.RecommendationImpact | src/app/api/analyses/route.ts:87-92 | one recommendation per top category, impact "High" iff its count exceeds 2 |
| AnalysesRoute.Last | src/app/api/analyses/route.ts:34 | `slice(-n)`: the last n items, in order |
| AnalysesRoute.ReverseInvolutive | src/app/api/analyses/route.ts:61 | reversing twice gives back the list, and the reversal puts the last item first and the first last |
| AnalysesRoute.History | src/app/api/analyses/route.ts:34-38 | at most six points |
| AnalysesRoute.HistoryIsLastSix | src/app/api/analyses/route.ts:34-38 | the points are the last six analyses in chronological order, with their short date and score |
| AnalysesRoute.RecentList | src/app/api/analyses/route.ts:61-67 | the last four analyses, newest first, each with its title or first 40 characters and its status |
| AnalysesRoute.BuildResponse | src/app/api/analyses/route.ts:25-106 | `buildResponse` equals the specification `Response` |
| AnalysesRoute.ResponseMetrics | src/app/api/analyses/route.ts:26-31 | total is the list length; issues count every finding; the improved count is at most the total; the average is the rounded mean, 0 for no analysis |
| AnalysesRoute.Filter | src/app/api/analyses/route.ts:117-119 | the filter never adds analyses |
| AnalysesRoute.FilterKeeps | src/app/api/analyses/route.ts:118 | an analysis is kept iff it has a finding of a requested type |
| AnalysesRoute.FilterAppend | src/app/api/analyses/route.ts:118 | the filter works analysis by analysis, keeping the order |
| AnalysesRoute.FilterIdempotent | src/app/api/analyses/route.ts:118 | filtering twice equals filtering once |
| AnalysesRoute.FilterNone | src/app/api/analyses/route.ts:117-119 | a missing or empty type list keeps every analysis |
| Document.LastDot | src/backend/services/document.ts:14 | `lastIndexOf('.')`: a dot with no dot after it, or none when the name has no dot |
| Document.GetExt | src/backend/services/document.ts:13-16 | "" without a dot, else the lowercased text after the last dot |
| Document.PopExt | src/backend/services/document.ts:41 | `split('.').pop()` lowercased: the text after the last dot, or the whole name without a dot |
| Document.ExtensionReadings | src/backend/services/document.ts:41 | both readings agree on names with a dot; a dotless "pdf" counts as PDF only for the fallback |
| Document.ExtractText | src/backend/services/document.ts:18-32 | PDF when the MIME type or extension says so, checked first; then DOCX; else the unsupported-type error; filename kept and missing text written as "" |
| Document.PdfFirst | src/backend/services/document.ts:20-23 | a DOCX MIME type with a `.pdf` name goes to the PDF parser |
| Document.UnsupportedReported | src/backend/services/document.ts:31 | an unsupported file's entry carries the "Unsupported file type" message with the MIME type, or the extension when the MIME type is empty |
| Document.ExtractOne | src/backend/services/document.ts:36-46 | a failure gives text "", the message or "Failed to parse", and the PDF MIME type iff the popped extension is "pdf" |
| Document.ExtractMany | src/backend/services/document.ts:34-49 | one entry per file, in input order; no failure aborts the batch |
| BiasTest.ApplySuggestions | bias-test.ts:53-62 | only the plain case-insensitive replacement, example by example; with no example present the text is unchanged |
| BiasTest.AddPlainFinding | bias-test.ts:102-107 | a category with examples appends its finding and cost and rewrites without articles |
| BiasTest.AnalyzeText | bias-test.ts:78-118 | `analyzeText` equals the analysis with the plain rewriter, collecting from the original text as the analyser does; input kept, score in 0..100 and 100 iff no finding, confidences in [0.9, 1], sorted by descending confidence |
| AnalyzeTest.AnalyzeTextLocal | analyze-test.ts:18-58 | the script's copy equals the analysis with the shared, article-correcting rewriter; input kept, score in 0..100 and 100 iff no finding, one finding per category, sorted by descending confidence |
| BiasTest.ArticleKept | bias-test.ts:53-62 | articles are never corrected: "an ambitious" becomes "an goal-oriented" |

## Left out

- Reading files and the network are parameters or outcomes. This covers the model artifact read by fetch or the file system with JSON parsing (the `Fetched` outcome), the remote zero-shot classifier (its answer or none), and the PDF and DOCX parsers (functions from bytes to a parse result). `hf.ts` is not part of this model.
- The script drivers are not modelled: reading `test-content.txt`, `console.log` and the sample loop of `check-local-model.js`.
- `Math.exp` and the logistic function are a parameter `sigmoid`. Scores are exact reals with NaN, not IEEE doubles.
- Numbers are exact: weights are integer tenths, and averages and percentages are rational.
- `toLocaleDateString` is given as the `shortDate` and `longDate` parameters. The colour map is left out because it is presentation only.
- A number's `toString` in the CSV writer is a parameter `render`; only NaN is written as "NaN".
- The GET and POST handlers sort the stored analyses by `localeCompare` on the date. The model takes the list as already in that order, because locale collation is not modelled. Reading the store and the HTTP request and response are left out.
- `buildPDFBuffer` in `export.ts` and `exportPdf.ts` are left out because they render through a foreign library.
- Unicode is reduced to ASCII for case mapping. The token classes `\p{L}` and `\p{N}` are ASCII letters and digits. `\s` and `trim` use the full ECMAScript whitespace set. Strings are sequences of characters, not UTF-16 code units.
- The regular-expression engine is modelled only for the pattern shapes the lexicon, the article step and the escaped literals use.
- The `try`/`catch` around the article expression is not modelled. The escaped example always forms a valid expression (`Regex.EscapeRegexLiteral`), so the catch cannot fire.
- Analyzer.AnalysisScore: the concrete test sentence "Looking for an ambitious team player." is not evaluated. The general bounds imply a score of at least 93 when the only example found is "ambitious", but proving that no other pattern matches that sentence is not attempted.
- Analyzer.FairnessScore: the penalty is summed in exact tenths. The source sums doubles such as `n * (0.5 + 0.7) * 5`, so where the exact penalty ends in .5 the double may lie just below or above it and round the other way.
- AnalysesRoute.DistributionShares: the percentage is rounded from the exact ratio. JavaScript computes `(count / total) * 100` in doubles, so at a true half (for example 29 of 200) the double can fall just below and round down.
- AnalysesRoute.AverageBounds: scores are modelled as optional integers. A non-integer or NaN stored score (NaN counts as 0 through `|| 0`) is not modelled.
- LocalModel.LoadLocalModel: an artifact whose JSON lacks `labels` or `vocab` throws inside the `try` and gives null. The model folds that into the `Failed` outcome instead of describing malformed JSON.
- LocalModel.Predicted: a `bias` that is `null` throws like a missing one, but with a message naming `null`; the model gives every absent bias array the message for `undefined`.
