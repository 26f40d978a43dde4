/** The rule-based analyser (src/ml-nlp/nlp/analyzer.ts, `analyzeTextLocal`): every category's
    patterns are matched against the original text, matches are deduplicated case-insensitively,
    each category with examples becomes a finding and costs fairness points, and the text is
    rewritten with the suggestions category by category. Penalties are counted in halves of a
    point: an example of weight w tenths costs (5 + w) halves. */
module Analyzer {
  import opened Wrappers
  import opened Chars
  import opened Regex
  import opened BiasLexicon
  import opened StableSort

  datatype Finding = Finding(category: Category, confidence: Num, examples: seq<string>, suggestions: seq<string>)

  datatype AnalysisResult = AnalysisResult(originalText: string, fairnessScore: int, biasTypes: seq<Finding>, improvedText: string)

  /** `s.toLowerCase().trim()`, the deduplication key. */
  function Key(s: string): string {
    Trim(Lower(s))
  }

  /** Whether an example with key `k` is present (`examples.some(...)`). */
  predicate HasKey(examples: seq<string>, k: string, key: string -> string) {
    exists i :: 0 <= i < |examples| && key(examples[i]) == k
  }

  /** `entry.suggestions[0] || m`. */
  function Primary(entry: Entry, m: string): (r: string)
    ensures |entry.suggestions| > 0 && entry.suggestions[0] != [] ==> r == entry.suggestions[0]
    ensures r == m || r in entry.suggestions
  {
    if |entry.suggestions| > 0 && entry.suggestions[0] != [] then entry.suggestions[0] else m
  }

  function Max(a: nat, b: nat): (r: nat)
    ensures r >= a && r >= b && (r == a || r == b)
  {
    if a >= b then a else b
  }

  /** What one category has collected: its examples, their suggestions and the largest weight of
      an entry that matched. */
  datatype Collected = Collected(examples: seq<string>, suggestions: seq<string>, maxWeight: nat)

  /** The first `n` matches of one entry added to what was collected, skipping any whose key is
      already present. */
  function AddMatches(c: Collected, entry: Entry, ms: seq<string>, n: nat, key: string -> string): Collected
    requires n <= |ms|
  {
    if n == 0 then c
    else
      var d := AddMatches(c, entry, ms, n - 1, key);
      var m := ms[n - 1];
      if HasKey(d.examples, key(m), key) then d
      else Collected(d.examples + [m], d.suggestions + [Primary(entry, m)], d.maxWeight)
  }

  /** `text.match(entry.pattern)` for each entry, no match read as none. */
  function MatchLists(text: string, entries: seq<Entry>): (r: seq<seq<string>>)
    ensures |r| == |entries|
    ensures forall k :: 0 <= k < |entries| ==> r[k] == Matches(text, entries[k].pattern)
  {
    seq(|entries|, k requires 0 <= k < |entries| => Matches(text, entries[k].pattern))
  }

  /** What the first `n` entries collect, given each entry's matches. */
  function CollectFrom(entries: seq<Entry>, found: seq<seq<string>>, n: nat, key: string -> string): Collected
    requires |found| == |entries| && n <= |entries|
  {
    if n == 0 then Collected([], [], 0)
    else
      var c := CollectFrom(entries, found, n - 1, key);
      var ms := found[n - 1];
      if |ms| > 0 then AddMatches(c.(maxWeight := Max(c.maxWeight, entries[n - 1].weight)), entries[n - 1], ms, |ms|, key)
      else c
  }

  /** What a category collects from the text. */
  function Collect(text: string, c: Category): Collected {
    var entries := Entries(c);
    CollectFrom(entries, MatchLists(text, entries), |entries|, Key)
  }

  /** `Math.min(1, 0.5 + maxWeight)` for a weight in tenths. */
  function Confidence(w: nat): (r: real)
    ensures 0.5 <= r <= 1.0
    ensures r == 1.0 <==> w >= 5
  {
    (if 5 + w < 10 then 5 + w else 10) as real / 10.0
  }

  /** `foundExamples.length * (0.5 + maxWeight) * 5`, in halves of a point. */
  function Cost(n: nat, w: nat): nat {
    n * (5 + w)
  }

  /** The finding of a category that collected examples. */
  function FindingOf(c: Category, col: Collected): Finding {
    Finding(c, Finite(Confidence(col.maxWeight)), col.examples, col.suggestions)
  }

  /** The state after some categories: the findings so far and the penalty in halves of a
      point. */
  datatype Progress = Progress(findings: seq<Finding>, penalty2: nat)

  /** One category, given what it collected from the original text: a finding and its cost, or
      nothing when it collected no example. */
  function CategoryStep(p: Progress, c: Category, col: Collected): Progress {
    if |col.examples| > 0 then
      Progress(p.findings + [FindingOf(c, col)], p.penalty2 + Cost(|col.examples|, col.maxWeight))
    else p
  }

  /** The first `n` categories in order, `cols[k]` being what `cats[k]` collected. */
  function Run(cats: seq<Category>, cols: seq<Collected>, n: nat): Progress
    requires |cols| == |cats| && n <= |cats|
  {
    if n == 0 then Progress([], 0)
    else CategoryStep(Run(cats, cols, n - 1), cats[n - 1], cols[n - 1])
  }

  /** The text rewritten with each finding's examples and suggestions in turn, each rewrite
      working on the previous one's output. */
  function RewriteAll(mode: RewriteMode, text: string, fs: seq<Finding>): string {
    if fs == [] then text
    else
      var f := fs[|fs| - 1];
      Rewritten(mode, RewriteAll(mode, text, fs[..|fs| - 1]), f.examples, f.suggestions, |f.examples|)
  }

  lemma RewriteAllStep(mode: RewriteMode, text: string, fs: seq<Finding>, f: Finding)
    ensures RewriteAll(mode, text, fs + [f]) ==
      Rewritten(mode, RewriteAll(mode, text, fs), f.examples, f.suggestions, |f.examples|)
  {
    assert (fs + [f])[..|fs|] == fs;
  }

  /** What each category collects, every one from the same original text. */
  function CollectAll(text: string, cats: seq<Category>): (r: seq<Collected>)
    ensures |r| == |cats| && forall k :: 0 <= k < |cats| ==> r[k] == Collect(text, cats[k])
  {
    seq(|cats|, k requires 0 <= k < |cats| => Collect(text, cats[k]))
  }

  /** `Math.max(0, Math.min(100, 100 - Math.round(penalty)))` with the penalty given in halves;
      `Math.round` rounds halves up. */
  function FairnessScore(penalty2: nat): (r: int)
    ensures 0 <= r <= 100
    ensures r == 100 <==> penalty2 == 0
    ensures r == 0 <==> penalty2 >= 199
    ensures r > 0 ==> 2 * (100 - r) - 1 <= penalty2 <= 2 * (100 - r)
  {
    var s := 100 - (penalty2 + 1) / 2;
    if s < 0 then 0 else if s > 100 then 100 else s
  }

  /** The comparator's key, `confidence`. */
  function ByConfidence(f: Finding): real {
    ValueOr0(f.confidence)
  }

  /** The result from what each of the categories collected: the score from the total penalty,
      rounded once, the findings sorted by descending confidence, and the text rewritten finding
      by finding in category order. */
  function Assemble(text: string, mode: RewriteMode, cats: seq<Category>, cols: seq<Collected>): AnalysisResult
    requires |cols| == |cats|
  {
    var p := Run(cats, cols, |cats|);
    AnalysisResult(text, FairnessScore(p.penalty2), SortDesc(p.findings, ByConfidence), RewriteAll(mode, text, p.findings))
  }

  /** The analysis over a list of categories, every category matched against the original text. */
  function AnalysisOver(text: string, mode: RewriteMode, cats: seq<Category>): AnalysisResult {
    Assemble(text, mode, cats, CollectAll(text, cats))
  }

  /** The whole analysis, over the lexicon's categories. */
  function Analysis(text: string, mode: RewriteMode): AnalysisResult {
    AnalysisOver(text, mode, Categories())
  }

  /** The loop over one entry's matches. */
  method AddAll(c: Collected, entry: Entry, matches: seq<string>) returns (examples: seq<string>, suggestions: seq<string>)
    ensures Collected(examples, suggestions, c.maxWeight) == AddMatches(c, entry, matches, |matches|, Key)
  {
    examples, suggestions := c.examples, c.suggestions;
    for mi := 0 to |matches|
      invariant Collected(examples, suggestions, c.maxWeight) == AddMatches(c, entry, matches, mi, Key)
    {
      var m := matches[mi];
      var lower := Key(m);
      if !HasKey(examples, lower, Key) {
        examples := examples + [m];
        suggestions := suggestions + [Primary(entry, m)];
      }
    }
  }

  /** The loop over one category's entries. */
  method CollectCategory(text: string, entries: seq<Entry>) returns (examples: seq<string>, suggestions: seq<string>, maxWeight: nat)
    ensures Collected(examples, suggestions, maxWeight) == CollectFrom(entries, MatchLists(text, entries), |entries|, Key)
  {
    examples, suggestions, maxWeight := [], [], 0;
    ghost var found := MatchLists(text, entries);
    for ei := 0 to |entries|
      invariant Collected(examples, suggestions, maxWeight) == CollectFrom(entries, found, ei, Key)
    {
      var entry := entries[ei];
      var matches := Matches(text, entry.pattern);
      assert matches == found[ei];
      if |matches| > 0 {
        maxWeight := Max(maxWeight, entry.weight);
        examples, suggestions := AddAll(Collected(examples, suggestions, maxWeight), entry, matches);
      }
    }
  }

  /** One category's collection, its entries looked up in the lexicon. */
  method CollectCategoryOf(text: string, category: Category) returns (examples: seq<string>, suggestions: seq<string>, maxWeight: nat)
    ensures Collected(examples, suggestions, maxWeight) == Collect(text, category)
  {
    examples, suggestions, maxWeight := CollectCategory(text, Entries(category));
  }

  /** `analyzeTextLocal`. */
  method AnalyzeTextLocal(text: string) returns (r: AnalysisResult)
    ensures r == Analysis(text, WithArticles)
  {
    r := AnalyzeCategories(text, Categories());
  }

  /** The body of `analyzeTextLocal`: the loop over the lexicon's categories. */
  method AnalyzeCategories(text: string, categories: seq<Category>) returns (r: AnalysisResult)
    ensures r == AnalysisOver(text, WithArticles, categories)
  {
    var findings: seq<Finding> := [];
    var penalty2: nat := 0;
    var improvedText := text;
    ghost var cols := CollectAll(text, categories);
    for ci := 0 to |categories|
      invariant Progress(findings, penalty2) == Run(categories, cols, ci)
      invariant improvedText == RewriteAll(WithArticles, text, findings)
    {
      var category := categories[ci];
      var foundExamples, foundSuggestions, maxWeight := CollectCategoryOf(text, category);
      findings, penalty2, improvedText :=
        AddFinding(text, category, foundExamples, foundSuggestions, maxWeight, findings, penalty2, improvedText);
    }
    r := AnalysisResult(text, FairnessScore(penalty2), SortDesc(findings, ByConfidence), improvedText);
  }

  /** What a category that collected examples adds: a finding, its cost and the text rewritten
      with its examples; a category without examples adds nothing. */
  method AddFinding(text: string, category: Category, foundExamples: seq<string>, foundSuggestions: seq<string>, maxWeight: nat,
                    findings: seq<Finding>, penalty2: nat, improvedText: string)
    returns (findings': seq<Finding>, penalty2': nat, improvedText': string)
    requires improvedText == RewriteAll(WithArticles, text, findings)
    ensures Progress(findings', penalty2') ==
      CategoryStep(Progress(findings, penalty2), category, Collected(foundExamples, foundSuggestions, maxWeight))
    ensures improvedText' == RewriteAll(WithArticles, text, findings')
  {
    findings', penalty2', improvedText' := findings, penalty2, improvedText;
    if |foundExamples| > 0 {
      var confidence := Confidence(maxWeight);
      var finding := Finding(category, Finite(confidence), foundExamples, foundSuggestions);
      RewriteAllStep(WithArticles, text, findings, finding);
      findings' := findings + [finding];
      penalty2' := penalty2 + Cost(|foundExamples|, maxWeight);
      improvedText' := ApplySuggestions(improvedText, foundExamples, foundSuggestions);
    }
  }

  // The deduplication, stated without the incremental loops: a category keeps, in match order,
  // the first match of every key, each with its entry's primary suggestion.

  /** A match paired with the suggestion it brings. */
  datatype Candidate = Candidate(example: string, suggestion: string)

  function Pair(entry: Entry, ms: seq<string>): (r: seq<Candidate>)
    ensures |r| == |ms|
    ensures forall i :: 0 <= i < |ms| ==> r[i] == Candidate(ms[i], Primary(entry, ms[i]))
  {
    seq(|ms|, i requires 0 <= i < |ms| => Candidate(ms[i], Primary(entry, ms[i])))
  }

  /** Every match of the first `n` entries, entry by entry, each entry's in text order. */
  function Candidates(entries: seq<Entry>, found: seq<seq<string>>, n: nat): seq<Candidate>
    requires |found| == |entries| && n <= |entries|
  {
    if n == 0 then [] else Candidates(entries, found, n - 1) + Pair(entries[n - 1], found[n - 1])
  }

  predicate KeyIn(cs: seq<Candidate>, k: string, key: string -> string) {
    exists j :: 0 <= j < |cs| && key(cs[j].example) == k
  }

  /** The candidates whose key no earlier candidate has. */
  function FirstPerKey(cs: seq<Candidate>, key: string -> string): seq<Candidate> {
    if cs == [] then []
    else
      var init, last := cs[..|cs| - 1], cs[|cs| - 1];
      FirstPerKey(init, key) + (if KeyIn(init, key(last.example), key) then [] else [last])
  }

  function ExamplesOf(cs: seq<Candidate>): (r: seq<string>)
    ensures |r| == |cs| && forall i :: 0 <= i < |cs| ==> r[i] == cs[i].example
  {
    seq(|cs|, i requires 0 <= i < |cs| => cs[i].example)
  }

  function SuggestionsOf(cs: seq<Candidate>): (r: seq<string>)
    ensures |r| == |cs| && forall i :: 0 <= i < |cs| ==> r[i] == cs[i].suggestion
  {
    seq(|cs|, i requires 0 <= i < |cs| => cs[i].suggestion)
  }

  /** What the loops hold when they have kept the first candidate of each key. */
  function Kept(cs: seq<Candidate>, w: nat, key: string -> string): Collected {
    var f := FirstPerKey(cs, key);
    Collected(ExamplesOf(f), SuggestionsOf(f), w)
  }

  /** A key is among the kept examples exactly when some candidate has it. */
  lemma {:induction false} KeptKeys(cs: seq<Candidate>, k: string, key: string -> string)
    ensures HasKey(ExamplesOf(FirstPerKey(cs, key)), k, key) <==> KeyIn(cs, k, key)
  {
    if cs != [] {
      var init, last := cs[..|cs| - 1], cs[|cs| - 1];
      KeptKeys(init, k, key);
      var f := FirstPerKey(init, key);
      var add := if KeyIn(init, key(last.example), key) then [] else [last];
      assert FirstPerKey(cs, key) == f + add;
      var e := ExamplesOf(f + add);
      if HasKey(e, k, key) {
        var i :| 0 <= i < |e| && key(e[i]) == k;
        if i < |f| {
          assert key(ExamplesOf(f)[i]) == k;
          var j :| 0 <= j < |init| && key(init[j].example) == k;
          assert cs[j] == init[j];
        } else {
          assert key(cs[|cs| - 1].example) == k;
        }
      }
      if KeyIn(cs, k, key) {
        var j :| 0 <= j < |cs| && key(cs[j].example) == k;
        if j < |cs| - 1 || KeyIn(init, k, key) {
          if j < |cs| - 1 {
            assert init[j] == cs[j];
          }
          var i :| 0 <= i < |ExamplesOf(f)| && key(ExamplesOf(f)[i]) == k;
          assert e[i] == ExamplesOf(f)[i];
        } else {
          assert e[|f|] == last.example;
        }
      }
    }
  }

  /** The kept candidates have pairwise different keys. */
  lemma {:induction false} FirstPerKeyDistinct(cs: seq<Candidate>, key: string -> string)
    ensures forall i, j :: 0 <= i < j < |FirstPerKey(cs, key)| ==>
      key(FirstPerKey(cs, key)[i].example) != key(FirstPerKey(cs, key)[j].example)
  {
    if cs != [] {
      var init, last := cs[..|cs| - 1], cs[|cs| - 1];
      FirstPerKeyDistinct(init, key);
      var f := FirstPerKey(init, key);
      if !KeyIn(init, key(last.example), key) {
        forall i | 0 <= i < |f|
          ensures key(f[i].example) != key(last.example)
        {
          KeptKeys(init, key(f[i].example), key);
          assert key(ExamplesOf(f)[i]) == key(f[i].example);
        }
      }
    }
  }

  /** Something is kept as soon as there is a candidate. */
  lemma FirstPerKeyNonEmpty(cs: seq<Candidate>, key: string -> string)
    ensures FirstPerKey(cs, key) != [] <==> cs != []
  {
    if cs != [] {
      KeptKeys(cs, key(cs[0].example), key);
    }
  }

  /** The kept candidates are candidates, in their original order. */
  lemma {:induction false} FirstPerKeyMembers(cs: seq<Candidate>, key: string -> string)
    ensures forall i :: 0 <= i < |FirstPerKey(cs, key)| ==> FirstPerKey(cs, key)[i] in cs
  {
    if cs != [] {
      var init := cs[..|cs| - 1];
      FirstPerKeyMembers(init, key);
      assert forall c :: c in init ==> c in cs;
    }
  }

  /** The match loop keeps the first candidate of each key. */
  lemma {:induction false} AddMatchesKept(cs: seq<Candidate>, w: nat, entry: Entry, ms: seq<string>, n: nat, key: string -> string)
    requires n <= |ms|
    ensures AddMatches(Kept(cs, w, key), entry, ms, n, key) == Kept(cs + Pair(entry, ms)[..n], w, key)
    decreases n, 1
  {
    if n == 0 {
      PrefixNone(cs, Pair(entry, ms));
    } else {
      AddMatchesKeptStep(cs, w, entry, ms, n, key);
    }
  }

  /** `AddMatchesKept` for at least one match: the first `n - 1`, then the last. */
  lemma {:induction false} AddMatchesKeptStep(cs: seq<Candidate>, w: nat, entry: Entry, ms: seq<string>, n: nat, key: string -> string)
    requires 0 < n <= |ms|
    ensures AddMatches(Kept(cs, w, key), entry, ms, n, key) == Kept(cs + Pair(entry, ms)[..n], w, key)
    decreases n, 0
  {
    AddMatchesKept(cs, w, entry, ms, n - 1, key);
    var x := cs + Pair(entry, ms)[..n - 1];
    var m := ms[n - 1];
    var c := Candidate(m, Primary(entry, m));
    var p := Pair(entry, ms);
    var d := Kept(x, w, key);
    assert AddMatches(Kept(cs, w, key), entry, ms, n, key) ==
      if HasKey(d.examples, key(m), key) then d
      else Collected(d.examples + [m], d.suggestions + [Primary(entry, m)], w);
    assert p[n - 1] == c;
    PrefixSnoc(p, n);
    ConcatAssoc(cs, p[..n - 1], [c]);
    KeptStep(x, c, w, key);
  }

  /** Keeping one more candidate adds it exactly when its key is new. */
  lemma KeptStep(x: seq<Candidate>, c: Candidate, w: nat, key: string -> string)
    ensures var d := Kept(x, w, key);
      Kept(x + [c], w, key) ==
        if HasKey(d.examples, key(c.example), key) then d
        else Collected(d.examples + [c.example], d.suggestions + [c.suggestion], w)
  {
    assert (x + [c])[..|x|] == x;
    KeptKeys(x, key(c.example), key);
    var f := FirstPerKey(x, key);
    if !KeyIn(x, key(c.example), key) {
      assert ExamplesOf(f + [c]) == ExamplesOf(f) + [c.example];
      assert SuggestionsOf(f + [c]) == SuggestionsOf(f) + [c.suggestion];
    }
  }

  lemma {:induction false} AddMatchesWeight(c: Collected, entry: Entry, ms: seq<string>, n: nat, key: string -> string)
    requires n <= |ms|
    ensures AddMatches(c, entry, ms, n, key).maxWeight == c.maxWeight
  {
    if n > 0 {
      AddMatchesWeight(c, entry, ms, n - 1, key);
    }
  }

  /** The entry loop keeps the first candidate of each key over all the category's matches. */
  lemma {:induction false} CollectFromKept(entries: seq<Entry>, found: seq<seq<string>>, n: nat, key: string -> string)
    requires |found| == |entries| && n <= |entries|
    ensures CollectFrom(entries, found, n, key) ==
      Kept(Candidates(entries, found, n), CollectFrom(entries, found, n, key).maxWeight, key)
  {
    if n > 0 {
      CollectFromKept(entries, found, n - 1, key);
      var c := CollectFrom(entries, found, n - 1, key);
      var cs := Candidates(entries, found, n - 1);
      var entry, ms := entries[n - 1], found[n - 1];
      if |ms| > 0 {
        var w := Max(c.maxWeight, entry.weight);
        assert c.(maxWeight := w) == Kept(cs, w, key);
        AddMatchesKept(cs, w, entry, ms, |ms|, key);
        assert Pair(entry, ms)[..|ms|] == Pair(entry, ms);
        AddMatchesWeight(Kept(cs, w, key), entry, ms, |ms|, key);
      } else {
        assert cs + Pair(entry, ms) == cs;
      }
    }
  }

  /** There are candidates exactly when some entry matched. */
  lemma {:induction false} CandidatesNonEmpty(entries: seq<Entry>, found: seq<seq<string>>, n: nat)
    requires |found| == |entries| && n <= |entries|
    ensures Candidates(entries, found, n) != [] <==> exists k :: 0 <= k < n && found[k] != []
  {
    if n > 0 {
      CandidatesNonEmpty(entries, found, n - 1);
    }
  }

  /** `maxWeight` is the largest weight of an entry that matched, 0 when none did. */
  lemma {:induction false} CollectMaxWeight(entries: seq<Entry>, found: seq<seq<string>>, n: nat, key: string -> string)
    requires |found| == |entries| && n <= |entries|
    ensures forall k :: 0 <= k < n && found[k] != [] ==> entries[k].weight <= CollectFrom(entries, found, n, key).maxWeight
    ensures CollectFrom(entries, found, n, key).maxWeight == 0 ||
      exists k :: 0 <= k < n && found[k] != [] && entries[k].weight == CollectFrom(entries, found, n, key).maxWeight
  {
    if n > 0 {
      CollectMaxWeight(entries, found, n - 1, key);
      var c := CollectFrom(entries, found, n - 1, key);
      if |found[n - 1]| > 0 {
        AddMatchesWeight(c.(maxWeight := Max(c.maxWeight, entries[n - 1].weight)), entries[n - 1], found[n - 1], |found[n - 1]|, key);
      }
    }
  }

  /** The candidate is a match of one of the first `n` entries with that entry's primary suggestion. */
  predicate FromEntry(entries: seq<Entry>, found: seq<seq<string>>, n: nat, c: Candidate)
    requires |found| == |entries| && n <= |entries|
  {
    exists k, i :: 0 <= k < n && 0 <= i < |found[k]| && c == Candidate(found[k][i], Primary(entries[k], found[k][i]))
  }

  /** Every candidate is some entry's match, paired with that entry's primary suggestion. */
  lemma {:induction false} CandidatesFrom(entries: seq<Entry>, found: seq<seq<string>>, n: nat)
    requires |found| == |entries| && n <= |entries|
    ensures forall j :: 0 <= j < |Candidates(entries, found, n)| ==> FromEntry(entries, found, n, Candidates(entries, found, n)[j])
  {
    if n > 0 {
      CandidatesFrom(entries, found, n - 1);
      var prev := Candidates(entries, found, n - 1);
      var p := Pair(entries[n - 1], found[n - 1]);
      var all := Candidates(entries, found, n);
      assert all == prev + p;
      forall j | 0 <= j < |all|
        ensures FromEntry(entries, found, n, all[j])
      {
        if j < |prev| {
          assert all[j] == prev[j];
          assert FromEntry(entries, found, n - 1, prev[j]);
          var k, i :| 0 <= k < n - 1 && 0 <= i < |found[k]| && prev[j] == Candidate(found[k][i], Primary(entries[k], found[k][i]));
        } else {
          var i := j - |prev|;
          assert all[j] == p[i] == Candidate(found[n - 1][i], Primary(entries[n - 1], found[n - 1][i]));
        }
      }
    }
  }

  // What a category collects, stated against its entries' matches in the original text.

  /** A category collects examples exactly when one of its entries matches the text. */
  lemma CollectNonEmpty(text: string, c: Category)
    ensures Collect(text, c).examples != [] <==>
      exists k :: 0 <= k < |Entries(c)| && Matches(text, Entries(c)[k].pattern) != []
  {
    CollectFromNonEmpty(Entries(c), MatchLists(text, Entries(c)), Key);
  }

  /** The collection has examples exactly when some entry has matches. */
  lemma CollectFromNonEmpty(entries: seq<Entry>, found: seq<seq<string>>, key: string -> string)
    requires |found| == |entries|
    ensures CollectFrom(entries, found, |entries|, key).examples != [] <==> exists k :: 0 <= k < |entries| && found[k] != []
  {
    CollectFromKept(entries, found, |entries|, key);
    FirstPerKeyNonEmpty(Candidates(entries, found, |entries|), key);
    CandidatesNonEmpty(entries, found, |entries|);
  }

  /** With every weight between 4 and 9 tenths, the largest weight is 0 exactly when nothing was
      collected, and between 4 and 9 otherwise. */
  lemma CollectFromWeight(entries: seq<Entry>, found: seq<seq<string>>, key: string -> string)
    requires |found| == |entries|
    requires forall k :: 0 <= k < |entries| ==> 4 <= entries[k].weight <= 9
    ensures var col := CollectFrom(entries, found, |entries|, key);
      (col.examples == [] ==> col.maxWeight == 0) && (col.examples != [] ==> 4 <= col.maxWeight <= 9)
  {
    CollectMaxWeight(entries, found, |entries|, key);
    CollectFromNonEmpty(entries, found, key);
  }

  /** The examples are the first match of each key, taken entry by entry in declaration order and
      each entry's matches left to right; no two of them have the same lowercased, trimmed form. */
  lemma CollectFirstPerKey(text: string, c: Category)
    ensures var entries := Entries(c);
      Collect(text, c).examples == ExamplesOf(FirstPerKey(Candidates(entries, MatchLists(text, entries), |entries|), Key))
    ensures forall i, j :: 0 <= i < j < |Collect(text, c).examples| ==>
      Key(Collect(text, c).examples[i]) != Key(Collect(text, c).examples[j])
  {
    var entries := Entries(c);
    var found := MatchLists(text, entries);
    var cs := Candidates(entries, found, |entries|);
    CollectFromKept(entries, found, |entries|, Key);
    FirstPerKeyDistinct(cs, Key);
  }

  /** Each kept example is a match of some entry, and its suggestion is that entry's first one. */
  lemma CollectFromOrigin(entries: seq<Entry>, found: seq<seq<string>>, key: string -> string)
    requires |found| == |entries|
    requires forall k :: 0 <= k < |entries| ==> |entries[k].suggestions| > 0 && entries[k].suggestions[0] != []
    ensures var col := CollectFrom(entries, found, |entries|, key);
      |col.suggestions| == |col.examples| &&
      forall i :: 0 <= i < |col.examples| ==>
        exists k :: 0 <= k < |entries| && col.examples[i] in found[k] && col.suggestions[i] == entries[k].suggestions[0]
  {
    var cs := Candidates(entries, found, |entries|);
    var f := FirstPerKey(cs, key);
    var col := CollectFrom(entries, found, |entries|, key);
    CollectFromKept(entries, found, |entries|, key);
    CandidatesFrom(entries, found, |entries|);
    FirstPerKeyMembers(cs, key);
    forall i | 0 <= i < |col.examples|
      ensures exists k :: 0 <= k < |entries| && col.examples[i] in found[k] && col.suggestions[i] == entries[k].suggestions[0]
    {
      assert f[i] in cs;
      var j :| 0 <= j < |cs| && cs[j] == f[i];
      assert FromEntry(entries, found, |entries|, cs[j]);
      var k, m :| 0 <= k < |entries| && 0 <= m < |found[k]| && cs[j] == Candidate(found[k][m], Primary(entries[k], found[k][m]));
      assert col.examples[i] == f[i].example && col.suggestions[i] == f[i].suggestion;
    }
  }

  /** Each example is a match of one of the category's entries, and its suggestion, at the same
      index, is that entry's first suggestion. */
  lemma CollectOrigin(text: string, c: Category)
    ensures |Collect(text, c).suggestions| == |Collect(text, c).examples|
    ensures forall i :: 0 <= i < |Collect(text, c).examples| ==>
      exists k :: 0 <= k < |Entries(c)| && Collect(text, c).examples[i] in Matches(text, Entries(c)[k].pattern) &&
        Collect(text, c).suggestions[i] == Entries(c)[k].suggestions[0]
  {
    EntriesUsable(c);
    CollectFromOrigin(Entries(c), MatchLists(text, Entries(c)), Key);
  }

  /** `maxWeight` is the largest weight of an entry that matched, even when all of its matches
      repeated earlier examples; it lies between 4 and 9 tenths when there are examples and is 0
      otherwise. */
  lemma CollectWeight(text: string, c: Category)
    ensures forall k :: 0 <= k < |Entries(c)| && Matches(text, Entries(c)[k].pattern) != [] ==>
      Entries(c)[k].weight <= Collect(text, c).maxWeight
    ensures Collect(text, c).maxWeight == 0 ||
      exists k :: 0 <= k < |Entries(c)| && Matches(text, Entries(c)[k].pattern) != [] &&
        Entries(c)[k].weight == Collect(text, c).maxWeight
    ensures Collect(text, c).examples == [] ==> Collect(text, c).maxWeight == 0
    ensures Collect(text, c).examples != [] ==> 4 <= Collect(text, c).maxWeight <= 9
  {
    var entries := Entries(c);
    var found := MatchLists(text, entries);
    EntriesUsable(c);
    CollectMaxWeight(entries, found, |entries|, Key);
    CollectFromWeight(entries, found, Key);
  }

  // The analysis over the categories.

  /** A finding is made exactly for a category that collected examples, from what it collected. */
  lemma {:induction false} RunMembers(cats: seq<Category>, cols: seq<Collected>, n: nat)
    requires |cols| == |cats| && n <= |cats|
    ensures forall f :: f in Run(cats, cols, n).findings <==>
      exists k :: 0 <= k < n && cols[k].examples != [] && f == FindingOf(cats[k], cols[k])
  {
    if n > 0 {
      RunMembers(cats, cols, n - 1);
    }
  }

  /** Listed in increasing lexicon order, the categories' findings come in that order, so no
      category has two findings. */
  lemma {:induction false} RunOrdered(cats: seq<Category>, cols: seq<Collected>, n: nat)
    requires |cols| == |cats| && n <= |cats|
    requires forall i, j :: 0 <= i < j < |cats| ==> Ord(cats[i]) < Ord(cats[j])
    ensures forall i, j :: 0 <= i < j < |Run(cats, cols, n).findings| ==>
      Ord(Run(cats, cols, n).findings[i].category) < Ord(Run(cats, cols, n).findings[j].category)
  {
    if n > 0 {
      RunOrdered(cats, cols, n - 1);
      RunMembers(cats, cols, n - 1);
      var d := Run(cats, cols, n - 1).findings;
      forall i | 0 <= i < |d|
        ensures Ord(d[i].category) < Ord(cats[n - 1])
      {
        assert d[i] in d;
      }
    }
  }
  /** The number of examples over all findings. */
  function TotalExamples(fs: seq<Finding>): nat {
    if fs == [] then 0 else TotalExamples(fs[..|fs| - 1]) + |fs[|fs| - 1].examples|
  }

  lemma {:induction false} TotalExamplesAppend(a: seq<Finding>, b: seq<Finding>)
    ensures TotalExamples(a + b) == TotalExamples(a) + TotalExamples(b)
  {
    if b != [] {
      TotalExamplesAppend(a, b[..|b| - 1]);
      assert (a + b)[..|a + b| - 1] == a + b[..|b| - 1];
    } else {
      assert a + b == a;
    }
  }

  /** Taking out the finding at `k` takes out its examples. */
  lemma RemoveAt(t: seq<Finding>, k: nat)
    requires k < |t|
    ensures TotalExamples(t) == TotalExamples(t[..k] + t[k + 1..]) + |t[k].examples|
  {
    var a, b := t[..k], t[k + 1..];
    assert t == a + ([t[k]] + b);
    TotalExamplesAppend(a, [t[k]] + b);
    TotalExamplesAppend([t[k]], b);
    TotalExamplesAppend(a, b);
    assert TotalExamples([t[k]]) == |t[k].examples| by {
      assert [t[k]][..0] == [];
    }
  }

  /** Reordering the findings does not change how many examples they hold. */
  lemma {:induction false} TotalExamplesPermutation(s: seq<Finding>, t: seq<Finding>)
    requires multiset(s) == multiset(t)
    ensures TotalExamples(s) == TotalExamples(t)
  {
    if s != [] {
      var k := PermutationLast(s, t);
      RemoveAt(t, k);
      TotalExamplesPermutation(s[..|s| - 1], t[..k] + t[k + 1..]);
    }
  }

  lemma CostBounds(n: nat, w: nat)
    requires 4 <= w <= 9
    ensures 9 * n <= Cost(n, w) <= 14 * n
  {
    assert n * w <= n * 9;
    assert n * 4 <= n * w;
  }

  /** A category that collected examples has a weight between 4 and 9 tenths. */
  predicate Weighted(cols: seq<Collected>) {
    forall k :: 0 <= k < |cols| && cols[k].examples != [] ==> 4 <= cols[k].maxWeight <= 9
  }

  /** Every example costs between 4.5 and 7 points (9 and 14 halves), and every finding has an
      example. */
  lemma {:induction false} RunPenalty(cats: seq<Category>, cols: seq<Collected>, n: nat)
    requires |cols| == |cats| && n <= |cats| && Weighted(cols)
    ensures var p := Run(cats, cols, n);
      9 * TotalExamples(p.findings) <= p.penalty2 <= 14 * TotalExamples(p.findings) &&
      |p.findings| <= TotalExamples(p.findings)
  {
    if n > 0 {
      RunPenalty(cats, cols, n - 1);
      var p := Run(cats, cols, n - 1);
      var col := cols[n - 1];
      if col.examples != [] {
        CostBounds(|col.examples|, col.maxWeight);
        var fs := p.findings + [FindingOf(cats[n - 1], col)];
        assert fs[..|fs| - 1] == p.findings;
      }
    }
  }

  // The result, from any collections.

  /** The findings as returned: the findings of the run, sorted by descending confidence. */
  function Sorted(cats: seq<Category>, cols: seq<Collected>): seq<Finding>
    requires |cols| == |cats|
  {
    SortDesc(Run(cats, cols, |cats|).findings, ByConfidence)
  }

  /** Every returned finding is the finding of a category that collected examples, and each such
      category has its finding among them. */
  lemma SortedFindings(cats: seq<Category>, cols: seq<Collected>)
    requires |cols| == |cats|
    ensures forall i :: 0 <= i < |Sorted(cats, cols)| ==>
      exists k :: 0 <= k < |cats| && cols[k].examples != [] && Sorted(cats, cols)[i] == FindingOf(cats[k], cols[k])
    ensures forall k :: 0 <= k < |cats| && cols[k].examples != [] ==> FindingOf(cats[k], cols[k]) in Sorted(cats, cols)
  {
    var fs := Run(cats, cols, |cats|).findings;
    var bt := Sorted(cats, cols);
    RunMembers(cats, cols, |cats|);
    SortDescCorrect(fs, ByConfidence);
    forall i | 0 <= i < |bt|
      ensures exists k :: 0 <= k < |cats| && cols[k].examples != [] && bt[i] == FindingOf(cats[k], cols[k])
    {
      assert bt[i] in multiset(fs);
      assert bt[i] in fs;
    }
    forall k | 0 <= k < |cats| && cols[k].examples != []
      ensures FindingOf(cats[k], cols[k]) in bt
    {
      assert FindingOf(cats[k], cols[k]) in fs;
      assert FindingOf(cats[k], cols[k]) in multiset(bt);
    }
  }

  lemma SortedHas(cats: seq<Category>, cols: seq<Collected>, k: nat)
    requires |cols| == |cats| && k < |cats|
    ensures cols[k].examples != [] ==> FindingOf(cats[k], cols[k]) in Sorted(cats, cols)
  {
    SortedFindings(cats, cols);
  }

  lemma FindingConfidence(c: Category, col: Collected)
    requires 4 <= col.maxWeight <= 9
    ensures 0.9 <= ByConfidence(FindingOf(c, col)) <= 1.0
  {
  }

  /** With every weight between 0.4 and 0.9, every confidence is between 0.9 and 1. */
  lemma SortedConfidence(cats: seq<Category>, cols: seq<Collected>)
    requires |cols| == |cats| && Weighted(cols)
    ensures var bt := Sorted(cats, cols);
      forall i :: 0 <= i < |bt| ==> 0.9 <= ByConfidence(bt[i]) <= 1.0
  {
    var bt := Sorted(cats, cols);
    SortedFindings(cats, cols);
    forall i | 0 <= i < |bt|
      ensures 0.9 <= ByConfidence(bt[i]) <= 1.0
    {
      var k :| 0 <= k < |cats| && cols[k].examples != [] && bt[i] == FindingOf(cats[k], cols[k]);
      FindingConfidence(cats[k], cols[k]);
    }
  }

  /** With the categories listed in increasing lexicon order, no category has two findings, the
      findings are sorted by non-increasing confidence, and findings of equal confidence keep the
      order of their categories (the sort is stable). */
  lemma SortedOrder(cats: seq<Category>, cols: seq<Collected>)
    requires |cols| == |cats|
    requires forall i, j :: 0 <= i < j < |cats| ==> Ord(cats[i]) < Ord(cats[j])
    ensures var bt := Sorted(cats, cols);
      forall i, j :: 0 <= i < j < |bt| ==> bt[i].category != bt[j].category
    ensures StableSort.Descending(Sorted(cats, cols), ByConfidence)
    ensures forall k :: var w := WithKey(Sorted(cats, cols), ByConfidence, k);
      forall i, j :: 0 <= i < j < |w| ==> Ord(w[i].category) < Ord(w[j].category)
  {
    var fs := Run(cats, cols, |cats|).findings;
    RunOrdered(cats, cols, |cats|);
    SortDescCorrect(fs, ByConfidence);
    SortedRanks(fs, Sorted(cats, cols), (f: Finding) => Ord(f.category));
    forall k
      ensures var w := WithKey(Sorted(cats, cols), ByConfidence, k);
        forall i, j :: 0 <= i < j < |w| ==> Ord(w[i].category) < Ord(w[j].category)
    {
      WithKeyOrdered(fs, ByConfidence, k, (f: Finding) => Ord(f.category));
    }
  }

  /** The score is 100 exactly when nothing was found, and otherwise 100 less between 4.5 and 7
      points per example, rounded once and clamped at 0. */
  lemma SortedScore(cats: seq<Category>, cols: seq<Collected>)
    requires |cols| == |cats| && Weighted(cols)
    ensures var bt := Sorted(cats, cols);
      var score := FairnessScore(Run(cats, cols, |cats|).penalty2);
      (score == 100 <==> bt == []) &&
      100 - 7 * TotalExamples(bt) <= score &&
      (score == 0 || score <= 100 - (9 * TotalExamples(bt) + 1) / 2) &&
      |bt| <= TotalExamples(bt)
  {
    var fs := Run(cats, cols, |cats|).findings;
    SortDescCorrect(fs, ByConfidence);
    RunPenalty(cats, cols, |cats|);
    TotalExamplesPermutation(fs, Sorted(cats, cols));
  }

  /** When no category collected anything there is no finding and no penalty. */
  lemma RunNothing(cats: seq<Category>, cols: seq<Collected>)
    requires |cols| == |cats|
    requires forall k :: 0 <= k < |cols| ==> cols[k].examples == []
    ensures Run(cats, cols, |cats|) == Progress([], 0)
  {
    RunMembers(cats, cols, |cats|);
    RunPenalty(cats, cols, |cats|);
  }

  // The analysis over any list of the categories in lexicon order.

  /** The categories listed in lexicon order, each at its own position. */
  predicate InLexiconOrder(cats: seq<Category>) {
    forall k :: 0 <= k < |cats| ==> Ord(cats[k]) == k
  }

  lemma OrdInjective(a: Category, b: Category)
    requires Ord(a) == Ord(b)
    ensures a == b
  {
  }

  /** The result assembled from its parts. */
  lemma OverParts(text: string, mode: RewriteMode, cats: seq<Category>)
    ensures var cols := CollectAll(text, cats);
      var r := AnalysisOver(text, mode, cats);
      r.originalText == text &&
      r.biasTypes == Sorted(cats, cols) &&
      r.fairnessScore == FairnessScore(Run(cats, cols, |cats|).penalty2) &&
      r.improvedText == RewriteAll(mode, text, Run(cats, cols, |cats|).findings)
  {
  }

  /** Every category that collects examples makes a weight between 4 and 9 tenths. */
  lemma CollectAllWeighted(text: string, cats: seq<Category>)
    ensures Weighted(CollectAll(text, cats))
  {
    forall k | 0 <= k < |cats|
      ensures Collect(text, cats[k]).examples != [] ==> 4 <= Collect(text, cats[k]).maxWeight <= 9
    {
      CollectWeight(text, cats[k]);
    }
  }

  lemma OverFindingsFrom(text: string, mode: RewriteMode, cats: seq<Category>)
    ensures var bt := AnalysisOver(text, mode, cats).biasTypes;
      forall i :: 0 <= i < |bt| ==>
        Collect(text, bt[i].category).examples != [] && bt[i] == FindingOf(bt[i].category, Collect(text, bt[i].category))
  {
    var cols := CollectAll(text, cats);
    var bt := Sorted(cats, cols);
    OverParts(text, mode, cats);
    SortedFindings(cats, cols);
    forall i | 0 <= i < |bt|
      ensures Collect(text, bt[i].category).examples != [] && bt[i] == FindingOf(bt[i].category, Collect(text, bt[i].category))
    {
      var k :| 0 <= k < |cats| && cols[k].examples != [] && bt[i] == FindingOf(cats[k], cols[k]);
      assert bt[i].category == cats[k];
    }
  }

  lemma OverFindingsAll(text: string, mode: RewriteMode, cats: seq<Category>, c: Category)
    requires InLexiconOrder(cats) && Ord(c) < |cats|
    ensures Collect(text, c).examples != [] ==> FindingOf(c, Collect(text, c)) in AnalysisOver(text, mode, cats).biasTypes
  {
    var cols := CollectAll(text, cats);
    OverParts(text, mode, cats);
    SortedHas(cats, cols, Ord(c));
    OrdInjective(cats[Ord(c)], c);
  }

  lemma OverOrder(text: string, mode: RewriteMode, cats: seq<Category>)
    requires InLexiconOrder(cats)
    ensures var bt := AnalysisOver(text, mode, cats).biasTypes;
      forall i, j :: 0 <= i < j < |bt| ==> bt[i].category != bt[j].category
    ensures StableSort.Descending(AnalysisOver(text, mode, cats).biasTypes, ByConfidence)
    ensures forall k :: var w := WithKey(AnalysisOver(text, mode, cats).biasTypes, ByConfidence, k);
      forall i, j :: 0 <= i < j < |w| ==> Ord(w[i].category) < Ord(w[j].category)
  {
    OverParts(text, mode, cats);
    SortedOrder(cats, CollectAll(text, cats));
  }

  lemma OverConfidence(text: string, mode: RewriteMode, cats: seq<Category>)
    ensures var bt := AnalysisOver(text, mode, cats).biasTypes;
      forall i :: 0 <= i < |bt| ==> 0.9 <= ByConfidence(bt[i]) <= 1.0
  {
    OverParts(text, mode, cats);
    CollectAllWeighted(text, cats);
    SortedConfidence(cats, CollectAll(text, cats));
  }

  lemma OverScore(text: string, mode: RewriteMode, cats: seq<Category>)
    ensures var r := AnalysisOver(text, mode, cats);
      0 <= r.fairnessScore <= 100 &&
      (r.fairnessScore == 100 <==> r.biasTypes == []) &&
      100 - 7 * TotalExamples(r.biasTypes) <= r.fairnessScore &&
      (r.fairnessScore == 0 || r.fairnessScore <= 100 - (9 * TotalExamples(r.biasTypes) + 1) / 2) &&
      |r.biasTypes| <= TotalExamples(r.biasTypes)
  {
    OverParts(text, mode, cats);
    CollectAllWeighted(text, cats);
    SortedScore(cats, CollectAll(text, cats));
  }

  lemma OverNothing(text: string, mode: RewriteMode, cats: seq<Category>)
    requires forall c, k :: 0 <= k < |Entries(c)| ==> Matches(text, Entries(c)[k].pattern) == []
    ensures AnalysisOver(text, mode, cats) == AnalysisResult(text, 100, [], text)
  {
    var cols := CollectAll(text, cats);
    forall k | 0 <= k < |cols|
      ensures cols[k].examples == []
    {
      CollectNonEmpty(text, cats[k]);
    }
    RunNothing(cats, cols);
    OverParts(text, mode, cats);
  }

  // The whole analysis.

  /** Every finding is the finding made from what its category collected from the original
      text, which is not empty. */
  lemma AnalysisFindingsFrom(text: string, mode: RewriteMode)
    ensures var bt := Analysis(text, mode).biasTypes;
      forall i :: 0 <= i < |bt| ==>
        Collect(text, bt[i].category).examples != [] && bt[i] == FindingOf(bt[i].category, Collect(text, bt[i].category))
  {
    OverFindingsFrom(text, mode, Categories());
  }

  /** A category that collects examples from the original text has its finding. */
  lemma AnalysisFindingsAll(text: string, mode: RewriteMode, c: Category)
    ensures Collect(text, c).examples != [] ==> FindingOf(c, Collect(text, c)) in Analysis(text, mode).biasTypes
  {
    OverFindingsAll(text, mode, Categories(), c);
  }

  /** No category has two findings; the findings are sorted by non-increasing confidence, and
      findings of equal confidence keep the lexicon's category order. */
  lemma AnalysisOrder(text: string, mode: RewriteMode)
    ensures var bt := Analysis(text, mode).biasTypes;
      forall i, j :: 0 <= i < j < |bt| ==> bt[i].category != bt[j].category
    ensures StableSort.Descending(Analysis(text, mode).biasTypes, ByConfidence)
    ensures forall k :: var w := WithKey(Analysis(text, mode).biasTypes, ByConfidence, k);
      forall i, j :: 0 <= i < j < |w| ==> Ord(w[i].category) < Ord(w[j].category)
  {
    OverOrder(text, mode, Categories());
  }

  /** Every confidence is between 0.9 and 1, since every weight is between 0.4 and 0.9. */
  lemma AnalysisConfidence(text: string, mode: RewriteMode)
    ensures var bt := Analysis(text, mode).biasTypes;
      forall i :: 0 <= i < |bt| ==> 0.9 <= ByConfidence(bt[i]) <= 1.0
  {
    OverConfidence(text, mode, Categories());
  }

  /** The score is 100 exactly when nothing was found, and otherwise 100 less between 4.5 and 7
      points per example, rounded once and clamped at 0; the original text is the input. */
  lemma AnalysisScore(text: string, mode: RewriteMode)
    ensures var r := Analysis(text, mode);
      r.originalText == text &&
      0 <= r.fairnessScore <= 100 &&
      (r.fairnessScore == 100 <==> r.biasTypes == []) &&
      100 - 7 * TotalExamples(r.biasTypes) <= r.fairnessScore &&
      (r.fairnessScore == 0 || r.fairnessScore <= 100 - (9 * TotalExamples(r.biasTypes) + 1) / 2) &&
      |r.biasTypes| <= TotalExamples(r.biasTypes)
  {
    OverParts(text, mode, Categories());
    OverScore(text, mode, Categories());
  }

  /** A text none of whose patterns match is left as it is, with no finding and full score. */
  lemma NoMatches(text: string, mode: RewriteMode)
    requires forall c, k :: 0 <= k < |Entries(c)| ==> Matches(text, Entries(c)[k].pattern) == []
    ensures Analysis(text, mode) == AnalysisResult(text, 100, [], text)
  {
    OverNothing(text, mode, Categories());
  }

  /** The empty text. */
  lemma EmptyText(mode: RewriteMode)
    ensures Analysis("", mode) == AnalysisResult("", 100, [], "")
  {
    forall c, k | 0 <= k < |Entries(c)|
      ensures Matches("", Entries(c)[k].pattern) == []
    {
      EntriesUsable(c);
      EmptyTextNoMatches(Entries(c)[k].pattern);
    }
    NoMatches("", mode);
  }
}
