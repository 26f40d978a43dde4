/** The dashboard summary of the stored analyses (the `analyses` route): overall metrics, the
    recent history, the spread of findings over the categories and recommendations for the most
    frequent categories, optionally over only the analyses that have a finding of a requested
    type. */
module AnalysesRoute {
  import opened Wrappers
  import StableSort

  /** A finding as stored: its type and, when kept, its examples. */
  datatype Issue = Issue(kind: string, examples: Option<seq<string>>)

  /** A stored analysis. */
  datatype Stored = Stored(
    id: string,
    date: string,
    title: Option<string>,
    originalText: string,
    improvedText: Option<string>,
    fairnessScore: Option<int>,
    biasTypes: Option<seq<Issue>>)

  /** One category's running count, in the order the categories were first seen. */
  datatype Count = Count(name: string, count: nat)

  datatype Metrics = Metrics(averageFairness: int, totalAnalyses: nat, biasIssuesFound: nat, contentImproved: nat)
  datatype Point = Point(date: string, score: Option<int>)
  datatype Share = Share(name: string, value: int)
  datatype Recent = Recent(id: string, title: string, date: string, score: Option<int>, status: string)
  datatype Recommendation = Recommendation(category: string, impact: string, issue: string, suggestion: string)
  datatype Summary = Summary(
    metrics: Metrics,
    historicalScores: seq<Point>,
    biasDistribution: seq<Share>,
    recentAnalyses: seq<Recent>,
    recommendations: seq<Recommendation>)

  // Status and rounding.

  /** `statusFor`: the band a score falls in; a missing score compares false everywhere. */
  function StatusFor(score: Option<int>): (r: string)
    ensures r == "Excellent" <==> score.Some? && score.value >= 80
    ensures r == "Good" <==> score.Some? && 70 <= score.value < 80
    ensures r == "Fair" <==> score.Some? && 60 <= score.value < 70
    ensures r == "Needs Improvement" <==> score.None? || score.value < 60
  {
    if score.None? then "Needs Improvement"
    else if score.value >= 80 then "Excellent"
    else if score.value >= 70 then "Good"
    else if score.value >= 60 then "Fair"
    else "Needs Improvement"
  }

  /** `Math.round(a / n)`: the integer nearest to a / n, halves rounded up. */
  function RoundDiv(a: int, n: nat): (r: int)
    requires n > 0
    ensures 2 * n * r - n <= 2 * a < 2 * n * r + n
  {
    (2 * a + n) / (2 * n)
  }

  lemma SignOfProduct(n: int, x: int)
    requires n > 0
    ensures n * x < 0 ==> x < 0
    ensures n * x <= 0 ==> x <= 0
  {
    if x > 0 {
      assert n * x >= n;
    }
  }

  /** Rounding a quotient that lies in [lo, hi] stays in [lo, hi]. */
  lemma RoundDivBounds(a: int, n: nat, lo: int, hi: int)
    requires n > 0 && lo * n <= a <= hi * n
    ensures lo <= RoundDiv(a, n) <= hi
  {
    var r := RoundDiv(a, n);
    assert n * (2 * lo - 2 * r - 1) < 0;
    SignOfProduct(n, 2 * lo - 2 * r - 1);
    assert n * (2 * r - 2 * hi - 1) <= 0;
    SignOfProduct(n, 2 * r - 2 * hi - 1);
  }

  // Metrics.

  function ScoreOr0(a: Stored): int {
    if a.fairnessScore.Some? then a.fairnessScore.value else 0
  }

  /** The sum of the scores, a missing score counted as 0. */
  function ScoreSum(list: seq<Stored>): int {
    if list == [] then 0 else ScoreSum(list[..|list| - 1]) + ScoreOr0(list[|list| - 1])
  }

  /** `averageFairness`: 0 for no analysis. */
  function Average(list: seq<Stored>): int {
    if list == [] then 0 else RoundDiv(ScoreSum(list), |list|)
  }

  lemma {:induction false} ScoreSumBounds(list: seq<Stored>)
    requires forall k :: 0 <= k < |list| ==> 0 <= ScoreOr0(list[k]) <= 100
    ensures 0 <= ScoreSum(list) <= 100 * |list|
  {
    if list != [] {
      ScoreSumBounds(list[..|list| - 1]);
    }
  }

  /** With every score between 0 and 100 the average is too. */
  lemma AverageBounds(list: seq<Stored>)
    requires forall k :: 0 <= k < |list| ==> 0 <= ScoreOr0(list[k]) <= 100
    ensures 0 <= Average(list) <= 100
  {
    if list != [] {
      ScoreSumBounds(list);
      RoundDivBounds(ScoreSum(list), |list|, 0, 100);
    }
  }

  /** `a.biasTypes || []`. */
  function IssuesOf(a: Stored): seq<Issue> {
    if a.biasTypes.Some? then a.biasTypes.value else []
  }

  /** Every finding of the list, in order. */
  function Items(list: seq<Stored>): seq<Issue> {
    if list == [] then [] else Items(list[..|list| - 1]) + IssuesOf(list[|list| - 1])
  }

  /** Whether the analysis changed the text: an improved text that is not empty and differs. */
  function Improved(a: Stored): bool {
    a.improvedText.Some? && a.improvedText.value != "" && a.improvedText.value != a.originalText
  }

  function ImprovedCount(list: seq<Stored>): (n: nat)
    ensures n <= |list|
  {
    if list == [] then 0 else ImprovedCount(list[..|list| - 1]) + (if Improved(list[|list| - 1]) then 1 else 0)
  }

  // Category counts.

  /** `b.examples?.length || 1`: the number of examples, and 1 when there are none. */
  function Weight(b: Issue): (w: nat)
    ensures w >= 1
  {
    if b.examples.Some? && |b.examples.value| > 0 then |b.examples.value| else 1
  }

  /** `categoryCounts.get(name)`: the position of the category's count. */
  function Find(counts: seq<Count>, name: string): (r: Option<nat>)
    ensures r.Some? ==> r.value < |counts| && counts[r.value].name == name
    ensures r.None? ==> forall i :: 0 <= i < |counts| ==> counts[i].name != name
  {
    if counts == [] then None
    else if counts[|counts| - 1].name == name then Some(|counts| - 1)
    else Find(counts[..|counts| - 1], name)
  }

  /** One `categoryCounts.set`: a known category keeps its place and grows by the weight, a new
      one is appended. */
  function Add(counts: seq<Count>, b: Issue): seq<Count> {
    match Find(counts, b.kind)
    case Some(i) => counts[i := Count(b.kind, counts[i].count + Weight(b))]
    case None => counts + [Count(b.kind, Weight(b))]
  }

  /** The counts after all the findings, in order. */
  function Tally(items: seq<Issue>): seq<Count> {
    if items == [] then [] else Add(Tally(items[..|items| - 1]), items[|items| - 1])
  }

  /** `categoryCounts.set(b.type, (categoryCounts.get(b.type) || 0) + weight)`. */
  method Bump(counts: seq<Count>, b: Issue) returns (r: seq<Count>)
    ensures r == Add(counts, b)
  {
    var idx := Find(counts, b.kind);
    if idx.Some? {
      r := counts[idx.value := Count(b.kind, counts[idx.value].count + Weight(b))];
    } else {
      r := counts + [Count(b.kind, Weight(b))];
    }
  }

  /** The nested loops filling `categoryCounts`. */
  method CategoryCounts(list: seq<Stored>) returns (counts: seq<Count>)
    ensures counts == Tally(Items(list))
  {
    counts := [];
    for i := 0 to |list|
      invariant counts == Tally(Items(list[..i]))
    {
      var bs := IssuesOf(list[i]);
      ghost var seen := Items(list[..i]);
      assert seen + bs[..0] == seen;
      for j := 0 to |bs|
        invariant counts == Tally(seen + bs[..j])
      {
        counts := Bump(counts, bs[j]);
        TallyStep(seen, bs, j);
      }
      assert bs[..|bs|] == bs;
      ItemsStep(list, i);
    }
    assert list[..|list|] == list;
  }

  lemma TallyStep(seen: seq<Issue>, bs: seq<Issue>, j: nat)
    requires j < |bs|
    ensures Tally(seen + bs[..j + 1]) == Add(Tally(seen + bs[..j]), bs[j])
  {
    var xs := seen + bs[..j + 1];
    assert xs[..|xs| - 1] == seen + bs[..j];
  }

  lemma ItemsStep(list: seq<Stored>, i: nat)
    requires i < |list|
    ensures Items(list[..i + 1]) == Items(list[..i]) + IssuesOf(list[i])
  {
    assert list[..i + 1][..i] == list[..i];
  }

  /** The names in the counts are distinct. */
  predicate Distinct(counts: seq<Count>) {
    forall i, j :: 0 <= i < j < |counts| ==> counts[i].name != counts[j].name
  }

  /** The summed weight of the findings of one category. */
  function WeightOf(items: seq<Issue>, name: string): nat {
    if items == [] then 0
    else WeightOf(items[..|items| - 1], name) + (if items[|items| - 1].kind == name then Weight(items[|items| - 1]) else 0)
  }

  /** The summed weight of all findings. */
  function TotalWeight(items: seq<Issue>): (w: nat)
    ensures w >= |items|
  {
    if items == [] then 0 else TotalWeight(items[..|items| - 1]) + Weight(items[|items| - 1])
  }

  function Sum(counts: seq<Count>): nat {
    if counts == [] then 0 else Sum(counts[..|counts| - 1]) + counts[|counts| - 1].count
  }

  lemma {:induction false} SumAppend(a: seq<Count>, b: seq<Count>)
    ensures Sum(a + b) == Sum(a) + Sum(b)
  {
    if b == [] {
      assert a + b == a;
    } else {
      assert (a + b)[..|a + b| - 1] == a + b[..|b| - 1];
      SumAppend(a, b[..|b| - 1]);
    }
  }

  lemma SumUpdate(counts: seq<Count>, i: nat, c: Count)
    requires i < |counts|
    ensures Sum(counts[i := c]) + counts[i].count == Sum(counts) + c.count
  {
    var a, b := counts[..i], counts[i + 1..];
    assert counts == a + [counts[i]] + b;
    assert counts[i := c] == a + [c] + b;
    SumAppend(a + [counts[i]], b);
    SumAppend(a + [c], b);
    SumAppend(a, [counts[i]]);
    SumAppend(a, [c]);
    assert Sum([c]) == c.count by { assert [c][..0] == []; }
    assert Sum([counts[i]]) == counts[i].count by { assert [counts[i]][..0] == []; }
  }

  ghost predicate Counted(counts: seq<Count>, name: string) {
    exists i :: 0 <= i < |counts| && counts[i].name == name
  }

  ghost predicate Seen(items: seq<Issue>, name: string) {
    exists k :: 0 <= k < |items| && items[k].kind == name
  }

  /** One step of the tally: the names stay distinct, every count is the weight of its category
      so far and a category has a count exactly when one of its findings was seen. */
  ghost predicate Tallies(counts: seq<Count>, items: seq<Issue>) {
    Distinct(counts) &&
    (forall i :: 0 <= i < |counts| ==> counts[i].count == WeightOf(items, counts[i].name)) &&
    (forall name :: Counted(counts, name) <==> Seen(items, name)) &&
    Sum(counts) == TotalWeight(items)
  }

  lemma AddDistinct(counts: seq<Count>, b: Issue)
    requires Distinct(counts)
    ensures Distinct(Add(counts, b))
  {
  }

  lemma WeightOfSnoc(items: seq<Issue>, b: Issue, name: string)
    ensures WeightOf(items + [b], name) == WeightOf(items, name) + (if b.kind == name then Weight(b) else 0)
  {
    assert (items + [b])[..|items|] == items;
  }

  lemma AddNames(counts: seq<Count>, items: seq<Issue>, b: Issue, name: string)
    requires forall name :: Counted(counts, name) <==> Seen(items, name)
    ensures Counted(Add(counts, b), name) <==> Seen(items + [b], name)
  {
    var r, xs := Add(counts, b), items + [b];
    if Seen(xs, name) {
      var k :| 0 <= k < |xs| && xs[k].kind == name;
      if k < |items| {
        assert items[k].kind == name;
        assert Counted(counts, name);
        var i :| 0 <= i < |counts| && counts[i].name == name;
        assert r[i].name == name;
      } else {
        var i := if Find(counts, b.kind).Some? then Find(counts, b.kind).value else |counts|;
        assert r[i].name == name;
      }
    }
    if Counted(r, name) {
      var i :| 0 <= i < |r| && r[i].name == name;
      if name != b.kind {
        assert i < |counts| && counts[i].name == name;
        assert Seen(items, name);
        var k :| 0 <= k < |items| && items[k].kind == name;
        assert xs[k].kind == name;
      } else {
        assert xs[|items|].kind == name;
      }
    }
  }

  lemma AddWeights(counts: seq<Count>, items: seq<Issue>, b: Issue)
    requires Tallies(counts, items)
    ensures var r := Add(counts, b);
      forall i :: 0 <= i < |r| ==> r[i].count == WeightOf(items + [b], r[i].name)
  {
    var r := Add(counts, b);
    forall i | 0 <= i < |r|
      ensures r[i].count == WeightOf(items + [b], r[i].name)
    {
      WeightOfSnoc(items, b, r[i].name);
      if i == |counts| {
        assert Find(counts, b.kind).None?;
        assert !Counted(counts, b.kind);
        assert !Seen(items, b.kind);
        assert forall k :: 0 <= k < |items| ==> items[k].kind != b.kind;
        WeightOfAbsent(items, b.kind);
      }
    }
  }

  lemma AddSum(counts: seq<Count>, items: seq<Issue>, b: Issue)
    requires Sum(counts) == TotalWeight(items)
    ensures Sum(Add(counts, b)) == TotalWeight(items + [b])
  {
    var xs := items + [b];
    assert TotalWeight(xs) == TotalWeight(items) + Weight(b) by {
      assert xs[..|xs| - 1] == items;
    }
    var c := Count(b.kind, Weight(b));
    match Find(counts, b.kind)
    case Some(i) =>
      assert Add(counts, b) == counts[i := Count(b.kind, counts[i].count + Weight(b))];
      SumUpdate(counts, i, Count(b.kind, counts[i].count + Weight(b)));
    case None =>
      assert Add(counts, b) == counts + [c];
      SumAppend(counts, [c]);
      assert Sum([c]) == Weight(b) by { assert [c][..0] == []; }
  }

  lemma AddTallies(counts: seq<Count>, items: seq<Issue>, b: Issue)
    requires Tallies(counts, items)
    ensures Tallies(Add(counts, b), items + [b])
  {
    AddDistinct(counts, b);
    AddWeights(counts, items, b);
    forall name
      ensures Counted(Add(counts, b), name) <==> Seen(items + [b], name)
    {
      AddNames(counts, items, b, name);
    }
    AddSum(counts, items, b);
  }

  lemma {:induction false} WeightOfAbsent(items: seq<Issue>, name: string)
    requires forall k :: 0 <= k < |items| ==> items[k].kind != name
    ensures WeightOf(items, name) == 0
  {
    if items != [] {
      WeightOfAbsent(items[..|items| - 1], name);
    }
  }

  /** What the category counts hold: one entry per category seen, in order of first sight, with
      the summed weight of its findings; the counts add up to the total weight, which is at least
      the number of findings. */
  lemma {:induction false} TallyTallies(items: seq<Issue>)
    ensures Tallies(Tally(items), items)
  {
    if items != [] {
      var init := items[..|items| - 1];
      TallyTallies(init);
      AddTallies(Tally(init), init, items[|items| - 1]);
      assert init + [items[|items| - 1]] == items;
    }
  }

  // Distribution.

  /** `biasDistribution`: every category's rounded percentage of the total, or three zero
      entries when nothing was counted. */
  function Distribution(counts: seq<Count>): (r: seq<Share>)
  {
    var total := Sum(counts);
    if total > 0 then seq(|counts|, i requires 0 <= i < |counts| => Share(counts[i].name, RoundDiv(100 * counts[i].count, total)))
    else [Share("Gender Bias", 0), Share("Age Bias", 0), Share("Cultural Bias", 0)]
  }

  lemma {:induction false} CountAtMostSum(counts: seq<Count>, i: nat)
    requires i < |counts|
    ensures counts[i].count <= Sum(counts)
  {
    if i < |counts| - 1 {
      CountAtMostSum(counts[..|counts| - 1], i);
    }
  }

  /** Each share is its category's percentage of the total rounded to the nearest integer,
      between 0 and 100, in the order of the counts. */
  lemma DistributionShares(counts: seq<Count>)
    requires Sum(counts) > 0
    ensures var d := Distribution(counts);
      |d| == |counts| &&
      forall i :: 0 <= i < |counts| ==>
        d[i].name == counts[i].name && 0 <= d[i].value <= 100 &&
        2 * Sum(counts) * d[i].value - Sum(counts) <= 200 * counts[i].count < 2 * Sum(counts) * d[i].value + Sum(counts)
  {
    forall i | 0 <= i < |counts|
      ensures 0 <= RoundDiv(100 * counts[i].count, Sum(counts)) <= 100
    {
      CountAtMostSum(counts, i);
      RoundDivBounds(100 * counts[i].count, Sum(counts), 0, 100);
    }
  }

  /** The total is zero exactly when there is no finding, and then the distribution is the three
      zero entries and there is nothing to recommend. */
  lemma NoFindings(items: seq<Issue>)
    ensures Sum(Tally(items)) == 0 <==> items == []
    ensures items == [] ==>
      Distribution(Tally(items)) == [Share("Gender Bias", 0), Share("Age Bias", 0), Share("Cultural Bias", 0)] &&
      Recommendations(Tally(items)) == []
  {
    TallyTallies(items);
  }

  // Recommendations.

  function ByCount(c: Count): real {
    c.count as real
  }

  /** `sampleIssue`: a description per known category and a default for any other name. */
  function SampleIssue(name: string): string {
    match name
    case "Gender Bias" => "Use of gendered language in job descriptions"
    case "Age Bias" => "References to age-coded terms"
    case "Cultural Bias" => "Language excluding non-native speakers"
    case "Racial Bias" => "Subjective wording that may imply appearance"
    case "Religious Bias" => "Preference for specific belief systems"
    case "Ableist Language" => "Insensitive descriptors about mental/physical states"
    case "LGBTQ+ Bias" => "Assumptions about family structure or orientation"
    case "Socioeconomic Bias" => "Requirements implying wealth or ownership"
    case _ => "Reduce subjective or exclusionary wording"
  }

  /** The three categories with the largest counts, ties kept in order of first sight. */
  function TopCategories(counts: seq<Count>): (r: seq<Count>)
    ensures |r| == if |counts| < 3 then |counts| else 3
  {
    var sorted := StableSort.SortDesc(counts, ByCount);
    sorted[..if |sorted| < 3 then |sorted| else 3]
  }

  /** `recommendations`. */
  function Recommendations(counts: seq<Count>): seq<Recommendation> {
    var top := TopCategories(counts);
    seq(|top|, i requires 0 <= i < |top| => Recommendation(
      top[i].name,
      if top[i].count > 2 then "High" else "Medium",
      SampleIssue(top[i].name),
      "Use neutral, inclusive alternatives suggested by the analyzer"))
  }

  /** The chosen categories are a sub-multiset of the counts, largest first, no category left
      out has a larger count than a chosen one, and among categories with equal counts the ones
      chosen are the first seen. */
  lemma TopCategoriesAreTop(counts: seq<Count>)
    ensures var top := TopCategories(counts);
      (forall i :: 0 <= i < |top| ==> top[i] in counts) &&
      multiset(top) <= multiset(counts) &&
      StableSort.Descending(top, ByCount) &&
      (forall c :: c in counts && c !in top ==> forall i :: 0 <= i < |top| ==> top[i].count >= c.count) &&
      forall k :: StableSort.WithKey(top, ByCount, k) <= StableSort.WithKey(counts, ByCount, k)
  {
    var sorted := StableSort.SortDesc(counts, ByCount);
    StableSort.SortDescCorrect(counts, ByCount);
    var top := TopCategories(counts);
    assert top == sorted[..|top|];
    TopMembers(counts, sorted, top);
    TopBeatsRest(counts, sorted, top);
    TopFirstSeen(counts, sorted, top);
  }

  /** A prefix of a stable sort keeps a sub-multiset, and of each count the first categories seen. */
  lemma TopFirstSeen(counts: seq<Count>, sorted: seq<Count>, top: seq<Count>)
    requires multiset(sorted) == multiset(counts)
    requires forall k :: StableSort.WithKey(sorted, ByCount, k) == StableSort.WithKey(counts, ByCount, k)
    requires |top| <= |sorted| && top == sorted[..|top|]
    ensures multiset(top) <= multiset(counts)
    ensures forall k :: StableSort.WithKey(top, ByCount, k) <= StableSort.WithKey(counts, ByCount, k)
  {
    var rest := sorted[|top|..];
    assert sorted == top + rest;
    assert multiset(sorted) == multiset(top) + multiset(rest);
    forall k
      ensures StableSort.WithKey(top, ByCount, k) <= StableSort.WithKey(counts, ByCount, k)
    {
      StableSort.WithKeyAppend(top, rest, ByCount, k);
    }
  }

  lemma TopMembers(counts: seq<Count>, sorted: seq<Count>, top: seq<Count>)
    requires multiset(sorted) == multiset(counts) && StableSort.Descending(sorted, ByCount)
    requires |top| <= |sorted| && top == sorted[..|top|]
    ensures forall i :: 0 <= i < |top| ==> top[i] in counts
    ensures StableSort.Descending(top, ByCount)
  {
    forall i | 0 <= i < |top|
      ensures top[i] in counts
    {
      assert top[i] in multiset(sorted);
    }
  }

  lemma TopBeatsRest(counts: seq<Count>, sorted: seq<Count>, top: seq<Count>)
    requires multiset(sorted) == multiset(counts) && StableSort.Descending(sorted, ByCount)
    requires |top| <= |sorted| && top == sorted[..|top|]
    ensures forall c :: c in counts && c !in top ==> forall i :: 0 <= i < |top| ==> top[i].count >= c.count
  {
    forall c, i | c in counts && c !in top && 0 <= i < |top|
      ensures top[i].count >= c.count
    {
      assert c in multiset(sorted);
      var j :| 0 <= j < |sorted| && sorted[j] == c;
      assert ByCount(sorted[i]) >= ByCount(sorted[j]);
    }
  }

  /** A recommendation is "High" exactly when its category was counted more than twice. */
  lemma RecommendationImpact(counts: seq<Count>)
    ensures var recs, top := Recommendations(counts), TopCategories(counts);
      |recs| == |top| &&
      forall i :: 0 <= i < |recs| ==> recs[i].category == top[i].name && (recs[i].impact == "High" <==> top[i].count > 2)
  {
  }

  // Slices.

  /** `list.slice(-n)`: the last `n` elements, or all of them when there are fewer. */
  function Last<T>(list: seq<T>, n: nat): (r: seq<T>)
    ensures |r| == if |list| < n then |list| else n
    ensures forall k :: 0 <= k < |r| ==> r[k] == list[|list| - |r| + k]
  {
    list[if |list| < n then 0 else |list| - n..]
  }

  function Reverse<T>(s: seq<T>): (r: seq<T>)
    ensures |r| == |s| && forall k :: 0 <= k < |s| ==> r[k] == s[|s| - 1 - k]
  {
    seq(|s|, k requires 0 <= k < |s| => s[|s| - 1 - k])
  }

  /** Reversing twice gives back the list, so the reversed list holds the same items, newest first. */
  lemma ReverseInvolutive<T>(s: seq<T>)
    ensures Reverse(Reverse(s)) == s
    ensures |s| > 0 ==> Reverse(s)[0] == s[|s| - 1] && Reverse(s)[|s| - 1] == s[0]
  {
  }

  /** `s.slice(0, n)`. */
  function Take(s: string, n: nat): string {
    if |s| <= n then s else s[..n]
  }

  /** One recent analysis: the title, or the first 40 characters of the text when it has none. */
  function RecentOf(a: Stored, fmt: string -> string): Recent {
    Recent(a.id, if a.title.Some? && a.title.value != "" then a.title.value else Take(a.originalText, 40),
           fmt(a.date), a.fairnessScore, StatusFor(a.fairnessScore))
  }

  /** `historicalScores`: the last six analyses with their short date. */
  function History(list: seq<Stored>, shortDate: string -> string): (r: seq<Point>)
    ensures |r| == if |list| < 6 then |list| else 6
  {
    var last := Last(list, 6);
    seq(|last|, k requires 0 <= k < |last| => Point(shortDate(last[k].date), last[k].fairnessScore))
  }

  /** The history is the last six analyses, oldest first. */
  lemma HistoryIsLastSix(list: seq<Stored>, shortDate: string -> string)
    ensures var r := History(list, shortDate);
      forall k :: 0 <= k < |r| ==> r[k] == Point(shortDate(list[|list| - |r| + k].date), list[|list| - |r| + k].fairnessScore)
  {
    var r := History(list, shortDate);
    var last := Last(list, 6);
    forall k | 0 <= k < |r|
      ensures r[k] == Point(shortDate(list[|list| - |r| + k].date), list[|list| - |r| + k].fairnessScore)
    {
      assert r[k] == Point(shortDate(last[k].date), last[k].fairnessScore);
      assert last[k] == list[|list| - |r| + k];
    }
  }

  /** `recentAnalyses`: the last four analyses, newest first, with their status. */
  function RecentList(list: seq<Stored>, longDate: string -> string): (r: seq<Recent>)
    ensures |r| == if |list| < 4 then |list| else 4
    ensures forall k :: 0 <= k < |r| ==> r[k] == RecentOf(list[|list| - 1 - k], longDate)
  {
    var recent := Reverse(Last(list, 4));
    seq(|recent|, k requires 0 <= k < |recent| => RecentOf(recent[k], longDate))
  }

  // The summary.

  /** `buildResponse`; `shortDate` and `longDate` stand for the two locale date formats. */
  function Response(list: seq<Stored>, shortDate: string -> string, longDate: string -> string): Summary {
    var counts := Tally(Items(list));
    Summary(
      Metrics(Average(list), |list|, |Items(list)|, ImprovedCount(list)),
      History(list, shortDate),
      Distribution(counts),
      RecentList(list, longDate),
      Recommendations(counts))
  }

  /** `buildResponse`: the category counts by the loops, the rest as expressions. */
  method BuildResponse(list: seq<Stored>, shortDate: string -> string, longDate: string -> string) returns (r: Summary)
    ensures r == Response(list, shortDate, longDate)
  {
    var counts := CategoryCounts(list);
    r := Summary(
      Metrics(Average(list), |list|, |Items(list)|, ImprovedCount(list)),
      History(list, shortDate),
      Distribution(counts),
      RecentList(list, longDate),
      Recommendations(counts));
  }

  /** The metrics: the count of analyses, the number of findings, which the distribution's total
      weight is at least, and the number of changed texts, at most the count. */
  lemma ResponseMetrics(list: seq<Stored>, shortDate: string -> string, longDate: string -> string)
    ensures var r := Response(list, shortDate, longDate);
      r.metrics.totalAnalyses == |list| &&
      r.metrics.biasIssuesFound == |Items(list)| <= Sum(Tally(Items(list))) &&
      r.metrics.contentImproved <= |list| &&
      (list == [] ==> r.metrics.averageFairness == 0) &&
      (list != [] ==> 2 * |list| * r.metrics.averageFairness - |list| <= 2 * ScoreSum(list) < 2 * |list| * r.metrics.averageFairness + |list|)
  {
    TallyTallies(Items(list));
  }

  // Filtering by type.

  /** Whether the analysis has a finding of one of the types. */
  predicate HasType(a: Stored, types: seq<string>) {
    exists k :: 0 <= k < |IssuesOf(a)| && IssuesOf(a)[k].kind in types
  }

  /** The POST filter: with a non-empty list of types, the analyses having a finding of one of
      them; otherwise all. */
  function Filter(list: seq<Stored>, types: Option<seq<string>>): (r: seq<Stored>)
    ensures |r| <= |list|
  {
    if types.None? || types.value == [] || list == [] then list
    else Filter(list[..|list| - 1], types) + (if HasType(list[|list| - 1], types.value) then [list[|list| - 1]] else [])
  }

  /** An analysis is kept exactly when it has a finding of a requested type; the kept ones keep
      their order; filtering again changes nothing. */
  lemma {:induction false} FilterKeeps(list: seq<Stored>, types: seq<string>)
    requires types != []
    ensures forall a :: a in Filter(list, Some(types)) <==> a in list && HasType(a, types)
  {
    if list != [] {
      FilterKeeps(list[..|list| - 1], types);
      assert list == list[..|list| - 1] + [list[|list| - 1]];
    }
  }

  lemma {:induction false} FilterAppend(a: seq<Stored>, b: seq<Stored>, types: seq<string>)
    requires types != []
    ensures Filter(a + b, Some(types)) == Filter(a, Some(types)) + Filter(b, Some(types))
  {
    if b == [] {
      assert a + b == a;
    } else {
      assert (a + b)[..|a + b| - 1] == a + b[..|b| - 1];
      FilterAppend(a, b[..|b| - 1], types);
    }
  }

  lemma {:induction false} FilterIdempotent(list: seq<Stored>, types: seq<string>)
    requires types != []
    ensures Filter(Filter(list, Some(types)), Some(types)) == Filter(list, Some(types))
  {
    if list != [] {
      var init, x := list[..|list| - 1], list[|list| - 1];
      FilterIdempotent(init, types);
      var kept := if HasType(x, types) then [x] else [];
      FilterAppend(Filter(init, Some(types)), kept, types);
      if HasType(x, types) {
        assert [x][..0] == [];
      }
    }
  }

  /** Without requested types nothing is filtered out. */
  lemma FilterNone(list: seq<Stored>)
    ensures Filter(list, None) == list && Filter(list, Some([])) == list
  {
  }

  /** The POST handler over the analyses in date order. */
  function Post(all: seq<Stored>, types: Option<seq<string>>, shortDate: string -> string, longDate: string -> string): Summary {
    Response(Filter(all, types), shortDate, longDate)
  }
}
