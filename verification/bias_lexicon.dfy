/** The bias lexicon (src/ml-nlp/nlp/biasLexicon.ts): the eight categories, their weighted
    patterns with neutral suggestions, and `applySuggestions`, which rewrites the matched phrases.
    Weights are kept in tenths: the weight 0.7 is 7. */
module BiasLexicon {
  import opened Wrappers
  import opened Chars
  import opened Regex

  datatype Category = Gender | Age | Cultural | Racial | Religious | Ableist | Lgbtq | Socioeconomic

  /** The category's name as it appears in findings and classifier labels. */
  function Name(c: Category): string {
    match c
    case Gender => "Gender Bias"
    case Age => "Age Bias"
    case Cultural => "Cultural Bias"
    case Racial => "Racial Bias"
    case Religious => "Religious Bias"
    case Ableist => "Ableist Language"
    case Lgbtq => "LGBTQ+ Bias"
    case Socioeconomic => "Socioeconomic Bias"
  }

  /** The category's position in the lexicon. */
  function Ord(c: Category): nat {
    match c
    case Gender => 0
    case Age => 1
    case Cultural => 2
    case Racial => 3
    case Religious => 4
    case Ableist => 5
    case Lgbtq => 6
    case Socioeconomic => 7
  }

  /** A pattern, its suggestions (the first is the primary one) and its severity in tenths. */
  datatype Entry = Entry(pattern: Pattern, suggestions: seq<string>, weight: nat)

  /** The categories in the lexicon's declaration order, which is the order of `Object.entries`. */
  function Categories(): (r: seq<Category>)
    ensures |r| == 8
    ensures forall k :: 0 <= k < |r| ==> Ord(r[k]) == k
  {
    [Gender, Age, Cultural, Racial, Religious, Ableist, Lgbtq, Socioeconomic]
  }

  /** Every category is listed, so the analyser looks at each of them exactly once. */
  lemma CategoriesComplete(c: Category)
    ensures c in Categories()
  {
    assert Categories()[Ord(c)] == c;
  }

  /** A literal word with nothing before it. */
  function W(s: string): Piece { Piece(NoGap, s, false) }

  /** A literal after `\s+`. */
  function Sp(s: string): Piece { Piece(Spaces, s, false) }

  /** `\b(alt1|alt2|...)tail\b`. */
  function Bounded(alts: seq<seq<Piece>>, tail: seq<Piece>): Pattern {
    Pattern(true, alts, tail, true)
  }

  /** An entry as the lexicon writes them: a primary suggestion, a weight between 0.4 and 0.9, and
      a word-bounded pattern whose matches are never empty. */
  predicate Usable(e: Entry) {
    |e.suggestions| > 0 && e.suggestions[0] != [] && 4 <= e.weight <= 9 &&
    e.pattern.lead && e.pattern.trail && WellFormed(e.pattern)
  }

  /** The entries of a category, in declaration order. */
  function Entries(c: Category): (r: seq<Entry>)
    ensures r != []
    ensures forall k :: 0 <= k < |r| ==> r[k].suggestions != []
  {
    match c
    case Gender => [
      Entry(Bounded([[W("aggressive")]], []), ["assertive", "decisive"], 7),
      Entry(Bounded([[W("dominant")], [W("rock"), Piece(OptSpace, "star", false)], [W("ninja")]], []),
            ["lead", "expert"], 6),
      Entry(Bounded([[W("ambitious")]], []), ["goal-oriented"], 4),
      Entry(Bounded([[W("he")], [W("him")]], []), ["they", "the candidate"], 5)]
    case Age => [
      Entry(Bounded([[W("digital"), Piece(OptSpace, "native", false)]], []), ["tech-savvy individual"], 8),
      Entry(Bounded([[W("young")], [W("youthful")], [W("energetic")]], []), ["motivated", "high-energy"], 7),
      Entry(Bounded([[W("overqualified")]], []), ["experienced"], 5)]
    case Cultural => [
      Entry(Bounded([[W("native"), Sp("english"), Sp("speaker")]], []), ["fluent in English"], 9),
      Entry(Bounded([[W("american"), Sp("accent")], [W("no"), Sp("accent")]], []), ["clear communication"], 8)]
    case Racial => [
      Entry(Bounded([[W("clean"), Sp("cut")]], [Piece(Spaces, "look", true)]), ["professional appearance"], 6)]
    case Religious => [
      Entry(Bounded([[W("christian"), Sp("values")]], []), ["ethical standards"], 9)]
    case Ableist => [
      Entry(Bounded([[W("crazy")], [W("insane")]], []), ["unexpected", "unusual"], 6),
      Entry(Bounded([[W("handicap"), Piece(NoGap, "ped", true)]], []), ["person with a disability"], 8)]
    case Lgbtq => [
      Entry(Bounded([[W("married"), Sp("man")], [W("wife"), Sp("and"), Sp("kids")]], []), ["has a family"], 6)]
    case Socioeconomic => [
      Entry(Bounded([[W("owns"), Sp("a"), Sp("car")]], []), ["reliable transportation"], 5)]
  }

  /** Every entry of the lexicon is usable. */
  lemma EntriesUsable(c: Category)
    ensures forall k :: 0 <= k < |Entries(c)| ==> Usable(Entries(c)[k])
  {
  }

  /** `suggestions[i] || suggestions[0] || ex`: the i-th suggestion, else the first, else the
      example itself, skipping missing and empty strings. */
  function SuggestionFor(suggestions: seq<string>, i: nat, ex: string): (r: string)
    ensures r == ex || r in suggestions
    ensures i < |suggestions| && suggestions[i] != [] ==> r == suggestions[i]
    ensures !(i < |suggestions| && suggestions[i] != []) && |suggestions| > 0 && suggestions[0] != [] ==>
      r == suggestions[0]
    ensures r == [] ==> ex == []
  {
    if i < |suggestions| && suggestions[i] != [] then suggestions[i]
    else if |suggestions| > 0 && suggestions[0] != [] then suggestions[0]
    else ex
  }

  /** `/^[aeiou]/i`. */
  predicate StartsWithVowel(w: string) {
    |w| > 0 && w[0] in "aeiouAEIOU"
  }

  /** What the article callback returns: the article agreeing with the suggestion, then the
      suggestion. */
  function WithArticle(sug: string): string
  {
    (if StartsWithVowel(sug) then "an" else "a") + " " + sug
  }

  /** `\b(a|an)\s+EX\b` with the example escaped. */
  function ArticlePattern(ex: string): (r: Pattern)
    ensures EndsWithLit(r, ex)
  {
    var tail := [Sp(ex)];
    assert [W("a")] + tail == [W("a"), Sp(ex)];
    assert [W("an")] + tail == [W("an"), Sp(ex)];
    Bounded([[W("a")], [W("an")]], tail)
  }

  /** Where the alternative of the article pattern for the article `w` ends when it starts at
      `p`: `w` in either case, the whole run of whitespace after it (which must not be empty),
      then the example in either case, which the match ends right after. */
  function ArticleEnd(t: string, p: nat, w: string, ex: string): (r: Option<nat>)
    requires p <= |t|
    ensures r.Some? ==> p + |w| < r.value <= |t|
  {
    if LitAt(t, p, w) then SpacedEnd(t, p + |w|, ex) else None
  }

  /** Where `\s+EX` ends when it starts at `q`: after the whole run of whitespace, which must not
      be empty, and the example in either case. */
  function SpacedEnd(t: string, q: nat, ex: string): (r: Option<nat>)
    requires q <= |t|
    ensures r.Some? ==> q < r.value <= |t|
  {
    var n := SpaceRun(t, q);
    if n > 0 && LitAt(t, q + n, ex) then Some(q + n + |ex|) else None
  }

  /** The candidate ends an optional end stands for. */
  function Ends(o: Option<nat>): seq<nat> {
    if o.Some? then [o.value] else []
  }

  /** `\b(a|an)\s+EX\b` matches at `p` exactly when a word boundary precedes `p`, "a" or "an" (in
      either case) starts there and is followed by whitespace and the example as `ArticleEnd`
      says, and a word boundary follows the example; the match then ends right after the
      example. Backtracking into the whitespace finds nothing else, as the example does not start
      with whitespace. */
  lemma ArticleMatchAt(t: string, p: nat, ex: string, e: nat)
    requires p <= |t| && ex != [] && !IsSpace(ex[0])
    ensures MatchAt(t, p, ArticlePattern(ex)) == Some(e) <==>
      Boundary(t, p) && (ArticleEnd(t, p, "a", ex) == Some(e) || ArticleEnd(t, p, "an", ex) == Some(e)) &&
      Boundary(t, e)
  {
    ArticleCandidates(t, p, ex);
    var es := AltEnds(t, p, ArticlePattern(ex).alts, ArticlePattern(ex).tail);
    if es != [] {
      assert es[1..] == [];
    }
  }

  /** The candidate ends of the article pattern: at most one, as "a" followed by whitespace and
      "an" cannot both start at the same position. */
  lemma ArticleCandidates(t: string, p: nat, ex: string)
    requires p <= |t| && ex != [] && !IsSpace(ex[0])
    ensures ArticleEnd(t, p, "a", ex).None? || ArticleEnd(t, p, "an", ex).None?
    ensures AltEnds(t, p, ArticlePattern(ex).alts, ArticlePattern(ex).tail) ==
      if ArticleEnd(t, p, "a", ex).Some? then [ArticleEnd(t, p, "a", ex).value]
      else if ArticleEnd(t, p, "an", ex).Some? then [ArticleEnd(t, p, "an", ex).value]
      else []
  {
    ArticleAltEnds(t, p, "a", ex);
    ArticleAltEnds(t, p, "an", ex);
    ArticleAlternatives(t, p, ex);
    var s1, s2 := SeqEnds(t, p, [W("a"), Sp(ex)]), SeqEnds(t, p, [W("an"), Sp(ex)]);
    if ArticleEnd(t, p, "a", ex).Some? {
      AnNotBeforeSpace(t, p);
      assert s1 + s2 == s1;
    } else {
      assert s1 + s2 == s2;
    }
  }

  /** "an" does not start where the character after the first is whitespace. */
  lemma AnNotBeforeSpace(t: string, p: nat)
    requires p + 1 < |t| && IsSpace(t[p + 1])
    ensures !LitAt(t, p, "an")
  {
    if p + 2 <= |t| {
      assert Lower(t[p..p + 2])[1] != Lower("an")[1];
    }
  }

  /** One alternative of the article pattern, with the example after it, has the single end
      `ArticleEnd` names, or none. */
  lemma ArticleAltEnds(t: string, p: nat, w: string, ex: string)
    requires p <= |t| && ex != [] && !IsSpace(ex[0])
    ensures SeqEnds(t, p, [W(w), Sp(ex)]) == Ends(ArticleEnd(t, p, w, ex))
  {
    if LitAt(t, p, w) {
      ArticleAltHit(t, p, w, ex);
    } else {
      NoWordHere(t, p, w, ex);
      assert ArticleEnd(t, p, w, ex) == None;
    }
  }

  lemma ArticleAltHit(t: string, p: nat, w: string, ex: string)
    requires p <= |t| && ex != [] && !IsSpace(ex[0]) && LitAt(t, p, w)
    ensures SeqEnds(t, p, [W(w), Sp(ex)]) == Ends(ArticleEnd(t, p, w, ex))
  {
    var q, b := p + |w|, Sp(ex);
    var e := SpacedEnd(t, q, ex);
    var es := PieceEnds(t, q, b);
    assert SeqEnds(t, p, [W(w), b]) == es by {
      AfterWord(t, p, w, b);
    }
    assert es == Ends(e) by {
      SpacedEnds(t, q, ex, SpaceRun(t, q));
    }
    assert ArticleEnd(t, p, w, ex) == e;
  }

  /** Where a word occurs, a word and a piece end where the piece ends after the word. */
  lemma AfterWord(t: string, p: nat, w: string, b: Piece)
    requires p <= |t| && LitAt(t, p, w)
    ensures SeqEnds(t, p, [W(w), b]) == PieceEnds(t, p + |w|, b)
  {
    var q := p + |w|;
    TwoPieces(t, p, W(w), b);
    WordEnds(t, p, w);
    assert [q][1..] == [];
    assert SeqEndsFrom(t, [q], [b], p) == SeqEnds(t, q, [b]) + [];
    OnePiece(t, q, b);
  }

  /** The ends of two pieces: the second tried from each end of the first. */
  lemma TwoPieces(t: string, p: nat, a: Piece, b: Piece)
    requires p <= |t|
    ensures SeqEnds(t, p, [a, b]) == SeqEndsFrom(t, PieceEnds(t, p, a), [b], p)
  {
    assert [a, b][1..] == [b];
  }

  /** The ends of one piece are the piece's own. */
  lemma OnePiece(t: string, q: nat, b: Piece)
    requires q <= |t|
    ensures SeqEnds(t, q, [b]) == PieceEnds(t, q, b)
  {
    assert [b][1..] == [];
    SeqEndsFromNoPieces(t, PieceEnds(t, q, b), q);
  }

  /** A word with nothing before it ends right after itself, if it is there. */
  lemma WordEnds(t: string, p: nat, w: string)
    requires p <= |t|
    ensures PieceEnds(t, p, W(w)) == if LitAt(t, p, w) then [p + |w|] else []
  {
    assert GapEnds(t, p, NoGap) == [p] && [p][1..] == [];
    assert AfterLit(t, [p][1..], w, p) == [];
  }

  /** `\s+EX` ends only after the whole run of whitespace, since the example does not start with
      whitespace. */
  lemma SpacedEnds(t: string, q: nat, ex: string, n: nat)
    requires q <= |t| && ex != [] && !IsSpace(ex[0]) && n == SpaceRun(t, q)
    ensures PieceEnds(t, q, Sp(ex)) == Ends(SpacedEnd(t, q, ex))
  {
    SpacesThenLit(t, q, ex, n);
    SpacedEndIs(t, q, ex, n);
  }

  lemma SpacedEndIs(t: string, q: nat, ex: string, n: nat)
    requires q <= |t| && n == SpaceRun(t, q)
    ensures SpacedEnd(t, q, ex) == if n > 0 && LitAt(t, q + n, ex) then Some(q + n + |ex|) else None
  {
  }

  lemma SpacesThenLit(t: string, q: nat, ex: string, n: nat)
    requires q <= |t| && ex != [] && !IsSpace(ex[0]) && n == SpaceRun(t, q)
    ensures PieceEnds(t, q, Sp(ex)) == if n > 0 && LitAt(t, q + n, ex) then [q + n + |ex|] else []
  {
    var gs := GapEnds(t, q, Spaces);
    var r := AfterLit(t, gs, ex, q);
    assert PieceEnds(t, q, Sp(ex)) == r + [];
    assert r + [] == r;
    if n > 0 {
      assert gs == CountDown(q + n, q + 1);
      RunThenLit(t, q, ex, n);
    } else {
      assert gs == [];
    }
  }

  /** After a non-empty run of whitespace, the example can only start where the run ends. */
  lemma RunThenLit(t: string, q: nat, ex: string, n: nat)
    requires q <= |t| && ex != [] && !IsSpace(ex[0]) && n == SpaceRun(t, q) && n > 0
    ensures AfterLit(t, CountDown(q + n, q + 1), ex, q) == if LitAt(t, q + n, ex) then [q + n + |ex|] else []
  {
    var gs := CountDown(q + n, q + 1);
    assert gs[0] == q + n;
    var rest := AfterLit(t, gs[1..], ex, q);
    assert rest == [] by {
      AfterLitSpaces(t, gs[1..], ex, q);
    }
    if LitAt(t, q + n, ex) {
      assert [q + n + |ex|] + rest == [q + n + |ex|];
    }
  }

  /** The candidate ends of the article pattern: those of "a", then those of "an". */
  lemma ArticleAlternatives(t: string, p: nat, ex: string)
    requires p <= |t|
    ensures AltEnds(t, p, ArticlePattern(ex).alts, ArticlePattern(ex).tail) ==
      SeqEnds(t, p, [W("a"), Sp(ex)]) + SeqEnds(t, p, [W("an"), Sp(ex)])
  {
    var ap := ArticlePattern(ex);
    assert ap.alts[0] + ap.tail == [W("a"), Sp(ex)];
    assert ap.alts[1..][0] + ap.tail == [W("an"), Sp(ex)] && ap.alts[1..][1..] == [];
    assert AltEnds(t, p, ap.alts[1..][1..], ap.tail) == [];
    assert SeqEnds(t, p, [W("an"), Sp(ex)]) + [] == SeqEnds(t, p, [W("an"), Sp(ex)]);
  }

  /** The article correction on a text that is an article ("a" or "an", in either case),
      whitespace and the example (in either case): the whole text becomes the suggestion behind
      the article that agrees with it. */
  lemma ArticleCorrection(art: string, sp: string, x: string, ex: string, sug: string)
    requires Lower(art) == "a" || Lower(art) == "an"
    requires sp != [] && AllSpace(sp)
    requires Lower(x) == Lower(ex) && ex != [] && IsWordChar(ex[0]) && IsWordChar(ex[|ex| - 1])
    ensures Replace(art + sp + x, ArticlePattern(ex), Callback(WithArticle(sug))) == WithArticle(sug)
  {
    var t := art + sp + x;
    ArticleShapeMatch(t, art, sp, x, ex);
    NoArticleHere(t, |t|, ex);
    WholeMatchReplaced(t, ArticlePattern(ex), WithArticle(sug));
  }

  /** An article, whitespace and the example make one match of the article pattern. */
  lemma ArticleShapeMatch(t: string, art: string, sp: string, x: string, ex: string)
    requires t == art + sp + x
    requires Lower(art) == "a" || Lower(art) == "an"
    requires sp != [] && AllSpace(sp)
    requires Lower(x) == Lower(ex) && ex != [] && IsWordChar(ex[0]) && IsWordChar(ex[|ex| - 1])
    ensures MatchAt(t, 0, ArticlePattern(ex)) == Some(|t|)
  {
    ArticleShapeEnd(t, art, sp, x, ex);
    ArticleShapeBoundaries(t, art, sp, x, ex);
    ArticleMatchAt(t, 0, ex, |t|);
  }

  /** In an article, whitespace and the example, the article's alternative ends at the end. */
  lemma ArticleShapeEnd(t: string, art: string, sp: string, x: string, ex: string)
    requires t == art + sp + x
    requires sp != [] && AllSpace(sp)
    requires Lower(x) == Lower(ex) && ex != [] && IsWordChar(ex[0])
    ensures ArticleEnd(t, 0, Lower(art), ex) == Some(|t|)
  {
    var q := |art|;
    LitAtFront(t, art, sp + x);
    assert !IsSpace(x[0]) by {
      assert LowerChar(x[0]) == Lower(x)[0];
    }
    SpaceRunBetween(t, art, sp, x);
    LitAtBack(t, art + sp, x, ex);
    SpacedEndIs(t, q, ex, |sp|);
    assert |Lower(art)| == q;
  }

  /** A text starts with the lower case of its first part, ignoring case. */
  lemma LitAtFront(t: string, a: string, b: string)
    requires t == a + b
    ensures LitAt(t, 0, Lower(a))
  {
    assert t[0..|a|] == a;
    LowerIdempotent(a);
  }

  /** A text ends with anything that has the lower case of its last part. */
  lemma LitAtBack(t: string, a: string, x: string, ex: string)
    requires t == a + x && Lower(x) == Lower(ex)
    ensures LitAt(t, |a|, ex) && |t| == |a| + |ex|
  {
    assert t[|a|..|a| + |x|] == x;
  }

  /** The whitespace between two parts is one whole run when the second does not start with
      whitespace. */
  lemma SpaceRunBetween(t: string, a: string, sp: string, x: string)
    requires t == a + sp + x && AllSpace(sp) && (x == [] || !IsSpace(x[0]))
    ensures SpaceRun(t, |a|) == |sp|
  {
    assert forall k :: |a| <= k < |a| + |sp| ==> t[k] == sp[k - |a|];
    assert |a| + |sp| < |t| ==> t[|a| + |sp|] == x[0];
    SpaceRunExact(t, |a|, |sp|);
  }

  /** An article, whitespace and the example start and end with word characters. */
  lemma ArticleShapeBoundaries(t: string, art: string, sp: string, x: string, ex: string)
    requires t == art + sp + x
    requires Lower(art) == "a" || Lower(art) == "an"
    requires Lower(x) == Lower(ex) && ex != [] && IsWordChar(ex[|ex| - 1])
    ensures Boundary(t, 0) && Boundary(t, |t|)
  {
    assert LowerChar(t[0]) == 'a' by {
      assert t[0] == art[0];
      assert Lower(art)[0] == 'a';
    }
    assert LowerChar(t[|t| - 1]) == LowerChar(ex[|ex| - 1]) by {
      assert t[|t| - 1] == x[|x| - 1];
    }
  }

  /** When the corrected text does not contain the example, the rewrite step of the lexicon's
      rewriter on an article, whitespace and the example yields the suggestion behind its own
      article. */
  lemma ArticleRewritten(art: string, sp: string, x: string, ex: string, sug: string)
    requires Lower(art) == "a" || Lower(art) == "an"
    requires sp != [] && AllSpace(sp)
    requires Lower(x) == Lower(ex) && ex != [] && IsWordChar(ex[0]) && IsWordChar(ex[|ex| - 1])
    requires !OccursIn(WithArticle(sug), ex)
    ensures RewriteStep(WithArticles, art + sp + x, ex, sug) == WithArticle(sug)
  {
    ArticleCorrection(art, sp, x, ex, sug);
    LiteralAbsentUnchanged(WithArticle(sug), ex, Template(sug));
  }

  /** The article follows the suggestion: "an ambitious" becomes "a goal-oriented". */
  lemma ArticleCorrected()
    ensures RewriteStep(WithArticles, "an ambitious", "ambitious", "goal-oriented") == "a goal-oriented"
  {
    var ex := "ambitious";
    assert "an ambitious" == "an" + " " + ex;
    assert WithArticle("goal-oriented") == "a goal-oriented";
    assert ex[2] == 'b';
    AbsentByChar("a goal-oriented", ex, 2);
    ArticleRewritten("an", " ", ex, ex, "goal-oriented");
  }

  /** What `applySuggestions` returns for a text that is just an article, spaces and an example:
      the corrected article, one space and the example's suggestion. */
  lemma RewrittenArticle(art: string, sp: string, x: string, ex: string, suggestions: seq<string>)
    requires Lower(art) == "a" || Lower(art) == "an"
    requires sp != [] && AllSpace(sp)
    requires Lower(x) == Lower(ex) && ex != [] && IsWordChar(ex[0]) && IsWordChar(ex[|ex| - 1])
    requires !OccursIn(WithArticle(SuggestionFor(suggestions, 0, ex)), ex)
    ensures Rewritten(WithArticles, art + sp + x, [ex], suggestions, 1) == WithArticle(SuggestionFor(suggestions, 0, ex))
  {
    ArticleRewritten(art, sp, x, ex, SuggestionFor(suggestions, 0, ex));
  }

  /** Whether the article correction runs before the plain replacement (the lexicon's rewriter) or
      not (the rewriter of the standalone bias-test script). */
  datatype RewriteMode = WithArticles | PlainOnly

  /** One example's rewrite: the article step, then every case-insensitive occurrence of the
      example replaced by the suggestion. */
  function RewriteStep(mode: RewriteMode, text: string, ex: string, sug: string): string {
    var t := if mode == WithArticles then Replace(text, ArticlePattern(ex), Callback(WithArticle(sug))) else text;
    Replace(t, Literal(ex), Template(sug))
  }

  /** The text after rewriting the first `n` examples in order. */
  function Rewritten(mode: RewriteMode, text: string, examples: seq<string>, suggestions: seq<string>, n: nat): string
    requires n <= |examples|
  {
    if n == 0 then text
    else
      var ex := examples[n - 1];
      RewriteStep(mode, Rewritten(mode, text, examples, suggestions, n - 1), ex, SuggestionFor(suggestions, n - 1, ex))
  }

  /** `applySuggestions`: each example in order, its article corrected and then every occurrence
      replaced, each step working on the previous step's output. When no example occurs in the
      text (in particular when there is none), the text comes back unchanged. */
  method ApplySuggestions(text: string, examples: seq<string>, suggestions: seq<string>) returns (improved: string)
    ensures improved == Rewritten(WithArticles, text, examples, suggestions, |examples|)
    ensures (forall i :: 0 <= i < |examples| ==> !OccursIn(text, examples[i])) ==> improved == text
  {
    improved := text;
    for i := 0 to |examples|
      invariant improved == Rewritten(WithArticles, text, examples, suggestions, i)
      invariant (forall j :: 0 <= j < |examples| ==> !OccursIn(text, examples[j])) ==> improved == text
    {
      var ex := examples[i];
      var sug := SuggestionFor(suggestions, i, ex);
      if forall j :: 0 <= j < |examples| ==> !OccursIn(text, examples[j]) {
        RewriteStepAbsent(WithArticles, text, ex, sug);
      }
      improved := Replace(improved, ArticlePattern(ex), Callback(WithArticle(sug)));
      improved := Replace(improved, Literal(ex), Template(sug));
    }
  }

  /** A rewrite step for an example the text does not contain changes nothing. */
  lemma RewriteStepAbsent(mode: RewriteMode, text: string, ex: string, sug: string)
    requires !OccursIn(text, ex)
    ensures RewriteStep(mode, text, ex, sug) == text
  {
    if mode == WithArticles {
      ReplaceAbsent(text, ArticlePattern(ex), ex, Callback(WithArticle(sug)));
    }
    LiteralAbsentUnchanged(text, ex, Template(sug));
  }

  /** The plain replacement has no word boundaries: rewriting the example "he" turns "the" into
      "tthey". */
  lemma RewriteInsideWord()
    ensures RewriteStep(WithArticles, "the", "he", "they") == "tthey"
  {
    NoArticleInThe();
    HeReplacedInThe();
  }

  /** No article starts at either end of "the". */
  lemma NoArticleAt(p: nat)
    requires p == 0 || p == 3
    ensures MatchAt("the", p, ArticlePattern("he")) == None
  {
    if p == 0 {
      NoArticleLit("the", 0, "a");
      NoArticleLit("the", 0, "an");
    }
    NoArticleHere("the", p, "he");
  }

  /** Where neither "a" nor "an" starts, the article pattern does not match. */
  lemma NoArticleHere(t: string, p: nat, ex: string)
    requires p <= |t| && !LitAt(t, p, "a") && !LitAt(t, p, "an")
    ensures MatchAt(t, p, ArticlePattern(ex)) == None
  {
    var ap := ArticlePattern(ex);
    NoWordHere(t, p, "a", ex);
    NoWordHere(t, p, "an", ex);
    assert ap.alts[0] + ap.tail == [W("a"), Sp(ex)];
    assert ap.alts[1..][0] + ap.tail == [W("an"), Sp(ex)] && ap.alts[1..][1..] == [];
    assert AltEnds(t, p, ap.alts[1..], ap.tail) == [];
  }

  /** A word followed by more words has no end where the word does not occur. */
  lemma NoWordHere(t: string, p: nat, w: string, ex: string)
    requires p <= |t| && !LitAt(t, p, w)
    ensures SeqEnds(t, p, [W(w), Sp(ex)]) == []
  {
    assert GapEnds(t, p, NoGap) == [p] && [p][1..] == [];
    assert AfterLit(t, [p], w, p) == [];
  }

  lemma NoArticleLit(t: string, p: nat, lit: string)
    requires p < |t| && lit != [] && LowerChar(t[p]) != LowerChar(lit[0])
    ensures !LitAt(t, p, lit)
  {
    if p + |lit| <= |t| {
      assert Lower(t[p..p + |lit|])[0] != Lower(lit)[0];
    }
  }

  lemma NoArticleInThe()
    ensures Replace("the", ArticlePattern("he"), Callback(WithArticle("they"))) == "the"
  {
    var t := "the";
    var ap := ArticlePattern("he");
    forall p | 0 <= p <= |t|
      ensures MatchAt(t, p, ap).None?
    {
      if p == 0 || p == 3 {
        NoArticleAt(p);
      } else {
        assert !Boundary(t, p);
      }
    }
    ScanNone(t, ap, 0);
  }

  lemma HeFoundInThe()
    ensures ScanFrom("the", Literal("he"), 0) == [Span(1, 3)]
  {
    var t := "the";
    var p := Literal("he");
    HeOccurrences();
    LiteralMatchAt(t, 0, "he");
    LiteralMatchAt(t, 1, "he");
    ScanTake(t, p, 1, 3);
    NoHeAtEnd();
    assert [Span(1, 3)] + [] == [Span(1, 3)];
  }

  /** "he" occurs in "the" at 1 only. */
  lemma HeOccurrences()
    ensures !LitAt("the", 0, "he") && LitAt("the", 1, "he") && !LitAt("the", 3, "he")
  {
    var t := "the";
    assert Lower(t[0..2])[0] == 't' && t[1..3] == "he";
  }

  lemma NoHeAtEnd()
    ensures ScanFrom("the", Literal("he"), 3) == []
  {
    HeOccurrences();
    LiteralMatchAt("the", 3, "he");
    assert ScanFrom("the", Literal("he"), 4) == [];
  }

  lemma TheyInserted()
    ensures Rebuild("the", [Span(1, 3)], 0, Template("they")) == "tthey"
  {
    assert '$' !in "they";
    assert ReplacementFor("the", Span(1, 3), Template("they")) == "they";
    assert Rebuild("the", [], 3, Template("they")) == "";
  }

  lemma HeReplacedInThe()
    ensures Replace("the", Literal("he"), Template("they")) == "tthey"
  {
    HeFoundInThe();
    TheyInserted();
  }
}
