/** The preprocessor (src/ml-nlp/nlp/preprocess.ts): line endings become LF, the text is
    trimmed, then split into sentences and, lowercased, into tokens. `String.prototype.split` with
    a regular expression is modelled by its own algorithm, once for both separators. */
module Preprocess {
  import opened Wrappers
  import opened Chars
  import opened Regex

  /** `s.replace(/\r\n?/g, "\n")`: every CRLF and every lone CR becomes LF. */
  function UnixNewlines(s: string): (r: string)
    ensures '\r' !in r
    ensures |r| <= |s|
    decreases |s|
  {
    if s == [] then []
    else if s[0] == '\r' then "\n" + UnixNewlines(if |s| > 1 && s[1] == '\n' then s[2..] else s[1..])
    else [s[0]] + UnixNewlines(s[1..])
  }

  /** A character other than CR is kept. */
  lemma UnixNewlinesKeep(x: char, t: string)
    requires x != '\r'
    ensures UnixNewlines([x] + t) == [x] + UnixNewlines(t)
  {
    assert ([x] + t)[1..] == t;
  }

  /** A CR that no LF follows becomes one LF. */
  lemma UnixNewlinesLoneCR(t: string)
    requires t == [] || t[0] != '\n'
    ensures UnixNewlines(['\r'] + t) == "\n" + UnixNewlines(t)
  {
    assert (['\r'] + t)[1..] == t;
  }

  /** A CRLF becomes one LF. */
  lemma UnixNewlinesPair(t: string)
    ensures UnixNewlines(['\r', '\n'] + t) == "\n" + UnixNewlines(t)
  {
    assert (['\r', '\n'] + t)[2..] == t;
  }

  /** How many characters the rewrite consumes at the head of `s`: two for a CRLF, else one. */
  function HeadLength(s: string): (n: nat)
    requires s != []
    ensures 1 <= n <= |s|
    ensures n == 2 <==> s[0] == '\r' && |s| > 1 && s[1] == '\n'
  {
    if s[0] == '\r' && |s| > 1 && s[1] == '\n' then 2 else 1
  }

  /** What the head of a non-empty text becomes: LF for a CR or a CRLF, else itself. */
  function HeadRewrite(s: string): string
    requires s != []
  {
    if s[0] == '\r' then "\n" else [s[0]]
  }

  /** The rewrite of a non-empty text: the rewritten head, then the rewritten rest. */
  lemma UnixNewlinesHead(s: string)
    requires s != []
    ensures UnixNewlines(s) == HeadRewrite(s) + UnixNewlines(s[HeadLength(s)..])
  {
  }

  /** A text followed by one that does not start with LF keeps its head. */
  lemma UnixNewlinesHeadAppend(a: string, c: string)
    requires a != [] && (c == [] || c[0] != '\n')
    ensures UnixNewlines(a + c) == HeadRewrite(a) + UnixNewlines(a[HeadLength(a)..] + c)
  {
    var s := a + c;
    assert HeadLength(s) == HeadLength(a) && s[0] == a[0] by {
      assert s[0] == a[0];
      assert |a| == 1 ==> |s| == 1 || s[1] == c[0];
    }
    assert s[HeadLength(a)..] == a[HeadLength(a)..] + c;
    UnixNewlinesHead(s);
  }

  /** Two texts are rewritten separately unless a CRLF straddles the seam. */
  lemma {:induction false} UnixNewlinesAppend(a: string, c: string)
    requires c == [] || c[0] != '\n'
    ensures UnixNewlines(a + c) == UnixNewlines(a) + UnixNewlines(c)
    decreases |a|
  {
    if a == [] {
      assert a + c == c;
    } else {
      var n := HeadLength(a);
      UnixNewlinesHeadAppend(a, c);
      UnixNewlinesAppend(a[n..], c);
      UnixNewlinesHead(a);
      var h, u, v := HeadRewrite(a), UnixNewlines(a[n..]), UnixNewlines(c);
      assert h + (u + v) == (h + u) + v;
    }
  }

  /** A CRLF becomes exactly one LF, whatever surrounds it. */
  lemma UnixNewlinesCRLF(a: string, b: string)
    ensures UnixNewlines(a + "\r\n" + b) == UnixNewlines(a) + "\n" + UnixNewlines(b)
  {
    var c := ['\r', '\n'] + b;
    assert a + "\r\n" + b == a + c;
    UnixNewlinesAppend(a, c);
    UnixNewlinesPair(b);
    var u, v := UnixNewlines(a), UnixNewlines(b);
    assert u + ("\n" + v) == u + "\n" + v;
  }

  /** A CR that no LF follows becomes exactly one LF, whatever precedes it. */
  lemma UnixNewlinesCR(a: string, b: string)
    requires b == [] || b[0] != '\n'
    ensures UnixNewlines(a + "\r" + b) == UnixNewlines(a) + "\n" + UnixNewlines(b)
  {
    var c := ['\r'] + b;
    assert a + "\r" + b == a + c;
    UnixNewlinesAppend(a, c);
    UnixNewlinesLoneCR(b);
    var u, v := UnixNewlines(a), UnixNewlines(b);
    assert u + ("\n" + v) == u + "\n" + v;
  }

  /** The two separators: `SENTENCE_SPLIT`, `/(?<=[.!?])\s+|(?<=\n)\s*\/g`, and `TOKEN_SPLIT`,
      `/[^\p{L}\p{N}']+/u`. */
  datatype Separator = SentenceBreak | NonToken

  /** Length of the run of characters that are not token characters starting at `q`. */
  function NonTokenRun(s: string, q: nat): (n: nat)
    requires q <= |s|
    ensures q + n <= |s|
    ensures forall k :: q <= k < q + n ==> !IsTokenChar(s[k])
    decreases |s| - q
  {
    if q < |s| && !IsTokenChar(s[q]) then 1 + NonTokenRun(s, q + 1) else 0
  }

  /** Where a match of the separator attempted at `q` ends, if it matches there. Both sentence
      alternatives end after the whole whitespace run: `\s+` needs a `.`, `!` or `?` before `q`
      and at least one whitespace character, `\s*` needs an LF before `q`. */
  function SeparatorEnd(sep: Separator, s: string, q: nat): (r: Option<nat>)
    requires q <= |s|
    ensures r.Some? ==> q <= r.value <= |s|
    ensures sep == NonToken ==> (r.Some? <==> q < |s| && !IsTokenChar(s[q]))
  {
    match sep
    case SentenceBreak =>
      if q > 0 && ((s[q - 1] in ".!?" && SpaceRun(s, q) > 0) || s[q - 1] == '\n') then Some(q + SpaceRun(s, q))
      else None
    case NonToken =>
      if q < |s| && !IsTokenChar(s[q]) then Some(q + NonTokenRun(s, q)) else None
  }

  /** The pieces of `String.prototype.split` (the `@@split` loop of ECMAScript): `p` is where the
      current piece starts, `q` where the next match is attempted. A match ending at `e` closes the
      piece `[p, q)` unless it is empty at `p`, in which case the search moves one position on. */
  function SplitFrom(sep: Separator, s: string, p: nat, q: nat): (r: seq<Span>)
    requires p <= q <= |s|
    ensures Ordered(r, p, |s|)
    decreases |s| - q, if p < q then 1 else 0
  {
    if q == |s| then [Span(p, |s|)]
    else match SeparatorEnd(sep, s, q)
      case None => SplitFrom(sep, s, p, q + 1)
      case Some(e) =>
        if e == p then SplitFrom(sep, s, p, q + 1)
        else [Span(p, q)] + SplitFrom(sep, s, e, e)
  }

  /** `s.split(sep)`: the empty string gives no piece when the separator matches it, else itself. */
  function Split(sep: Separator, s: string): (r: seq<Span>)
    ensures Ordered(r, 0, |s|)
  {
    if s == [] then (if SeparatorEnd(sep, s, 0).Some? then [] else [Span(0, 0)])
    else SplitFrom(sep, s, 0, 0)
  }

  /** `.filter(Boolean)`: the non-empty strings, in order. */
  function NonEmpty(xs: seq<string>): (r: seq<string>)
    ensures |r| <= |xs|
  {
    if xs == [] then []
    else (if xs[0] == [] then [] else [xs[0]]) + NonEmpty(xs[1..])
  }

  /** What `filter(Boolean)` keeps is non-empty and comes from the list. */
  lemma {:induction false} NonEmptyKeeps(xs: seq<string>)
    ensures forall k :: 0 <= k < |NonEmpty(xs)| ==> NonEmpty(xs)[k] != [] && NonEmpty(xs)[k] in xs
  {
    if xs != [] {
      NonEmptyKeeps(xs[1..]);
      var h := if xs[0] == [] then [] else [xs[0]];
      forall k | 0 <= k < |NonEmpty(xs)|
        ensures NonEmpty(xs)[k] != [] && NonEmpty(xs)[k] in xs
      {
        if k >= |h| {
          assert NonEmpty(xs)[k] == NonEmpty(xs[1..])[k - |h|];
        }
      }
    }
  }

  lemma {:induction false} NonEmptyAppend(a: seq<string>, b: seq<string>)
    ensures NonEmpty(a + b) == NonEmpty(a) + NonEmpty(b)
  {
    if a == [] {
      assert a + b == b;
    } else {
      assert (a + b)[0] == a[0];
      assert (a + b)[1..] == a[1..] + b;
      NonEmptyAppend(a[1..], b);
    }
  }

  /** The pieces `s.split(sep).filter(Boolean)` keeps. */
  function Pieces(sep: Separator, s: string): seq<string> {
    NonEmpty(SpanTexts(s, Split(sep, s), 0))
  }

  /** `normalized`: line endings unified, then `trim`. */
  function Normalized(s: string): string {
    Trim(UnixNewlines(s))
  }

  datatype Preprocessed = Preprocessed(text: string, sentences: seq<string>, tokens: seq<string>)

  /** `preprocess`. */
  function Preprocess(s: string): Preprocessed {
    var text := Normalized(s);
    Preprocessed(text, Pieces(SentenceBreak, text), Pieces(NonToken, Lower(text)))
  }

  // The normalised text.

  /** A text without CR is left as it is. */
  lemma {:induction false} UnixNewlinesKeeps(s: string)
    requires '\r' !in s
    ensures UnixNewlines(s) == s
  {
    if s != [] {
      UnixNewlinesKeeps(s[1..]);
    }
  }

  /** A slice of a string without CR has none either. */
  lemma SliceNoCR(s: string, i: nat, j: nat)
    requires '\r' !in s && i <= j <= |s|
    ensures '\r' !in s[i..j]
  {
  }

  /** Normalising a normalised text changes nothing. */
  lemma NormalizedIdempotent(s: string)
    ensures '\r' !in Normalized(s)
    ensures Normalized(Normalized(s)) == Normalized(s)
  {
    var u := UnixNewlines(s);
    TrimShape(u);
    SliceNoCR(u, LeadingSpaces(u), LeadingSpaces(u) + |Trim(u)|);
    UnixNewlinesKeeps(Trim(u));
    TrimIdempotent(u);
  }

  /** The text holds no CR, has no whitespace at either end, and preprocessing it again gives the
      same result. */
  lemma NormalizedText(s: string)
    ensures '\r' !in Preprocess(s).text
    ensures var t := Preprocess(s).text; t == [] || (!IsSpace(t[0]) && !IsSpace(t[|t| - 1]))
    ensures Preprocess(Preprocess(s).text) == Preprocess(s)
  {
    NormalizedIdempotent(s);
    TrimShape(UnixNewlines(s));
    var t := Normalized(s);
    assert Preprocess(s).text == t;
    assert Preprocess(t).text == t;
  }

  /** Every CR is a whitespace character, and so is the LF it becomes. */
  lemma {:induction false} UnixNewlinesSpace(s: string)
    requires AllSpace(s)
    ensures AllSpace(UnixNewlines(s))
  {
    if s != [] {
      var rest := if |s| > 1 && s[1] == '\n' && s[0] == '\r' then s[2..] else s[1..];
      assert AllSpace(rest) by {
        forall k | 0 <= k < |rest|
          ensures IsSpace(rest[k])
        {
          assert rest[k] == s[k + |s| - |rest|];
        }
      }
      UnixNewlinesSpace(rest);
      var r := UnixNewlines(s);
      assert r == [if s[0] == '\r' then '\n' else s[0]] + UnixNewlines(rest);
      forall k | 0 <= k < |r|
        ensures IsSpace(r[k])
      {
        if k > 0 {
          assert r[k] == UnixNewlines(rest)[k - 1];
        }
      }
    }
  }

  /** The empty string and every whitespace-only string give text "", no sentence and no token. */
  lemma BlankInput(s: string)
    requires AllSpace(s)
    ensures Preprocess(s) == Preprocessed("", [], [])
  {
    UnixNewlinesSpace(s);
    TrimExact(UnixNewlines(s));
    assert Lower("") == "";
    assert SpanTexts("", [Span(0, 0)], 0) == [""];
  }

  // Sentences.

  /** No sentence is empty, and each is a piece of the normalised text. */
  lemma SentencesShape(s: string)
    ensures var p := Preprocess(s);
      forall k :: 0 <= k < |p.sentences| ==>
        p.sentences[k] != [] && p.sentences[k] in SpanTexts(p.text, Split(SentenceBreak, p.text), 0)
  {
    var t := Normalized(s);
    NonEmptyKeeps(SpanTexts(t, Split(SentenceBreak, t), 0));
  }

  /** Two non-empty pieces `[0, a)` and `[b, |s|)` are what `split` + `filter(Boolean)` return. */
  lemma TwoPieces(sep: Separator, s: string, a: nat, b: nat)
    requires 0 < a <= b < |s|
    requires Split(sep, s) == [Span(0, a), Span(b, |s|)]
    ensures Pieces(sep, s) == [s[..a], s[b..]]
  {
    var r := SpanTexts(s, [Span(0, a), Span(b, |s|)], 0);
    assert r[0] == s[0..a] == s[..a];
    assert r[1] == s[b..|s|] == s[b..];
    assert r[1..] == [s[b..]] && r[1..][1..] == [];
    calc {
      NonEmpty(r);
      [r[0]] + NonEmpty(r[1..]);
      [r[0]] + ([r[1]] + NonEmpty([]));
    }
  }

  /** Whitespace after a full stop separates two sentences and is dropped. */
  lemma SentenceAfterStop()
    ensures Pieces(SentenceBreak, "a. b") == ["a.", "b"]
  {
    var s := "a. b";
    assert Split(SentenceBreak, s) == [Span(0, 2), Span(3, 4)] by {
      assert SplitFrom(SentenceBreak, s, 3, 3) == [Span(3, 4)] by {
        assert SeparatorEnd(SentenceBreak, s, 3) == None;
        assert SplitFrom(SentenceBreak, s, 3, 4) == [Span(3, 4)];
      }
      assert SplitFrom(SentenceBreak, s, 0, 2) == [Span(0, 2), Span(3, 4)] by {
        assert SpaceRun(s, 2) == 1;
        assert SeparatorEnd(SentenceBreak, s, 2) == Some(3);
      }
      assert SeparatorEnd(SentenceBreak, s, 1) == None;
      assert SplitFrom(SentenceBreak, s, 0, 1) == [Span(0, 2), Span(3, 4)];
    }
    TwoPieces(SentenceBreak, s, 2, 3);
    assert s[..2] == "a." && s[3..] == "b";
  }

  /** After a line break the next sentence starts, but the break itself stays at the end of the
      sentence before it: the second alternative matches the empty string there. */
  lemma SentenceAfterLineBreak()
    ensures Pieces(SentenceBreak, "a\nb") == ["a\n", "b"]
  {
    var s := "a\nb";
    assert Split(SentenceBreak, s) == [Span(0, 2), Span(2, 3)] by {
      assert SplitFrom(SentenceBreak, s, 0, 2) == [Span(0, 2), Span(2, 3)] by {
        assert SpaceRun(s, 2) == 0;
        assert SeparatorEnd(SentenceBreak, s, 2) == Some(2);
        assert SplitFrom(SentenceBreak, s, 2, 3) == [Span(2, 3)];
        assert SplitFrom(SentenceBreak, s, 2, 2) == [Span(2, 3)];
      }
      assert SeparatorEnd(SentenceBreak, s, 1) == None;
      assert SplitFrom(SentenceBreak, s, 0, 1) == [Span(0, 2), Span(2, 3)];
    }
    TwoPieces(SentenceBreak, s, 2, 2);
    assert s[..2] == "a\n" && s[2..] == "b";
  }

  // Tokens: the maximal runs of token characters.

  /** Length of the run of token characters at the start of `s`. */
  function TokenPrefix(s: string): (n: nat)
    ensures n <= |s|
  {
    if s != [] && IsTokenChar(s[0]) then 1 + TokenPrefix(s[1..]) else 0
  }

  /** `TokenPrefix` counts the whole run of token characters at the start. */
  lemma {:induction false} TokenPrefixRun(s: string)
    ensures forall k :: 0 <= k < TokenPrefix(s) ==> IsTokenChar(s[k])
    ensures TokenPrefix(s) < |s| ==> !IsTokenChar(s[TokenPrefix(s)])
  {
    if s != [] && IsTokenChar(s[0]) {
      TokenPrefixRun(s[1..]);
    }
  }

  function Word(w: string): seq<string> {
    if w == [] then [] else [w]
  }

  /** The maximal runs of token characters of `s`, left to right: the run at the start (if any),
      then the runs after the first other character. */
  function Words(s: string): seq<string>
    decreases |s|
  {
    if s == [] then []
    else
      var n := TokenPrefix(s);
      Word(s[..n]) + (if n < |s| then Words(s[n + 1..]) else [])
  }

  predicate AllToken(s: string) {
    forall k :: 0 <= k < |s| ==> IsTokenChar(s[k])
  }

  /** Every word is non-empty and made of token characters found in `s`. */
  lemma {:induction false} WordsShape(s: string)
    ensures forall k :: 0 <= k < |Words(s)| ==> Words(s)[k] != [] && AllToken(Words(s)[k])
    ensures forall k, i :: 0 <= k < |Words(s)| && 0 <= i < |Words(s)[k]| ==> Words(s)[k][i] in s
    decreases |s|
  {
    if s != [] {
      var n := TokenPrefix(s);
      TokenPrefixRun(s);
      if n < |s| {
        WordsShape(s[n + 1..]);
        forall k, i | 0 <= k < |Words(s)| && 0 <= i < |Words(s)[k]|
          ensures Words(s)[k][i] in s
        {
          var w := Words(s);
          if k >= |Word(s[..n])| {
            var j := k - |Word(s[..n])|;
            assert w[k] == Words(s[n + 1..])[j];
            assert w[k][i] in s[n + 1..];
          } else {
            assert w[k][i] == s[i];
          }
        }
      } else {
        assert forall k, i :: 0 <= k < |Words(s)| && 0 <= i < |Words(s)[k]| ==> Words(s)[k][i] == s[i];
      }
    }
  }

  /** A character that is not a token character separates the words before it from those after. */
  lemma {:induction false} WordsSplit(x: string, c: char, y: string)
    requires !IsTokenChar(c)
    ensures Words(x + [c] + y) == Words(x) + Words(y)
    decreases |x|, 1
  {
    SplitPrefix(x, c, y);
    if TokenPrefix(x) == |x| {
      WordsSplitEnd(x, c, y);
    } else {
      WordsSplitMid(x, c, y);
    }
  }

  /** The token run at the start of `x + [c] + y` is that of `x`. */
  lemma SplitPrefix(x: string, c: char, y: string)
    requires !IsTokenChar(c)
    ensures TokenPrefix(x + [c] + y) == TokenPrefix(x)
  {
    var s := x + [c] + y;
    var n := TokenPrefix(x);
    TokenPrefixRun(x);
    forall k | 0 <= k < n
      ensures IsTokenChar(s[k])
    {
      assert s[k] == x[k];
    }
    assert !IsTokenChar(s[n]) by {
      if n < |x| {
        assert s[n] == x[n];
      } else {
        assert s[n] == c;
      }
    }
    TokenPrefixAt(s, n);
  }

  lemma WordsSplitEnd(x: string, c: char, y: string)
    requires !IsTokenChar(c) && TokenPrefix(x + [c] + y) == TokenPrefix(x) == |x|
    ensures Words(x + [c] + y) == Words(x) + Words(y)
  {
    ConsParts(x, c, y);
    calc {
      Words(x + [c] + y);
    == { WordsUnfold(x + [c] + y); }
      Word(x) + Words(y);
    == { WordsUnfold(x); }
      Words(x) + Words(y);
    }
  }

  lemma ConsParts<T>(x: seq<T>, c: T, y: seq<T>)
    ensures (x + [c] + y)[..|x|] == x && (x + [c] + y)[|x| + 1..] == y && x[..|x|] == x
  {
  }

  lemma {:induction false} WordsSplitMid(x: string, c: char, y: string)
    requires !IsTokenChar(c) && TokenPrefix(x + [c] + y) == TokenPrefix(x) < |x|
    ensures Words(x + [c] + y) == Words(x) + Words(y)
    decreases |x|, 0
  {
    var s := x + [c] + y;
    var n := TokenPrefix(x);
    calc {
      Words(s);
    == { WordsUnfold(s); }
      Word(s[..n]) + Words(s[n + 1..]);
    == { assert s[..n] == x[..n]; assert s[n + 1..] == x[n + 1..] + [c] + y; }
      Word(x[..n]) + Words(x[n + 1..] + [c] + y);
    == { WordsSplit(x[n + 1..], c, y); }
      Word(x[..n]) + (Words(x[n + 1..]) + Words(y));
    ==
      (Word(x[..n]) + Words(x[n + 1..])) + Words(y);
    == { WordsUnfold(x); }
      Words(x) + Words(y);
    }
  }

  /** The words of `s`: the run at its start, then those after the character that ends it. */
  lemma WordsUnfold(s: string)
    ensures var n := TokenPrefix(s);
      Words(s) == Word(s[..n]) + (if n < |s| then Words(s[n + 1..]) else [])
  {
  }

  /** The token run of `s` ends at `n` when token characters lead up to a non-token at `n`. */
  lemma {:induction false} TokenPrefixAt(s: string, n: nat)
    requires n < |s| && !IsTokenChar(s[n]) && forall k :: 0 <= k < n ==> IsTokenChar(s[k])
    ensures TokenPrefix(s) == n
    decreases n
  {
    if n > 0 {
      TokenPrefixAt(s[1..], n - 1);
    }
  }

  /** Non-token characters in front add no word. */
  lemma NonTokenFront(c: char, y: string)
    requires !IsTokenChar(c)
    ensures Words([c] + y) == Words(y)
  {
    WordsSplit([], c, y);
    assert [] + [c] + y == [c] + y;
  }

  predicate NoToken(s: string) {
    forall k :: 0 <= k < |s| ==> !IsTokenChar(s[k])
  }

  lemma {:induction false} NonTokensFront(a: string, z: string)
    requires NoToken(a)
    ensures Words(a + z) == Words(z)
    decreases |a|
  {
    if a == [] {
      assert a + z == z;
    } else {
      calc {
        Words(a + z);
      == { assert a + z == [a[0]] + (a[1..] + z); }
        Words([a[0]] + (a[1..] + z));
      == { NonTokenFront(a[0], a[1..] + z); }
        Words(a[1..] + z);
      == { NonTokensFront(a[1..], z); }
        Words(z);
      }
    }
  }

  lemma {:induction false} NonTokensBack(z: string, b: string)
    requires NoToken(b)
    ensures Words(z + b) == Words(z)
    decreases |b|
  {
    if b == [] {
      assert z + b == z;
    } else {
      var b' := b[..|b| - 1];
      calc {
        Words(z + b);
      == { assert z + b == (z + b') + [b[|b| - 1]] + []; }
        Words((z + b') + [b[|b| - 1]] + []);
      == { WordsSplit(z + b', b[|b| - 1], []); }
        Words(z + b') + Words([]);
      == { NonTokensBack(z, b'); }
        Words(z);
      }
    }
  }

  /** A piece of `s.split(NonToken)` that started at `p` and has been searched up to `q`, where
      everything in between is a token character, comes out as the words from `p` on. */
  lemma {:induction false} SplitWords(s: string, p: nat, q: nat)
    requires p <= q <= |s| && forall k :: p <= k < q ==> IsTokenChar(s[k])
    ensures NonEmpty(SpanTexts(s, SplitFrom(NonToken, s, p, q), p)) == Words(s[p..])
    decreases |s| - q, 1
  {
    if q == |s| {
      SplitWordsLast(s, p);
    } else if IsTokenChar(s[q]) {
      SplitWords(s, p, q + 1);
    } else {
      SplitWordsBreak(s, p, q);
    }
  }

  /** The last piece, all token characters, is one word or none. */
  lemma SplitWordsLast(s: string, p: nat)
    requires p <= |s| && forall k :: p <= k < |s| ==> IsTokenChar(s[k])
    ensures NonEmpty(SpanTexts(s, SplitFrom(NonToken, s, p, |s|), p)) == Words(s[p..])
  {
    assert SplitFrom(NonToken, s, p, |s|) == [Span(p, |s|)];
    LastPiece(s, p);
    TokenSlice(s, p, |s|);
    assert s[p..|s|] == s[p..];
    WordOfRun(s[p..]);
  }

  lemma LastPiece(s: string, p: nat)
    requires p <= |s|
    ensures NonEmpty(SpanTexts(s, [Span(p, |s|)], p)) == Word(s[p..])
  {
    var r := SpanTexts(s, [Span(p, |s|)], p);
    assert |r| == 1 && r[0] == s[p..];
    assert r == [s[p..]] && r[1..] == [];
  }

  lemma {:induction false} TokenPrefixAll(t: string)
    requires AllToken(t)
    ensures TokenPrefix(t) == |t|
  {
    if t != [] {
      TokenPrefixAll(t[1..]);
    }
  }

  /** The texts of a piece followed by further pieces. */
  lemma SpanTextsCons(s: string, p: nat, q: nat, e: nat, rest: seq<Span>)
    requires p <= q <= e <= |s| && Ordered(rest, e, |s|)
    ensures SpanTexts(s, [Span(p, q)] + rest, p) == [s[p..q]] + SpanTexts(s, rest, e)
  {
    var sp := [Span(p, q)] + rest;
    assert sp[1..] == rest;
    var a, b := SpanTexts(s, rest, q), SpanTexts(s, rest, e);
    assert a == b;
  }

  /** A separator run at `q` closes the piece `[p, q)` and the next piece starts after it. */
  lemma {:induction false} SplitWordsBreak(s: string, p: nat, q: nat)
    requires p <= q < |s| && !IsTokenChar(s[q]) && forall k :: p <= k < q ==> IsTokenChar(s[k])
    ensures NonEmpty(SpanTexts(s, SplitFrom(NonToken, s, p, q), p)) == Words(s[p..])
    decreases |s| - q, 0
  {
    var e := q + NonTokenRun(s, q);
    var rest := NonEmpty(SpanTexts(s, SplitFrom(NonToken, s, e, e), e));
    calc {
      NonEmpty(SpanTexts(s, SplitFrom(NonToken, s, p, q), p));
    == { BreakTexts(s, p, q, e); }
      Word(s[p..q]) + rest;
    == { SplitWords(s, e, e); }
      Word(s[p..q]) + Words(s[e..]);
    == { BreakWords(s, p, q, e); }
      Words(s[p..]);
    }
  }

  /** The pieces after a separator run at `q`: the piece `[p, q)`, then those from its end. */
  lemma BreakTexts(s: string, p: nat, q: nat, e: nat)
    requires p <= q < |s| && !IsTokenChar(s[q]) && e == q + NonTokenRun(s, q)
    ensures NonEmpty(SpanTexts(s, SplitFrom(NonToken, s, p, q), p)) ==
      Word(s[p..q]) + NonEmpty(SpanTexts(s, SplitFrom(NonToken, s, e, e), e))
  {
    var rest := SplitFrom(NonToken, s, e, e);
    SplitFromBreak(s, p, q, e);
    SpanTextsCons(s, p, q, e, rest);
    NonEmptyCons(s[p..q], SpanTexts(s, rest, e));
  }

  /** The split at a separator run: the piece before it, then a new search after it. */
  lemma SplitFromBreak(s: string, p: nat, q: nat, e: nat)
    requires p <= q < |s| && !IsTokenChar(s[q]) && e == q + NonTokenRun(s, q)
    ensures p <= q < e <= |s|
    ensures SplitFrom(NonToken, s, p, q) == [Span(p, q)] + SplitFrom(NonToken, s, e, e)
  {
  }

  lemma NonEmptyCons(x: string, rest: seq<string>)
    ensures NonEmpty([x] + rest) == Word(x) + NonEmpty(rest)
  {
    assert ([x] + rest)[0] == x && ([x] + rest)[1..] == rest;
  }

  /** The words from `p` on: the run `[p, q)`, then the words after the separator run `[q, e)`. */
  lemma BreakWords(s: string, p: nat, q: nat, e: nat)
    requires p <= q < e <= |s| && forall k :: p <= k < q ==> IsTokenChar(s[k])
    requires forall k :: q <= k < e ==> !IsTokenChar(s[k])
    ensures Word(s[p..q]) + Words(s[e..]) == Words(s[p..])
  {
    TokenSlice(s, p, q);
    NoTokenSlice(s, q + 1, e);
    SliceFour(s, p, q, e);
    BreakWordsOf(s[p..q], s[q], s[q + 1..e], s[e..]);
  }

  lemma SliceFour<T>(s: seq<T>, p: nat, q: nat, e: nat)
    requires p <= q < e <= |s|
    ensures s[p..] == s[p..q] + [s[q]] + s[q + 1..e] + s[e..]
  {
  }

  /** A run of token characters, a separator, more separators, then the rest. */
  lemma BreakWordsOf(x: string, c: char, m: string, z: string)
    requires AllToken(x) && !IsTokenChar(c) && NoToken(m)
    ensures Words(x + [c] + m + z) == Word(x) + Words(z)
  {
    calc {
      Words(x + [c] + m + z);
    == { Assoc(x + [c], m, z); }
      Words(x + [c] + (m + z));
    == { WordsSplit(x, c, m + z); }
      Words(x) + Words(m + z);
    == { WordOfRun(x); NonTokensFront(m, z); }
      Word(x) + Words(z);
    }
  }

  lemma TokenSlice(s: string, i: nat, j: nat)
    requires i <= j <= |s| && forall k :: i <= k < j ==> IsTokenChar(s[k])
    ensures AllToken(s[i..j])
  {
    forall k | 0 <= k < j - i
      ensures IsTokenChar(s[i..j][k])
    {
      assert s[i..j][k] == s[i + k];
    }
  }

  lemma NoTokenSlice(s: string, i: nat, j: nat)
    requires i <= j <= |s| && forall k :: i <= k < j ==> !IsTokenChar(s[k])
    ensures NoToken(s[i..j])
  {
    forall k | 0 <= k < j - i
      ensures !IsTokenChar(s[i..j][k])
    {
      assert s[i..j][k] == s[i + k];
    }
  }

  lemma SliceThree<T>(s: seq<T>, i: nat, j: nat)
    requires i <= j <= |s|
    ensures s == s[..i] + s[i..j] + s[j..]
  {
  }

  lemma Assoc<T>(a: seq<T>, b: seq<T>, c: seq<T>)
    ensures a + b + c == a + (b + c)
  {
  }

  lemma WordOfRun(t: string)
    requires AllToken(t)
    ensures Words(t) == Word(t)
  {
    if t != [] {
      TokenPrefixAll(t);
      WordsUnfold(t);
      assert t[..|t|] == t;
    }
  }

  /** `split(NonToken).filter(Boolean)` gives exactly the maximal runs of token characters. */
  lemma PiecesAreWords(s: string)
    ensures Pieces(NonToken, s) == Words(s)
  {
    if s == [] {
      assert SpanTexts(s, [Span(0, 0)], 0) == [""];
    } else {
      SplitWords(s, 0, 0);
      assert s[0..] == s;
    }
  }

  /** Every token is non-empty, lowercase and made of letters, digits and apostrophes; the tokens
      are the maximal such runs of the lowercased text, left to right. */
  lemma TokensShape(s: string)
    ensures var p := Preprocess(s);
      p.tokens == Words(Lower(p.text)) &&
      forall k :: 0 <= k < |p.tokens| ==>
        p.tokens[k] != [] && AllToken(p.tokens[k]) && forall i :: 0 <= i < |p.tokens[k]| ==> !IsUpper(p.tokens[k][i])
  {
    var l := Lower(Normalized(s));
    PiecesAreWords(l);
    WordsShape(l);
  }

  // Tokens depend only on the token characters: the normalisation does not change them.

  /** Lowercasing and the line-ending rewrite commute. */
  lemma {:induction false} LowerUnix(s: string)
    ensures Lower(UnixNewlines(s)) == UnixNewlines(Lower(s))
    decreases |s|
  {
    if s == [] {
    } else if s[0] == '\r' {
      LowerUnixCR(s);
    } else {
      LowerUnixOther(s);
    }
  }

  lemma {:induction false} LowerUnixCR(s: string)
    requires s != [] && s[0] == '\r'
    ensures Lower(UnixNewlines(s)) == UnixNewlines(Lower(s))
    decreases |s|, 0
  {
    var crlf := |s| > 1 && s[1] == '\n';
    var rest := if crlf then s[2..] else s[1..];
    var l := Lower(s);
    assert l[0] == '\r';
    assert |l| > 1 && l[1] == '\n' <==> crlf by {
      if |s| > 1 {
        assert l[1] == LowerChar(s[1]);
      }
    }
    assert Lower(rest) == (if crlf then l[2..] else l[1..]) by {
      LowerSlice(s, if crlf then 2 else 1, |s|);
    }
    calc {
      UnixNewlines(l);
      "\n" + UnixNewlines(Lower(rest));
    == { LowerUnix(rest); }
      "\n" + Lower(UnixNewlines(rest));
    == { LowerAppend("\n", UnixNewlines(rest)); assert Lower("\n") == "\n"; }
      Lower("\n" + UnixNewlines(rest));
      Lower(UnixNewlines(s));
    }
  }

  lemma {:induction false} LowerUnixOther(s: string)
    requires s != [] && s[0] != '\r'
    ensures Lower(UnixNewlines(s)) == UnixNewlines(Lower(s))
    decreases |s|, 0
  {
    var l := Lower(s);
    assert l[0] != '\r' && l[0] == LowerChar(s[0]);
    assert Lower(s[1..]) == l[1..] by {
      LowerSlice(s, 1, |s|);
    }
    calc {
      UnixNewlines(l);
      [l[0]] + UnixNewlines(Lower(s[1..]));
    == { LowerUnix(s[1..]); }
      [l[0]] + Lower(UnixNewlines(s[1..]));
    == { LowerAppend([s[0]], UnixNewlines(s[1..])); assert Lower([s[0]]) == [l[0]]; }
      Lower([s[0]] + UnixNewlines(s[1..]));
      Lower(UnixNewlines(s));
    }
  }

  /** Rewriting line endings changes no word: CR and LF are both separators. */
  lemma {:induction false} UnixWords(x: string, y: string)
    ensures Words(x + UnixNewlines(y)) == Words(x + y)
    decreases |y|, 1
  {
    if y == [] {
    } else if y[0] == '\r' {
      UnixWordsCR(x, y);
    } else {
      calc {
        Words(x + UnixNewlines(y));
      == { assert x + UnixNewlines(y) == (x + [y[0]]) + UnixNewlines(y[1..]); }
        Words((x + [y[0]]) + UnixNewlines(y[1..]));
      == { UnixWords(x + [y[0]], y[1..]); }
        Words((x + [y[0]]) + y[1..]);
      == { assert (x + [y[0]]) + y[1..] == x + y; }
        Words(x + y);
      }
    }
  }

  lemma {:induction false} UnixWordsCR(x: string, y: string)
    requires y != [] && y[0] == '\r'
    ensures Words(x + UnixNewlines(y)) == Words(x + y)
    decreases |y|, 0
  {
    var crlf := |y| > 1 && y[1] == '\n';
    var rest := if crlf then y[2..] else y[1..];
    calc {
      Words(x + UnixNewlines(y));
    == { assert UnixNewlines(y) == ['\n'] + UnixNewlines(rest); Assoc(x, ['\n'], UnixNewlines(rest)); }
      Words(x + ['\n'] + UnixNewlines(rest));
    == { WordsSplit(x, '\n', UnixNewlines(rest)); }
      Words(x) + Words(UnixNewlines(rest));
    == { UnixWords([], rest); assert [] + UnixNewlines(rest) == UnixNewlines(rest) && [] + rest == rest; }
      Words(x) + Words(rest);
    == { CRLFWords(y); }
      Words(x) + Words(y[1..]);
    == { WordsSplit(x, '\r', y[1..]); assert y == ['\r'] + y[1..]; Assoc(x, ['\r'], y[1..]); }
      Words(x + y);
    }
  }

  /** The LF of a CRLF is a separator. */
  lemma CRLFWords(y: string)
    requires |y| > 0
    ensures Words(y[1..]) == Words(if |y| > 1 && y[1] == '\n' then y[2..] else y[1..])
  {
    if |y| > 1 && y[1] == '\n' {
      assert y[1..] == ['\n'] + y[2..];
      NonTokenFront('\n', y[2..]);
    }
  }

  /** The whitespace `trim` removes from the end of `u`. */
  lemma TrimTail(u: string)
    ensures var a, n := LeadingSpaces(u), |Trim(u)|;
      a + n <= |u| && u == u[..a] + Trim(u) + u[a + n..] && AllSpace(u[..a]) && AllSpace(u[a + n..])
  {
    var a, n := LeadingSpaces(u), |Trim(u)|;
    TrimShape(u);
    LeadingSpacesRun(u);
    TrailingTail(u, a, n);
    SliceThree(u, a, a + n);
  }

  lemma TrailingTail(u: string, a: nat, n: nat)
    requires a == LeadingSpaces(u) && n == |Trim(u)| && a + n <= |u|
    ensures AllSpace(u[a + n..])
  {
    var t := u[a..];
    TrailingSpacesRun(t);
    assert |t| - TrailingSpaces(t) == n;
    forall k | a + n <= k < |u|
      ensures IsSpace(u[k])
    {
      assert u[k] == t[k - a];
    }
  }

  /** Trimming removes only separators, so it changes no word. */
  lemma TrimWords(u: string)
    ensures Words(Lower(Trim(u))) == Words(Lower(u))
  {
    var a, n := LeadingSpaces(u), |Trim(u)|;
    TrimTail(u);
    var front, back := u[..a], u[a + n..];
    SpacesNoToken(front);
    SpacesNoToken(back);
    calc {
      Words(Lower(u));
    == { LowerAppend(front + Trim(u), back); LowerAppend(front, Trim(u)); Assoc(Lower(front), Lower(Trim(u)), Lower(back)); }
      Words(Lower(front) + (Lower(Trim(u)) + Lower(back)));
    == { NonTokensFront(Lower(front), Lower(Trim(u)) + Lower(back)); }
      Words(Lower(Trim(u)) + Lower(back));
    == { NonTokensBack(Lower(Trim(u)), Lower(back)); }
      Words(Lower(Trim(u)));
    }
  }

  lemma SpacesNoToken(s: string)
    requires AllSpace(s)
    ensures NoToken(Lower(s))
  {
  }

  /** The tokens of a text are the maximal token runs of the raw input lowercased: normalising
      line endings and trimming only removes or changes separators. */
  lemma TokensOfRaw(s: string)
    ensures Preprocess(s).tokens == Words(Lower(s))
  {
    var u := UnixNewlines(s);
    calc {
      Preprocess(s).tokens;
    == { TokensShape(s); }
      Words(Lower(Trim(u)));
    == { TrimWords(u); }
      Words(Lower(u));
    == { LowerUnix(s); }
      Words(UnixNewlines(Lower(s)));
    == { UnixWords([], Lower(s)); assert [] + UnixNewlines(Lower(s)) == UnixNewlines(Lower(s)) && [] + Lower(s) == Lower(s); }
      Words(Lower(s));
    }
  }
}
