/** The part of JavaScript's regular-expression engine the analyser relies on, for the patterns it
    builds: literal words matched case-insensitively (flag `i`, no `u`), the whitespace gaps `\s?`
    and `\s+`, greedy optional groups, an ordered alternation, and `\b` at either end. Candidate
    end positions are listed in the order the backtracking engine tries them, so the first one the
    final `\b` accepts is the match the engine reports. The global flag `g` is the scan of
    `ScanFrom`, which restarts after each match and steps over an empty one. */
module Regex {
  import opened Chars
  import opened Wrappers

  /** What precedes a literal: nothing, `\s?` or `\s+`. */
  datatype Gap = NoGap | OptSpace | Spaces

  /** A gap followed by a literal; `optional` makes the whole piece a greedy `(...)?` group. */
  datatype Piece = Piece(gap: Gap, lit: string, optional: bool)

  /** `\b`? `(alt1|alt2|...)` tail `\b`? */
  datatype Pattern = Pattern(lead: bool, alts: seq<seq<Piece>>, tail: seq<Piece>, trail: bool)

  /** A match: the text between `start` and `end`. */
  datatype Span = Span(start: nat, end: nat)

  /** What `String.prototype.replace` inserts for each match: a replacement string, in which `$`
      sequences are expanded, or the constant result of a replacer callback. */
  datatype Replacement = Template(text: string) | Callback(text: string)

  /** The literal occurs at `pos`, ignoring ASCII case. */
  predicate LitAt(text: string, pos: nat, lit: string) {
    pos + |lit| <= |text| && Lower(text[pos..pos + |lit|]) == Lower(lit)
  }

  /** The literal occurs somewhere in the text, ignoring ASCII case. */
  predicate OccursIn(text: string, lit: string) {
    exists p: nat | p <= |text| :: LitAt(text, p, lit)
  }

  /** `\b`: a word character on exactly one side of position `i`. */
  predicate Boundary(text: string, i: nat)
    requires i <= |text|
  {
    (i > 0 && IsWordChar(text[i - 1])) != (i < |text| && IsWordChar(text[i]))
  }

  /** Length of the run of whitespace starting at `pos`. */
  function SpaceRun(text: string, pos: nat): (n: nat)
    requires pos <= |text|
    ensures pos + n <= |text|
    ensures forall k :: pos <= k < pos + n ==> IsSpace(text[k])
    ensures pos + n < |text| ==> !IsSpace(text[pos + n])
    decreases |text| - pos
  {
    if pos < |text| && IsSpace(text[pos]) then 1 + SpaceRun(text, pos + 1) else 0
  }

  /** `[hi, hi - 1, ..., lo]`. */
  function CountDown(hi: nat, lo: nat): (r: seq<nat>)
    requires lo <= hi
    ensures |r| == hi - lo + 1
    ensures forall k :: 0 <= k < |r| ==> r[k] == hi - k
    decreases hi - lo
  {
    if hi == lo then [hi] else [hi] + CountDown(hi - 1, lo)
  }

  /** Where a gap can end, greedy choices first. */
  function GapEnds(text: string, pos: nat, g: Gap): (r: seq<nat>)
    requires pos <= |text|
    ensures forall k :: 0 <= k < |r| ==> pos <= r[k] <= |text|
  {
    match g
    case NoGap => [pos]
    case OptSpace => if pos < |text| && IsSpace(text[pos]) then [pos + 1, pos] else [pos]
    case Spaces =>
      var n := SpaceRun(text, pos);
      if n == 0 then [] else CountDown(pos + n, pos + 1)
  }

  /** For each gap end in order, the end of the literal when it occurs there. */
  function AfterLit(text: string, gs: seq<nat>, lit: string, lo: nat): (r: seq<nat>)
    requires forall k :: 0 <= k < |gs| ==> lo <= gs[k] <= |text|
    ensures forall k :: 0 <= k < |r| ==> lo + |lit| <= r[k] <= |text|
  {
    if gs == [] then []
    else
      var rest := AfterLit(text, gs[1..], lit, lo);
      if LitAt(text, gs[0], lit) then [gs[0] + |lit|] + rest else rest
  }

  /** Where a piece can end, in the order the engine tries them (a greedy optional piece is
      tried present, then absent). */
  function PieceEnds(text: string, pos: nat, p: Piece): (r: seq<nat>)
    requires pos <= |text|
    ensures forall k :: 0 <= k < |r| ==> pos <= r[k] <= |text|
  {
    AfterLit(text, GapEnds(text, pos, p.gap), p.lit, pos) + (if p.optional then [pos] else [])
  }

  /** Where a sequence of pieces can end, in backtracking order. */
  function SeqEnds(text: string, pos: nat, ps: seq<Piece>): (r: seq<nat>)
    requires pos <= |text|
    ensures forall k :: 0 <= k < |r| ==> pos <= r[k] <= |text|
    decreases |ps|, 0
  {
    if ps == [] then [pos]
    else SeqEndsFrom(text, PieceEnds(text, pos, ps[0]), ps[1..], pos)
  }

  /** `SeqEnds` from each of the positions `es`, in order. */
  function SeqEndsFrom(text: string, es: seq<nat>, ps: seq<Piece>, lo: nat): (r: seq<nat>)
    requires forall k :: 0 <= k < |es| ==> lo <= es[k] <= |text|
    ensures forall k :: 0 <= k < |r| ==> lo <= r[k] <= |text|
    decreases |ps|, 1, |es|
  {
    if es == [] then []
    else SeqEnds(text, es[0], ps) + SeqEndsFrom(text, es[1..], ps, lo)
  }

  /** Candidate ends of `(alt1|alt2|...)tail`: every way through the first alternative before any
      way through the second. */
  function AltEnds(text: string, pos: nat, alts: seq<seq<Piece>>, tail: seq<Piece>): (r: seq<nat>)
    requires pos <= |text|
    ensures forall k :: 0 <= k < |r| ==> pos <= r[k] <= |text|
  {
    if alts == [] then []
    else SeqEnds(text, pos, alts[0] + tail) + AltEnds(text, pos, alts[1..], tail)
  }

  /** The first candidate end that the final `\b` (if any) accepts. */
  function FirstAccepted(text: string, es: seq<nat>, trail: bool): (r: Option<nat>)
    requires forall k :: 0 <= k < |es| ==> es[k] <= |text|
    ensures r.Some? ==> r.value in es && (trail ==> Boundary(text, r.value))
    ensures r.None? ==> forall k :: 0 <= k < |es| ==> trail && !Boundary(text, es[k])
  {
    if es == [] then None
    else if !trail || Boundary(text, es[0]) then Some(es[0])
    else FirstAccepted(text, es[1..], trail)
  }

  /** The end of the match the engine reports when it starts at `pos`, if there is one. */
  function MatchAt(text: string, pos: nat, pat: Pattern): (r: Option<nat>)
    requires pos <= |text|
    ensures r.Some? ==> pos <= r.value <= |text|
    ensures r.Some? ==> (pat.lead ==> Boundary(text, pos)) && (pat.trail ==> Boundary(text, r.value))
    ensures r.Some? ==> r.value in AltEnds(text, pos, pat.alts, pat.tail)
  {
    if pat.lead && !Boundary(text, pos) then None
    else FirstAccepted(text, AltEnds(text, pos, pat.alts, pat.tail), pat.trail)
  }

  /** Spans lie left to right inside `[from, n]` without overlapping. */
  predicate Ordered(spans: seq<Span>, from: nat, n: nat)
    decreases |spans|
  {
    spans == [] ||
    (from <= spans[0].start <= spans[0].end <= n && Ordered(spans[1..], spans[0].end, n))
  }

  /** The matches of a global regular expression from position `pos` on (the `lastIndex` loop of
      `String.prototype.match` and `replace`): after a match the search resumes at its end, after
      an empty match one position further. */
  function ScanFrom(text: string, pat: Pattern, pos: nat): (r: seq<Span>)
    ensures Ordered(r, pos, |text|)
    ensures forall k :: 0 <= k < |r| ==> r[k].start <= |text| && MatchAt(text, r[k].start, pat) == Some(r[k].end)
    decreases |text| + 1 - pos
  {
    if pos > |text| then []
    else match MatchAt(text, pos, pat)
      case None => ScanFrom(text, pat, pos + 1)
      case Some(e) => [Span(pos, e)] + ScanFrom(text, pat, if e == pos then pos + 1 else e)
  }

  function SpanTexts(text: string, spans: seq<Span>, from: nat): (r: seq<string>)
    requires Ordered(spans, from, |text|)
    ensures |r| == |spans|
    ensures forall k :: 0 <= k < |spans| ==>
      spans[k].start <= spans[k].end <= |text| && r[k] == text[spans[k].start..spans[k].end]
    decreases |spans|
  {
    if spans == [] then [] else [text[spans[0].start..spans[0].end]] + SpanTexts(text, spans[1..], spans[0].end)
  }

  /** `text.match(re)` for a global `re`, with `null` as the empty list. */
  function Matches(text: string, pat: Pattern): (r: seq<string>)
  {
    SpanTexts(text, ScanFrom(text, pat, 0), 0)
  }

  /** `GetSubstitution` for a regular expression without capture groups: `$$`, `$&`, `` $` `` and
      `$'` are expanded, every other `$` stays as it is. */
  function Expand(template: string, matched: string, before: string, after: string): (r: string)
    ensures '$' !in template ==> r == template
  {
    if template == [] then []
    else if template[0] == '$' && |template| >= 2 && template[1] in "$&`'" then
      var piece := match template[1]
        case '$' => "$"
        case '&' => matched
        case '`' => before
        case _ => after;
      piece + Expand(template[2..], matched, before, after)
    else [template[0]] + Expand(template[1..], matched, before, after)
  }

  function ReplacementFor(text: string, s: Span, repl: Replacement): string
    requires s.start <= s.end <= |text|
  {
    match repl
    case Callback(t) => t
    case Template(t) => Expand(t, text[s.start..s.end], text[..s.start], text[s.end..])
  }

  /** The text with each span replaced, the text between spans kept. */
  function Rebuild(text: string, spans: seq<Span>, from: nat, repl: Replacement): (r: string)
    requires from <= |text|
    requires Ordered(spans, from, |text|)
    ensures spans == [] ==> r == text[from..]
    decreases |spans|
  {
    if spans == [] then text[from..]
    else text[from..spans[0].start] + ReplacementFor(text, spans[0], repl)
         + Rebuild(text, spans[1..], spans[0].end, repl)
  }

  /** `text.replace(re, repl)` for a global `re`. */
  function Replace(text: string, pat: Pattern, repl: Replacement): (r: string)
    ensures ScanFrom(text, pat, 0) == [] ==> r == text
  {
    Rebuild(text, ScanFrom(text, pat, 0), 0, repl)
  }

  /** `new RegExp(escaped(lit), "gi")`: the literal itself, anywhere. */
  function Literal(lit: string): Pattern {
    Pattern(false, [[Piece(NoGap, lit, false)]], [], false)
  }

  /** Every alternative starts with a literal that must be present and is not empty, so no match
      is empty. */
  predicate WellFormed(pat: Pattern) {
    forall i :: 0 <= i < |pat.alts| ==>
      pat.alts[i] != [] && !pat.alts[i][0].optional && pat.alts[i][0].lit != []
  }

  lemma LiteralMatchAt(text: string, pos: nat, lit: string)
    requires pos <= |text|
    ensures MatchAt(text, pos, Literal(lit)) == if LitAt(text, pos, lit) then Some(pos + |lit|) else None
  {
    var p := Piece(NoGap, lit, false);
    assert [p] + [] == [p];
    assert GapEnds(text, pos, NoGap) == [pos];
    assert [pos][1..] == [];
    assert AfterLit(text, [pos][1..], lit, pos) == [];
    var es := PieceEnds(text, pos, p);
    assert es == AfterLit(text, [pos], lit, pos);
    assert es == if LitAt(text, pos, lit) then [pos + |lit|] else [];
    SeqEndsFromNoPieces(text, es, pos);
    assert AltEnds(text, pos, [[p]], []) == SeqEnds(text, pos, [p]) == es;
  }

  lemma SeqEndsFromNoPieces(text: string, es: seq<nat>, lo: nat)
    requires forall k :: 0 <= k < |es| ==> lo <= es[k] <= |text|
    ensures SeqEndsFrom(text, es, [], lo) == es
  {
    if es != [] {
      SeqEndsFromNoPieces(text, es[1..], lo);
    }
  }

  /** Each end `AfterLit` reports follows an occurrence of the literal. */
  lemma {:induction false} AfterLitOccurs(text: string, gs: seq<nat>, lit: string, lo: nat, k: nat)
    requires forall i :: 0 <= i < |gs| ==> lo <= gs[i] <= |text|
    requires k < |AfterLit(text, gs, lit, lo)|
    ensures LitAt(text, AfterLit(text, gs, lit, lo)[k] - |lit|, lit)
  {
    var j := AfterLitShift(text, gs, lit, lo, k);
    if j >= 0 {
      AfterLitOccurs(text, gs[1..], lit, lo, j);
    }
  }

  /** The `k`-th end either comes from the first starting point, where the literal then occurs,
      or is the `j`-th end of the remaining starting points. */
  lemma AfterLitShift(text: string, gs: seq<nat>, lit: string, lo: nat, k: nat) returns (j: int)
    requires forall i :: 0 <= i < |gs| ==> lo <= gs[i] <= |text|
    requires k < |AfterLit(text, gs, lit, lo)|
    ensures gs != []
    ensures j < 0 ==> AfterLit(text, gs, lit, lo)[k] - |lit| == gs[0] && LitAt(text, gs[0], lit)
    ensures j >= 0 ==> j < |AfterLit(text, gs[1..], lit, lo)| && AfterLit(text, gs, lit, lo)[k] == AfterLit(text, gs[1..], lit, lo)[j]
  {
    var r := AfterLit(text, gs, lit, lo);
    var rest := AfterLit(text, gs[1..], lit, lo);
    if LitAt(text, gs[0], lit) {
      assert r == [gs[0] + |lit|] + rest;
      j := k - 1;
    } else {
      assert r == rest;
      j := k;
    }
  }

  /** An end reached from a list of starting points is reached from one of them. */
  lemma {:induction false} SeqEndsFromMember(text: string, es: seq<nat>, ps: seq<Piece>, lo: nat, e: nat)
    requires forall k :: 0 <= k < |es| ==> lo <= es[k] <= |text|
    requires e in SeqEndsFrom(text, es, ps, lo)
    ensures exists k :: 0 <= k < |es| && e in SeqEnds(text, es[k], ps)
    decreases |es|
  {
    if e !in SeqEnds(text, es[0], ps) {
      SeqEndsFromMember(text, es[1..], ps, lo, e);
      var k :| 0 <= k < |es[1..]| && e in SeqEnds(text, es[1..][k], ps);
      assert e in SeqEnds(text, es[k + 1], ps);
    }
  }

  /** An end of an alternation is an end of one of its alternatives. */
  lemma {:induction false} AltEndsMember(text: string, pos: nat, alts: seq<seq<Piece>>, tail: seq<Piece>, e: nat)
    requires pos <= |text|
    requires e in AltEnds(text, pos, alts, tail)
    ensures exists i :: 0 <= i < |alts| && e in SeqEnds(text, pos, alts[i] + tail)
    decreases |alts|
  {
    if e !in SeqEnds(text, pos, alts[0] + tail) {
      AltEndsMember(text, pos, alts[1..], tail, e);
      var i :| 0 <= i < |alts[1..]| && e in SeqEnds(text, pos, alts[1..][i] + tail);
      assert alts[1..][i] == alts[i + 1];
    }
  }

  /** Each end of a piece that must be present follows an occurrence of its literal. */
  lemma PieceEndsOccur(text: string, pos: nat, p: Piece, k: nat)
    requires pos <= |text| && !p.optional
    requires k < |PieceEnds(text, pos, p)|
    ensures PieceEnds(text, pos, p)[k] >= |p.lit|
    ensures LitAt(text, PieceEnds(text, pos, p)[k] - |p.lit|, p.lit)
  {
    var gs := GapEnds(text, pos, p.gap);
    assert PieceEnds(text, pos, p) == AfterLit(text, gs, p.lit, pos);
    AfterLitOccurs(text, gs, p.lit, pos, k);
  }

  /** Every way through a sequence of pieces goes through an end of its first piece. */
  lemma SeqEndsFirst(text: string, pos: nat, ps: seq<Piece>, e: nat) returns (k: nat)
    requires pos <= |text| && ps != []
    requires e in SeqEnds(text, pos, ps)
    ensures k < |PieceEnds(text, pos, ps[0])| && e in SeqEnds(text, PieceEnds(text, pos, ps[0])[k], ps[1..])
  {
    var es := PieceEnds(text, pos, ps[0]);
    SeqEndsFromMember(text, es, ps[1..], pos, e);
    k :| 0 <= k < |es| && e in SeqEnds(text, es[k], ps[1..]);
  }

  /** When the last piece must be present, every way through a sequence of pieces ends right after
      an occurrence of that piece's literal. */
  lemma {:induction false} SeqEndsAfterLastLit(text: string, pos: nat, ps: seq<Piece>, e: nat)
    requires pos <= |text|
    requires ps != [] && !ps[|ps| - 1].optional
    requires e in SeqEnds(text, pos, ps)
    ensures e >= |ps[|ps| - 1].lit| && LitAt(text, e - |ps[|ps| - 1].lit|, ps[|ps| - 1].lit)
    decreases |ps|
  {
    var k := SeqEndsFirst(text, pos, ps, e);
    var q := PieceEnds(text, pos, ps[0])[k];
    if |ps| == 1 {
      assert SeqEnds(text, q, ps[1..]) == [q];
      PieceEndsOccur(text, pos, ps[0], k);
    } else {
      assert ps[1..][|ps[1..]| - 1] == ps[|ps| - 1];
      SeqEndsAfterLastLit(text, q, ps[1..], e);
    }
  }

  /** `SpaceRun` is the whole run: `m` whitespace characters and then none. */
  lemma {:induction false} SpaceRunExact(text: string, pos: nat, m: nat)
    requires pos + m <= |text|
    requires forall k :: pos <= k < pos + m ==> IsSpace(text[k])
    requires pos + m == |text| || !IsSpace(text[pos + m])
    ensures SpaceRun(text, pos) == m
    decreases m
  {
    if m > 0 {
      SpaceRunExact(text, pos + 1, m - 1);
    }
  }

  /** No literal that starts with a non-space character begins inside a run of whitespace. */
  lemma {:induction false} AfterLitSpaces(text: string, gs: seq<nat>, lit: string, lo: nat)
    requires forall k :: 0 <= k < |gs| ==> lo <= gs[k] < |text| && IsSpace(text[gs[k]])
    requires lit != [] && !IsSpace(lit[0])
    ensures AfterLit(text, gs, lit, lo) == []
  {
    if gs != [] {
      AfterLitSpaces(text, gs[1..], lit, lo);
      assert !LitAt(text, gs[0], lit) by {
        if gs[0] + |lit| <= |text| {
          assert Lower(text[gs[0]..gs[0] + |lit|])[0] != Lower(lit)[0];
        }
      }
    }
  }

  /** A text none of whose characters folds to the same letter as some character of `lit` does
      not contain `lit`. */
  lemma AbsentByChar(text: string, lit: string, k: nat)
    requires k < |lit| && forall c :: c in text ==> LowerChar(c) != LowerChar(lit[k])
    ensures !OccursIn(text, lit)
  {
    forall p: nat | p <= |text|
      ensures !LitAt(text, p, lit)
    {
      if p + |lit| <= |text| {
        assert text[p + k] in text;
        assert Lower(text[p..p + |lit|])[k] != Lower(lit)[k];
      }
    }
  }

  /** Every end reached from starting points at or after `m` is at or after `m`. */
  lemma {:induction false} SeqEndsFromAbove(text: string, es: seq<nat>, ps: seq<Piece>, lo: nat, m: nat)
    requires forall k :: 0 <= k < |es| ==> lo <= es[k] <= |text| && m <= es[k]
    ensures forall k :: 0 <= k < |SeqEndsFrom(text, es, ps, lo)| ==> m <= SeqEndsFrom(text, es, ps, lo)[k]
    decreases |es|
  {
    if es != [] {
      SeqEndsFromAbove(text, es[1..], ps, lo, m);
    }
  }

  /** A well-formed pattern never reports an empty match. */
  lemma MatchNotEmpty(text: string, pos: nat, pat: Pattern)
    requires pos <= |text| && WellFormed(pat)
    requires MatchAt(text, pos, pat).Some?
    ensures MatchAt(text, pos, pat).value > pos
  {
    var e := MatchAt(text, pos, pat).value;
    AltEndsMember(text, pos, pat.alts, pat.tail, e);
    var i :| 0 <= i < |pat.alts| && e in SeqEnds(text, pos, pat.alts[i] + pat.tail);
    var ps := pat.alts[i] + pat.tail;
    assert ps[0] == pat.alts[i][0];
    var es := PieceEnds(text, pos, ps[0]);
    SeqEndsFromAbove(text, es, ps[1..], pos, pos + |ps[0].lit|);
  }

  /** The matches of a well-formed pattern are non-empty pieces of the text, each starting and
      ending where the pattern's `\b` anchors allow (they lie left to right without overlap by
      `ScanFrom`'s own contract). */
  lemma ScanSpans(text: string, pat: Pattern, pos: nat)
    requires WellFormed(pat)
    ensures forall k :: 0 <= k < |ScanFrom(text, pat, pos)| ==>
      ScanFrom(text, pat, pos)[k].start < ScanFrom(text, pat, pos)[k].end
    ensures forall k :: 0 <= k < |ScanFrom(text, pat, pos)| ==>
      (pat.lead ==> Boundary(text, ScanFrom(text, pat, pos)[k].start)) &&
      (pat.trail ==> ScanFrom(text, pat, pos)[k].end <= |text| && Boundary(text, ScanFrom(text, pat, pos)[k].end))
  {
    var r := ScanFrom(text, pat, pos);
    forall k | 0 <= k < |r|
      ensures r[k].start < r[k].end
    {
      MatchNotEmpty(text, r[k].start, pat);
    }
  }

  /** A position where the pattern does not match contributes nothing: if no position from `pos`
      on matches, the scan is empty. */
  lemma {:induction false} ScanNone(text: string, pat: Pattern, pos: nat)
    requires forall p :: pos <= p <= |text| ==> MatchAt(text, p, pat).None?
    ensures ScanFrom(text, pat, pos) == []
    decreases |text| + 1 - pos
  {
    if pos <= |text| {
      ScanNone(text, pat, pos + 1);
    }
  }

  /** The scan at a position that matches non-emptily: that match, then the scan from its end. */
  lemma ScanTake(text: string, pat: Pattern, pos: nat, e: nat)
    requires pos <= |text| && MatchAt(text, pos, pat) == Some(e) && e > pos
    ensures ScanFrom(text, pat, pos) == [Span(pos, e)] + ScanFrom(text, pat, e)
  {
  }

  /** A pattern that matches the whole text, and nothing at its end, replaces it by the
      callback's result. */
  lemma WholeMatchReplaced(text: string, pat: Pattern, s: string)
    requires text != [] && MatchAt(text, 0, pat) == Some(|text|) && MatchAt(text, |text|, pat).None?
    ensures Replace(text, pat, Callback(s)) == s
  {
    ScanTake(text, pat, 0, |text|);
    assert ScanFrom(text, pat, |text|) == [];
    assert [Span(0, |text|)][1..] == [];
  }

  /** Characters that `escapeRegExp` prefixes with a backslash: `.*+?^${}()|[]\`. */
  predicate IsMeta(c: char) {
    c in ".*+?^${}()|[]\\"
  }

  /** `ex.replace(/[.*+?^${}()|[\]\\]/g, "\\$&")`. */
  function EscapeRegex(s: string): (r: string)
    ensures |r| >= |s|
  {
    if s == [] then []
    else (if IsMeta(s[0]) then ['\\', s[0]] else [s[0]]) + EscapeRegex(s[1..])
  }

  /** The string a regular-expression source made of plain characters and backslash escapes of
      metacharacters stands for; None when the source uses a metacharacter unescaped. */
  function LiteralOf(src: string): (r: Option<string>)
  {
    if src == [] then Some([])
    else if src[0] == '\\' then
      if |src| >= 2 && IsMeta(src[1]) then
        match LiteralOf(src[2..])
        case None => None
        case Some(t) => Some([src[1]] + t)
      else None
    else if IsMeta(src[0]) then None
    else
      match LiteralOf(src[1..])
      case None => None
      case Some(t) => Some([src[0]] + t)
  }

  /** Escaping leaves no metacharacter active: the escaped source denotes exactly the example, so
      the regular expression built from it matches the example literally. */
  lemma {:induction false} EscapeRegexLiteral(s: string)
    ensures LiteralOf(EscapeRegex(s)) == Some(s)
  {
    if s != [] {
      EscapeRegexLiteral(s[1..]);
      var rest := EscapeRegex(s[1..]);
      assert [s[0]] + s[1..] == s;
      if IsMeta(s[0]) {
        assert EscapeRegex(s) == ['\\', s[0]] + rest;
        assert EscapeRegex(s)[2..] == rest;
      } else {
        assert EscapeRegex(s) == [s[0]] + rest;
        assert EscapeRegex(s)[1..] == rest;
      }
    }
  }

  /** Every way through the pattern ends with `lit`, which must be present. */
  predicate EndsWithLit(pat: Pattern, lit: string) {
    forall i :: 0 <= i < |pat.alts| ==>
      (pat.alts[i] + pat.tail) != [] &&
      !(pat.alts[i] + pat.tail)[|pat.alts[i] + pat.tail| - 1].optional &&
      (pat.alts[i] + pat.tail)[|pat.alts[i] + pat.tail| - 1].lit == lit
  }

  /** Such a pattern matches only where the text contains `lit`. */
  lemma MatchAfterLastLit(text: string, pos: nat, pat: Pattern, lit: string)
    requires pos <= |text| && EndsWithLit(pat, lit)
    requires MatchAt(text, pos, pat).Some?
    ensures OccursIn(text, lit)
  {
    var e := MatchAt(text, pos, pat).value;
    AltEndsMember(text, pos, pat.alts, pat.tail, e);
    var i :| 0 <= i < |pat.alts| && e in SeqEnds(text, pos, pat.alts[i] + pat.tail);
    SeqEndsAfterLastLit(text, pos, pat.alts[i] + pat.tail, e);
    var p: nat := e - |lit|;
    assert LitAt(text, p, lit);
  }

  /** Replacing such a pattern in a text without `lit` changes nothing. */
  lemma ReplaceAbsent(text: string, pat: Pattern, lit: string, repl: Replacement)
    requires !OccursIn(text, lit) && EndsWithLit(pat, lit)
    ensures Replace(text, pat, repl) == text
  {
    forall p | 0 <= p <= |text|
      ensures MatchAt(text, p, pat).None?
    {
      if MatchAt(text, p, pat).Some? {
        MatchAfterLastLit(text, p, pat, lit);
      }
    }
    ScanNone(text, pat, 0);
  }

  /** The escaped example, searched for on its own, leaves a text without it unchanged. */
  lemma LiteralAbsentUnchanged(text: string, lit: string, repl: Replacement)
    requires !OccursIn(text, lit)
    ensures Replace(text, Literal(lit), repl) == text
  {
    assert [Piece(NoGap, lit, false)] + [] == [Piece(NoGap, lit, false)];
    ReplaceAbsent(text, Literal(lit), lit, repl);
  }

  /** Every match of a well-formed pattern is a non-empty piece of the text. */
  lemma MatchesNonEmpty(text: string, pat: Pattern)
    requires WellFormed(pat)
    ensures forall k :: 0 <= k < |Matches(text, pat)| ==> Matches(text, pat)[k] != []
  {
    ScanSpans(text, pat, 0);
  }

  /** The empty text has no matches. */
  lemma EmptyTextNoMatches(pat: Pattern)
    requires WellFormed(pat)
    ensures Matches("", pat) == []
  {
    ScanSpans("", pat, 0);
  }
}
