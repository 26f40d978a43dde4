/** The on-device bias classifier: a bag-of-words vector over the artifact's vocabulary, one
    linear score per label and a logistic squashing of each score. Two predictors share the
    artifact format: the runtime one returned by `loadLocalModel` and the guarded copy used by the
    command-line model check. */
module LocalModel {
  import opened Wrappers
  import Chars
  import Preprocess
  import StableSort

  /** The JSON artifact. Nothing checks that the four arrays have matching lengths, nor that the
      bias array is there at all. */
  datatype Artifact = Artifact(labels: seq<string>, vocab: seq<string>, weights: seq<seq<real>>, bias: Option<seq<real>>)

  /** What `predict` returns: the artifact's labels and one score per label. */
  datatype Prediction = Prediction(labels: seq<string>, scores: seq<Num>)

  /** A loaded model: the artifact, its label count and its vocabulary index. */
  datatype Model = Model(artifact: Artifact, labelCount: nat, vocabIndex: map<string, nat>)

  /** How reading the artifact went: a response that is not OK, a failure (network, file system
      or JSON), or a parsed artifact. */
  datatype Fetched = NotOk | Failed | Parsed(artifact: Artifact)

  // The vocabulary index.

  /** The index built from `[word, position]` pairs: a word listed twice keeps the later pair. */
  function VocabIndex(vocab: seq<string>): (m: map<string, nat>)
    ensures forall t :: t in m <==> t in vocab
    ensures forall t :: t in m ==> m[t] < |vocab| && vocab[m[t]] == t
  {
    if vocab == [] then map[]
    else VocabIndex(vocab[..|vocab| - 1])[vocab[|vocab| - 1] := |vocab| - 1]
  }

  /** A word maps to the LAST position it occupies. */
  lemma {:induction false} VocabIndexLast(vocab: seq<string>, t: string, j: nat)
    requires t in VocabIndex(vocab) && VocabIndex(vocab)[t] < j < |vocab|
    ensures vocab[j] != t
  {
    var init := vocab[..|vocab| - 1];
    if j < |vocab| - 1 {
      assert VocabIndex(vocab)[t] == VocabIndex(init)[t];
      assert init[j] == vocab[j];
      VocabIndexLast(init, t, j);
    }
  }

  /** The model `loadLocalModel` produces from an artifact. */
  predicate Loaded(m: Model) {
    m.labelCount == |m.artifact.labels| && m.vocabIndex == VocabIndex(m.artifact.vocab)
  }

  /** `loadLocalModel`: `null` when the response is not OK or anything throws; otherwise the model
      over the artifact as parsed, with no check of its shape. */
  function LoadLocalModel(fetched: Fetched): (r: Option<Model>)
    ensures r.Some? <==> fetched.Parsed?
    ensures r.Some? ==> r.value.artifact == fetched.artifact && Loaded(r.value)
  {
    match fetched
    case Parsed(art) => Some(Model(art, |art.labels|, VocabIndex(art.vocab)))
    case _ => None
  }

  // The bag-of-words vector.

  /** Whether the token lands at position `j` of the vector. */
  function Hit(index: map<string, nat>, t: string, j: nat): nat {
    if t in index && index[t] == j then 1 else 0
  }

  /** How many of the tokens land at position `j`. */
  function Hits(index: map<string, nat>, tokens: seq<string>, j: nat): (n: nat)
    ensures n <= |tokens|
  {
    if tokens == [] then 0
    else Hits(index, tokens[..|tokens| - 1], j) + Hit(index, tokens[|tokens| - 1], j)
  }

  /** The count vector over the vocabulary. */
  function Counts(vocab: seq<string>, tokens: seq<string>): (c: seq<nat>)
    ensures |c| == |vocab|
  {
    seq(|vocab|, j requires 0 <= j => Hits(VocabIndex(vocab), tokens, j))
  }

  lemma {:induction false} HitsAppend(index: map<string, nat>, a: seq<string>, b: seq<string>, j: nat)
    ensures Hits(index, a + b, j) == Hits(index, a, j) + Hits(index, b, j)
  {
    if b == [] {
      assert a + b == a;
    } else {
      var init := b[..|b| - 1];
      assert (a + b)[..|a + b| - 1] == a + init;
      assert (a + b)[|a + b| - 1] == b[|b| - 1];
      HitsAppend(index, a, init, j);
    }
  }

  lemma HitsOne(index: map<string, nat>, t: string, j: nat)
    ensures Hits(index, [t], j) == Hit(index, t, j)
  {
    assert [t][..0] == [];
  }

  lemma HitsRemoveAt(index: map<string, nat>, t: seq<string>, k: nat, j: nat)
    requires k < |t|
    ensures Hits(index, t, j) == Hits(index, t[..k] + t[k + 1..], j) + Hit(index, t[k], j)
  {
    var a, b := t[..k], t[k + 1..];
    assert t == a + ([t[k]] + b);
    HitsAppend(index, a, [t[k]] + b, j);
    HitsAppend(index, [t[k]], b, j);
    HitsAppend(index, a, b, j);
    HitsOne(index, t[k], j);
  }

  lemma {:induction false} HitsPermutation(index: map<string, nat>, s: seq<string>, t: seq<string>, j: nat)
    requires multiset(s) == multiset(t)
    ensures Hits(index, s, j) == Hits(index, t, j)
  {
    if s != [] {
      var k := StableSort.PermutationLast(s, t);
      HitsRemoveAt(index, t, k, j);
      HitsPermutation(index, s[..|s| - 1], t[..k] + t[k + 1..], j);
    }
  }

  /** A bag of words: the order of the tokens does not matter. */
  lemma CountsPermutation(vocab: seq<string>, s: seq<string>, t: seq<string>)
    requires multiset(s) == multiset(t)
    ensures Counts(vocab, s) == Counts(vocab, t)
  {
    forall j | 0 <= j < |vocab|
      ensures Counts(vocab, s)[j] == Counts(vocab, t)[j]
    {
      HitsPermutation(VocabIndex(vocab), s, t, j);
    }
  }

  /** A token outside the vocabulary changes nothing. */
  lemma CountsUnknown(vocab: seq<string>, tokens: seq<string>, t: string)
    requires t !in vocab
    ensures Counts(vocab, tokens + [t]) == Counts(vocab, tokens)
  {
    forall j | 0 <= j < |vocab|
      ensures Counts(vocab, tokens + [t])[j] == Counts(vocab, tokens)[j]
    {
      assert (tokens + [t])[..|tokens|] == tokens;
    }
  }

  /** A known token adds one at the last position holding it and nothing elsewhere. */
  lemma CountsKnown(vocab: seq<string>, tokens: seq<string>, t: string, j: nat)
    requires t in vocab && j < |vocab|
    ensures var last := VocabIndex(vocab)[t];
      Counts(vocab, tokens + [t])[j] == Counts(vocab, tokens)[j] + (if j == last then 1 else 0)
  {
    assert (tokens + [t])[..|tokens|] == tokens;
  }

  /** A word listed twice counts only at its second position. */
  lemma CountsRepeatedWord()
    ensures Counts(["a", "a"], ["a"]) == [0, 1]
  {
    var index := VocabIndex(["a", "a"]);
    assert ["a", "a"][..1] == ["a"];
    assert index == map["a" := 1];
    assert ["a"][..0] == [];
  }

  // The scores.

  /** The error `predict` throws when the artifact has labels but no bias array. */
  const MissingBias: string := "Cannot read properties of undefined (reading '0')"

  /** The error `predict` throws when a label has no weight row. */
  const MissingRow: string := "Cannot read properties of undefined (reading 'length')"

  /** `art.bias[i] || 0`: a bias past the end of the array reads as 0, and so does every bias
      when the array is missing and the read is guarded (`art.bias && art.bias[i]`). */
  function BiasAt(bias: Option<seq<real>>, i: nat): real {
    if bias.Some? && i < |bias.value| then bias.value[i] else 0.0
  }

  /** `z` after `n` steps of `z += w[j] * vec[j]` from `z0`: a weight past the end of the vector
      multiplies `undefined` and makes the sum NaN for good. */
  function Dot(z0: real, w: seq<real>, vec: seq<nat>, n: nat): (z: Num)
    requires n <= |w|
    ensures z.NaN? <==> n > |vec|
  {
    if n == 0 then Finite(z0)
    else match Dot(z0, w, vec, n - 1)
      case NaN => NaN
      case Finite(v) => if n - 1 < |vec| then Finite(v + w[n - 1] * vec[n - 1] as real) else NaN
  }

  /** The logistic function applied to a number; NaN stays NaN. */
  function Activate(sigmoid: real -> real, z: Num): (r: Num)
    ensures r.Finite? <==> z.Finite?
  {
    if z.Finite? then Finite(sigmoid(z.value)) else NaN
  }

  /** The score of label `i`. */
  function Score(art: Artifact, vec: seq<nat>, sigmoid: real -> real, i: nat): Num
    requires i < |art.weights|
  {
    Activate(sigmoid, Dot(BiasAt(art.bias, i), art.weights[i], vec, |art.weights[i]|))
  }

  /** What `predict` returns for the tokens. It reads the first bias before the first weight
      row, so it throws for a missing bias array as soon as there is a label, and otherwise when
      a label has no weight row. */
  function Predicted(art: Artifact, tokens: seq<string>, sigmoid: real -> real): Result<Prediction> {
    if |art.labels| > 0 && art.bias.None? then Throws(MissingBias)
    else if |art.weights| < |art.labels| then Throws(MissingRow)
    else
      var vec := Counts(art.vocab, tokens);
      Ok(Prediction(art.labels, seq(|art.labels|, i requires 0 <= i < |art.labels| => Score(art, vec, sigmoid, i))))
  }

  /** `predict` of a loaded model. */
  method Predict(model: Model, tokens: seq<string>, sigmoid: real -> real) returns (r: Result<Prediction>)
    requires Loaded(model)
    ensures r == Predicted(model.artifact, tokens, sigmoid)
  {
    var art := model.artifact;
    var vec := CountVector(model.vocabIndex, |art.vocab|, tokens);
    assert vec == Counts(art.vocab, tokens);
    var scores: seq<Num> := [];
    var i := 0;
    while i < model.labelCount
      invariant i <= model.labelCount
      invariant |scores| == i
      invariant i <= |art.weights|
      invariant i > 0 ==> art.bias.Some?
      invariant forall k :: 0 <= k < i ==> scores[k] == Score(art, vec, sigmoid, k)
    {
      if art.bias.None? {
        return Throws(MissingBias);
      }
      if i >= |art.weights| {
        return Throws(MissingRow);
      }
      var z := LinearScore(BiasAt(art.bias, i), art.weights[i], vec);
      scores := scores + [Activate(sigmoid, z)];
      i := i + 1;
    }
    assert i == |art.labels| <= |art.weights|;
    assert scores == seq(|art.labels|, k requires 0 <= k < |art.labels| => Score(art, vec, sigmoid, k));
    r := Ok(Prediction(art.labels, scores));
  }

  /** The inner loop of `predict`: `z` starts at the bias and adds one product per weight. */
  method LinearScore(z0: real, w: seq<real>, vec: seq<nat>) returns (z: Num)
    ensures z == Dot(z0, w, vec, |w|)
  {
    z := Finite(z0);
    var j := 0;
    while j < |w|
      invariant j <= |w|
      invariant z == Dot(z0, w, vec, j)
    {
      z := if z.NaN? || j >= |vec| then NaN else Finite(z.value + w[j] * vec[j] as real);
      j := j + 1;
    }
  }

  /** The count loop: a zero-filled array of the vocabulary's length, one increment per known
      token. */
  method CountVector(index: map<string, nat>, size: nat, tokens: seq<string>) returns (vec: seq<nat>)
    requires forall t :: t in index ==> index[t] < size
    ensures |vec| == size
    ensures forall j :: 0 <= j < size ==> vec[j] == Hits(index, tokens, j)
  {
    var a := new nat[size](_ => 0);
    var k := 0;
    while k < |tokens|
      invariant k <= |tokens|
      invariant forall j :: 0 <= j < size ==> a[j] == Hits(index, tokens[..k], j)
    {
      var t := tokens[k];
      assert tokens[..k + 1][..k] == tokens[..k];
      if t in index {
        var idx := index[t];
        a[idx] := a[idx] + 1;
      }
      k := k + 1;
    }
    assert tokens[..k] == tokens;
    vec := a[..];
  }

  // What the predictions promise.

  /** `predict` throws exactly when there are labels but no bias array, or fewer weight rows
      than labels, and says which; otherwise it returns the artifact's labels with one score
      each. */
  lemma PredictedShape(art: Artifact, tokens: seq<string>, sigmoid: real -> real)
    ensures Predicted(art, tokens, sigmoid).Throws? <==>
      (|art.labels| > 0 && art.bias.None?) || |art.weights| < |art.labels|
    ensures Predicted(art, tokens, sigmoid).Throws? ==>
      Predicted(art, tokens, sigmoid).message == (if art.bias.None? then MissingBias else MissingRow)
    ensures Predicted(art, tokens, sigmoid).Ok? ==>
      Predicted(art, tokens, sigmoid).value.labels == art.labels &&
      |Predicted(art, tokens, sigmoid).value.scores| == |art.labels|
  {
  }

  /** A score is NaN exactly when its weight row is longer than the vocabulary. */
  lemma ScoreNaN(art: Artifact, tokens: seq<string>, sigmoid: real -> real, i: nat)
    requires Predicted(art, tokens, sigmoid).Ok? && i < |art.labels|
    ensures Predicted(art, tokens, sigmoid).value.scores[i].NaN? <==> |art.weights[i]| > |art.vocab|
  {
  }

  /** Reordering the tokens does not change the prediction. */
  lemma PredictedPermutation(art: Artifact, s: seq<string>, t: seq<string>, sigmoid: real -> real)
    requires multiset(s) == multiset(t)
    ensures Predicted(art, s, sigmoid) == Predicted(art, t, sigmoid)
  {
    CountsPermutation(art.vocab, s, t);
  }

  /** With no known token the vector is zero and every defined score is the logistic of the bias. */
  lemma {:induction false} DotZero(z0: real, w: seq<real>, vec: seq<nat>, n: nat)
    requires n <= |w| && n <= |vec|
    requires forall j :: 0 <= j < |vec| ==> vec[j] == 0
    ensures Dot(z0, w, vec, n) == Finite(z0)
  {
    if n > 0 {
      DotZero(z0, w, vec, n - 1);
    }
  }

  lemma {:induction false} HitsNone(index: map<string, nat>, tokens: seq<string>, j: nat)
    requires forall k :: 0 <= k < |tokens| ==> tokens[k] !in index
    ensures Hits(index, tokens, j) == 0
  {
    if tokens != [] {
      HitsNone(index, tokens[..|tokens| - 1], j);
    }
  }

  lemma PredictedUnknown(art: Artifact, tokens: seq<string>, sigmoid: real -> real, i: nat)
    requires Predicted(art, tokens, sigmoid).Ok? && i < |art.labels| && |art.weights[i]| <= |art.vocab|
    requires forall k :: 0 <= k < |tokens| ==> tokens[k] !in art.vocab
    ensures Predicted(art, tokens, sigmoid).value.scores[i] == Finite(sigmoid(BiasAt(art.bias, i)))
  {
    var vec := Counts(art.vocab, tokens);
    forall j | 0 <= j < |vec|
      ensures vec[j] == 0
    {
      HitsNone(VocabIndex(art.vocab), tokens, j);
    }
    DotZero(BiasAt(art.bias, i), art.weights[i], vec, |art.weights[i]|);
  }

  // The guarded predictor of the command-line model check.

  /** `(w[j] || 0) * (vec[j] || 0)` summed: a position past the end of the vector counts as 0. */
  function GuardedDot(z0: real, w: seq<real>, vec: seq<nat>, n: nat): (z: real)
    requires n <= |w|
  {
    if n == 0 then z0
    else GuardedDot(z0, w, vec, n - 1) + (if n - 1 < |vec| then w[n - 1] * vec[n - 1] as real else 0.0)
  }

  /** The guarded sum agrees with the runtime one wherever the runtime one is a number, and
      otherwise equals the runtime sum over the positions the vector has. */
  lemma {:induction false} GuardedDotAgrees(z0: real, w: seq<real>, vec: seq<nat>, n: nat)
    requires n <= |w|
    ensures n <= |vec| ==> Dot(z0, w, vec, n) == Finite(GuardedDot(z0, w, vec, n))
    ensures n > |vec| ==> GuardedDot(z0, w, vec, n) == Dot(z0, w, vec, |vec|).value
  {
    if n > 0 {
      GuardedDotAgrees(z0, w, vec, n - 1);
    }
  }

  /** What the check script's `predict` returns: like `Predicted`, but a missing bias array
      reads as zeros and no score is NaN. */
  function CheckPredicted(art: Artifact, tokens: seq<string>, sigmoid: real -> real): (r: Result<Prediction>)
    ensures r.Throws? <==> |art.weights| < |art.labels|
    ensures r.Ok? ==> forall k :: 0 <= k < |r.value.scores| ==> r.value.scores[k].Finite?
  {
    if |art.weights| < |art.labels| then Throws(MissingRow)
    else
      var vec := Counts(art.vocab, tokens);
      Ok(Prediction(art.labels, seq(|art.labels|, i requires 0 <= i < |art.labels| =>
        Finite(sigmoid(GuardedDot(BiasAt(art.bias, i), art.weights[i], vec, |art.weights[i]|))))))
  }

  /** The check script's inner loop. */
  method GuardedScore(z0: real, w: seq<real>, vec: seq<nat>) returns (z: real)
    ensures z == GuardedDot(z0, w, vec, |w|)
  {
    z := z0;
    var j := 0;
    while j < |w|
      invariant j <= |w|
      invariant z == GuardedDot(z0, w, vec, j)
    {
      z := z + w[j] * (if j < |vec| then vec[j] as real else 0.0);
      j := j + 1;
    }
  }

  /** The check script's `predict`: it builds its own index on every call. */
  method CheckPredict(art: Artifact, tokens: seq<string>, sigmoid: real -> real) returns (r: Result<Prediction>)
    ensures r == CheckPredicted(art, tokens, sigmoid)
  {
    var vec := CountVector(VocabIndex(art.vocab), |art.vocab|, tokens);
    assert vec == Counts(art.vocab, tokens);
    var scores: seq<real> := [];
    var i := 0;
    while i < |art.labels|
      invariant i <= |art.labels| && i <= |art.weights|
      invariant |scores| == i
      invariant forall k :: 0 <= k < i ==>
        scores[k] == sigmoid(GuardedDot(BiasAt(art.bias, k), art.weights[k], vec, |art.weights[k]|))
    {
      if i >= |art.weights| {
        return Throws(MissingRow);
      }
      var z := GuardedScore(BiasAt(art.bias, i), art.weights[i], vec);
      scores := scores + [sigmoid(z)];
      i := i + 1;
    }
    assert i == |art.labels| <= |art.weights|;
    var nums := seq(|scores|, k requires 0 <= k < |scores| => Finite(scores[k]));
    assert nums == seq(|art.labels|, k requires 0 <= k < |art.labels| =>
      Finite(sigmoid(GuardedDot(BiasAt(art.bias, k), art.weights[k], vec, |art.weights[k]|))));
    r := Ok(Prediction(art.labels, nums));
  }

  /** The two predictors throw on the same artifacts, except that only the runtime one throws
      for labels without a bias array, and they give the same score wherever the runtime's score
      is a number. */
  lemma CheckAgrees(art: Artifact, tokens: seq<string>, sigmoid: real -> real)
    ensures art.bias.Some? || art.labels == [] ==>
      (CheckPredicted(art, tokens, sigmoid).Ok? <==> Predicted(art, tokens, sigmoid).Ok?)
    ensures art.bias.None? && art.labels != [] ==>
      Predicted(art, tokens, sigmoid).Throws? &&
      (CheckPredicted(art, tokens, sigmoid).Ok? <==> |art.labels| <= |art.weights|)
    ensures Predicted(art, tokens, sigmoid).Ok? ==>
      forall i :: 0 <= i < |art.labels| && Predicted(art, tokens, sigmoid).value.scores[i].Finite? ==>
        CheckPredicted(art, tokens, sigmoid).value.scores[i] == Predicted(art, tokens, sigmoid).value.scores[i]
  {
    if Predicted(art, tokens, sigmoid).Ok? {
      var vec := Counts(art.vocab, tokens);
      forall i | 0 <= i < |art.labels|
        ensures Predicted(art, tokens, sigmoid).value.scores[i].Finite? ==>
          CheckPredicted(art, tokens, sigmoid).value.scores[i] == Predicted(art, tokens, sigmoid).value.scores[i]
      {
        GuardedDotAgrees(BiasAt(art.bias, i), art.weights[i], vec, |art.weights[i]|);
      }
    }
  }

  /** `tokenize` of the check script: lower-case, split on runs of non-token characters, drop
      the empty pieces. */
  function Tokenize(text: string): (r: seq<string>)
    ensures r == Preprocess.Preprocess(text).tokens
  {
    Preprocess.PiecesAreWords(Chars.Lower(text));
    Preprocess.TokensOfRaw(text);
    Preprocess.Pieces(Preprocess.NonToken, Chars.Lower(text))
  }
}
