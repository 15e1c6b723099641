/**
 * The two-level hypothesis bookkeeping of semantic beam search
 * (generators/data_structures.py): a semantic hypothesis groups syntactic
 * hypotheses under a composite aggregation key; each syntactic hypothesis
 * carries its provenance, its path score, the semantic data that ties it
 * to a group, and the sliced continuation data needed to resume decoding.
 *
 * Tensors are one-dimensional sequences; float scores are `real`.
 */
module DataStructures {
  import opened Wrappers
  import opened PyBuiltins

  /* ---------------------------------------------------------------- */
  /* Semantic data and metadata                                       */
  /* ---------------------------------------------------------------- */

  /**
   * Ties syntactic hypotheses to a semantic hypothesis. `kind` is the
   * source's `_type`; `other` stands for any annotation the caller keeps.
   */
  datatype SemanticData = SemanticData(
    uniqueKey: string,
    start: int,
    end: int,
    kind: string,
    amountOfChunks: Option<int>,
    other: Option<string>,
    hasSemanticData: bool)

  /** The dataclass constructor: every field as given, `has_semantic_data` defaulting to true. */
  function NewSemanticData(
    uniqueKey: string, start: int, end: int, kind: string,
    amountOfChunks: Option<int>, other: Option<string>): (d: SemanticData)
    ensures d.hasSemanticData
    ensures d.uniqueKey == uniqueKey && d.start == start && d.end == end && d.kind == kind
    ensures d.amountOfChunks == amountOfChunks && d.other == other
  {
    SemanticData(uniqueKey, start, end, kind, amountOfChunks, other, true)
  }

  datatype SyntacticHypothesisMetaData = SyntacticHypothesisMetaData(tokensShortened: int)

  /* ---------------------------------------------------------------- */
  /* Continuation data                                                */
  /* ---------------------------------------------------------------- */

  /** One transformer layer's cached key and value tensors, flattened. */
  datatype LayerCache = LayerCache(key: seq<real>, value: seq<real>)

  /**
   * The sliced data needed to continue one hypothesis: its tokens, the
   * score of each of its own tokens, the score of its beam, the model's
   * cache and the attention mask.
   */
  datatype SyntacticHypothesisData = SyntacticHypothesisData(
    sequences: seq<int>,
    transitionScores: seq<real>,
    lastBeamScores: real,
    pastKeyValues: seq<LayerCache>,
    attentionMask: seq<int>)
  {
    /** `len(data)`: the length of the last dimension of `sequences`. */
    function Length(): (n: nat)
      ensures n == |sequences|
    {
      |sequences|
    }
  }

  /**
   * The unshortened form has the same five fields and nothing more: it
   * cannot itself hold an unshortened form, so nesting stops at one level.
   */
  type SyntacticHypothesisUnshortenedContinuationData = SyntacticHypothesisData

  datatype SyntacticHypothesisContinuationData = SyntacticHypothesisContinuationData(
    data: SyntacticHypothesisData,
    unshortenedData: Option<SyntacticHypothesisUnshortenedContinuationData>)
  {
    /** The inherited `__len__`: the length of the (possibly shortened) `sequences`. */
    function Length(): (n: nat)
      ensures n == data.Length()
    {
      |data.sequences|
    }
  }

  /** Sum of a sequence of scores. */
  function Sum(xs: seq<real>): real
  {
    if xs == [] then 0.0 else xs[0] + Sum(xs[1..])
  }

  lemma {:induction false} SumAppend(xs: seq<real>, ys: seq<real>)
    ensures Sum(xs + ys) == Sum(xs) + Sum(ys)
    decreases |xs|
  {
    if xs == [] {
      assert xs + ys == ys;
    } else {
      assert (xs + ys)[0] == xs[0];
      assert (xs + ys)[1..] == xs[1..] + ys;
      SumAppend(xs[1..], ys);
    }
  }

  /** The documented invariant: the beam score is the sum of the transition scores. */
  predicate ScoresConsistent(d: SyntacticHypothesisData) {
    d.lastBeamScores == Sum(d.transitionScores)
  }

  /**
   * The documented shape: `transition_scores` has the shape of `sequences`,
   * one score for each token.
   */
  predicate WellShaped(d: SyntacticHypothesisData) {
    |d.transitionScores| == |d.sequences|
  }

  /** In well-shaped data the length counts the transition scores as well as the tokens. */
  lemma WellShapedLength(d: SyntacticHypothesisData)
    requires WellShaped(d)
    ensures d.Length() == |d.transitionScores|
  {
  }

  /** The invariant on the sliced data and, when present, on its unshortened form. */
  predicate ContinuationScoresConsistent(c: SyntacticHypothesisContinuationData) {
    && ScoresConsistent(c.data)
    && (c.unshortenedData.Some? ==> ScoresConsistent(c.unshortenedData.value))
  }

  /** Extending a beam by one token whose transition score is `s` adds `s` to its beam score. */
  lemma ScoresConsistentAfterStep(d: SyntacticHypothesisData, token: int, s: real)
    requires ScoresConsistent(d)
    ensures ScoresConsistent(d.(sequences := d.sequences + [token],
                                transitionScores := d.transitionScores + [s],
                                lastBeamScores := d.lastBeamScores + s))
    ensures WellShaped(d) ==>
      WellShaped(d.(sequences := d.sequences + [token],
                    transitionScores := d.transitionScores + [s],
                    lastBeamScores := d.lastBeamScores + s))
  {
    SumAppend(d.transitionScores, [s]);
    assert Sum([s]) == s + Sum([]);
  }

  /** Transition scores are log-probabilities, so a consistent beam score is never positive. */
  lemma {:induction false} BeamScoreNonPositive(d: SyntacticHypothesisData)
    requires ScoresConsistent(d)
    requires forall i :: 0 <= i < |d.transitionScores| ==> d.transitionScores[i] <= 0.0
    ensures d.lastBeamScores <= 0.0
  {
    SumNonPositive(d.transitionScores);
  }

  /**
   * With log-probability transition scores, a continuation whose invariant
   * holds has a non-positive beam score in its sliced data and, when kept,
   * in its unshortened form.
   */
  lemma ContinuationBeamScoresNonPositive(c: SyntacticHypothesisContinuationData)
    requires ContinuationScoresConsistent(c)
    requires forall i :: 0 <= i < |c.data.transitionScores| ==> c.data.transitionScores[i] <= 0.0
    requires c.unshortenedData.Some? ==>
      forall i :: 0 <= i < |c.unshortenedData.value.transitionScores| ==>
        c.unshortenedData.value.transitionScores[i] <= 0.0
    ensures c.data.lastBeamScores <= 0.0
    ensures c.unshortenedData.Some? ==> c.unshortenedData.value.lastBeamScores <= 0.0
  {
    BeamScoreNonPositive(c.data);
    if c.unshortenedData.Some? {
      BeamScoreNonPositive(c.unshortenedData.value);
    }
  }

  lemma {:induction false} SumNonPositive(xs: seq<real>)
    requires forall i :: 0 <= i < |xs| ==> xs[i] <= 0.0
    ensures Sum(xs) <= 0.0
    decreases |xs|
  {
    if xs != [] {
      assert forall i :: 0 <= i < |xs[1..]| ==> xs[1..][i] == xs[i + 1];
      SumNonPositive(xs[1..]);
    }
  }

  /* ---------------------------------------------------------------- */
  /* Aggregation keys                                                 */
  /* ---------------------------------------------------------------- */

  const KeyDelimiter: char := '-'

  /**
   * The documented key format `f"{semantic_source_hypothesis_idx}-{semantic_data.unique_key}"`:
   * the printed index, then the delimiter, then the unique key, where the
   * delimiter is the first `-` after the index's optional sign.
   */
  function BuildKey(sourceIdx: int, uniqueKey: string): (key: string)
    ensures var s := IntToStr(sourceIdx);
      && |key| == |s| + 1 + |uniqueKey|
      && key[..|s|] == s
      && key[|s|] == KeyDelimiter
      && key[|s| + 1..] == uniqueKey
      && forall k :: (if sourceIdx < 0 then 1 else 0) <= k < |s| ==> key[k] != KeyDelimiter
  {
    IntToStr(sourceIdx) + [KeyDelimiter] + uniqueKey
  }

  /** The first position at or after `from` holding `c`, or `|s|` if there is none. */
  function IndexOfFrom(s: string, c: char, from: nat): (r: nat)
    requires from <= |s|
    ensures from <= r <= |s|
    ensures r < |s| ==> s[r] == c
    ensures forall k :: from <= k < r ==> s[k] != c
    decreases |s| - from
  {
    if from == |s| || s[from] == c then from else IndexOfFrom(s, c, from + 1)
  }

  /**
   * Reads a key back into its source index and unique key: an optional
   * sign, the digits up to the first delimiter after it, then the rest
   * (which may itself contain delimiters).
   */
  function SplitKey(key: string): Option<(int, string)>
  {
    var start := if |key| > 0 && key[0] == '-' then 1 else 0;
    var p := IndexOfFrom(key, KeyDelimiter, start);
    if p == |key| || p == start || !AllDigits(key[start..p]) then None
    else
      var n := DecimalValue(key[start..p]);
      Some((if start == 1 then 0 - n else n, key[p + 1..]))
  }

  /** A key determines its parts, whatever delimiters the unique key contains. */
  lemma BuildKeyRoundTrip(sourceIdx: int, uniqueKey: string)
    ensures SplitKey(BuildKey(sourceIdx, uniqueKey)) == Some((sourceIdx, uniqueKey))
  {
    var s := IntToStr(sourceIdx);
    var key := BuildKey(sourceIdx, uniqueKey);
    var start := if sourceIdx < 0 then 1 else 0;
    assert key[..|s|] == s;
    assert key[0] == s[0];
    assert key[|s|] == KeyDelimiter;
    forall k | start <= k < |s|
      ensures key[k] != KeyDelimiter
    {
      assert key[k] == s[k];
      if sourceIdx < 0 {
        assert s[k] == s[1..][k - 1];
      } else {
        assert IsDigit(s[k]);
      }
    }
    var p := IndexOfFrom(key, KeyDelimiter, start);
    assert p == |s|;
    assert key[start..p] == s[start..];
    assert key[p + 1..] == uniqueKey;
    IntToStrRoundTrip(sourceIdx);
  }

  /** Different (source index, unique key) pairs never share an aggregation key. */
  lemma BuildKeyInjective(i: int, u: string, j: int, v: string)
    requires BuildKey(i, u) == BuildKey(j, v)
    ensures i == j && u == v
  {
    BuildKeyRoundTrip(i, u);
    BuildKeyRoundTrip(j, v);
  }

  /* ---------------------------------------------------------------- */
  /* Syntactic hypotheses                                             */
  /* ---------------------------------------------------------------- */

  datatype SyntacticHypothesis = SyntacticHypothesis(
    aggregationKey: string,
    semanticSourceHypothesisIdx: int,
    syntacticSourceHypothesisIdx: int,
    hypothesisIdx: int,
    pathScore: real,
    normalizedPathScore: real,
    semanticData: SemanticData,
    syntacticHypothesis: SyntacticHypothesisContinuationData,
    metadata: SyntacticHypothesisMetaData,
    isAggregationKeyComplete: bool,
    isNormalizedPathScoreCalculated: bool)
  {
    /** The token ids of the (sliced) continuation. */
    function Tokens(): seq<int> {
      syntacticHypothesis.data.sequences
    }

    /** `__len__`: the length of the continuation's `sequences`. */
    function Length(): (n: nat)
      ensures n == syntacticHypothesis.Length() == syntacticHypothesis.data.Length()
    {
      |syntacticHypothesis.data.sequences|
    }

    /** `__eq__`: `torch.equal` on the token sequences, same length and same token at every position. */
    predicate Equals(other: SyntacticHypothesis)
      ensures Equals(other) <==>
        |Tokens()| == |other.Tokens()| &&
        forall i :: 0 <= i < |Tokens()| ==> Tokens()[i] == other.Tokens()[i]
    {
      Tokens() == other.Tokens()
    }

    /** `__hash__` as intended: the hash of the tuple of token values. */
    function Hash(): (h: int)
      ensures IsHashValue(h) && h != -1
    {
      TupleHash(TokenHashes(Tokens()))
    }
  }

  function TokenHashes(tokens: seq<int>): (hs: seq<int>)
    ensures |hs| == |tokens|
    ensures forall i :: 0 <= i < |tokens| ==> hs[i] == IntHash(tokens[i])
  {
    seq(|tokens|, i requires 0 <= i < |tokens| => IntHash(tokens[i]))
  }

  /** The dataclass constructor: both flags default to false. */
  function NewSyntacticHypothesis(
    aggregationKey: string,
    semanticSourceHypothesisIdx: int,
    syntacticSourceHypothesisIdx: int,
    hypothesisIdx: int,
    pathScore: real,
    normalizedPathScore: real,
    semanticData: SemanticData,
    continuation: SyntacticHypothesisContinuationData,
    metadata: SyntacticHypothesisMetaData): (h: SyntacticHypothesis)
    ensures !h.isAggregationKeyComplete && !h.isNormalizedPathScoreCalculated
    ensures h.aggregationKey == aggregationKey
    ensures h.semanticSourceHypothesisIdx == semanticSourceHypothesisIdx
    ensures h.syntacticSourceHypothesisIdx == syntacticSourceHypothesisIdx
    ensures h.hypothesisIdx == hypothesisIdx
    ensures h.pathScore == pathScore && h.normalizedPathScore == normalizedPathScore
    ensures h.semanticData == semanticData && h.syntacticHypothesis == continuation
    ensures h.metadata == metadata
  {
    SyntacticHypothesis(
      aggregationKey, semanticSourceHypothesisIdx, syntacticSourceHypothesisIdx, hypothesisIdx,
      pathScore, normalizedPathScore, semanticData, continuation, metadata, false, false)
  }

  /** Equality is an equivalence relation. */
  lemma EqualsIsEquivalence(a: SyntacticHypothesis, b: SyntacticHypothesis, c: SyntacticHypothesis)
    ensures a.Equals(a)
    ensures a.Equals(b) ==> b.Equals(a)
    ensures a.Equals(b) && b.Equals(c) ==> a.Equals(c)
  {
  }

  /**
   * Equality looks at the tokens only: two hypotheses with the same tokens
   * are equal whatever their keys, provenance, scores, semantic data,
   * metadata or flags, and hypotheses with different tokens never are.
   */
  lemma EqualsIgnoresBookkeeping(a: SyntacticHypothesis, b: SyntacticHypothesis)
    ensures a.Tokens() == b.Tokens() ==> a.Equals(b)
    ensures a.Tokens() != b.Tokens() ==> !a.Equals(b)
  {
  }

  /** Equal hypotheses have equal lengths. */
  lemma EqualHypothesesHaveEqualLength(a: SyntacticHypothesis, b: SyntacticHypothesis)
    requires a.Equals(b)
    ensures a.Length() == b.Length()
  {
  }

  /** The intended hash agrees with equality: equal hypotheses hash alike. */
  lemma HashConsistentWithEquality(a: SyntacticHypothesis, b: SyntacticHypothesis)
    requires a.Equals(b)
    ensures a.Hash() == b.Hash()
  {
  }

  /** The intended hash is Python's `hash` of the token tuple: for tokens `[5]`, `hash((5,))`. */
  lemma HashOfSingleToken(h: SyntacticHypothesis)
    requires h.Tokens() == [5]
    ensures h.Hash() == -7813438383599366905
  {
    assert TokenHashes([5]) == [5];
    assert h.Hash() == TupleHash([5]);
    SingleItemTupleHash();
  }

  /**
   * `__hash__` as written: it hashes the tuple of the 0-d tensors that
   * iterating the flattened tensor creates, and a tensor hashes to its
   * object identity. `elementIds` are those identities: the objects'
   * addresses, which stay below 2**63 and so hash to themselves.
   */
  function HashAsWritten(h: SyntacticHypothesis, elementIds: seq<bv64>): (r: int)
    requires |elementIds| == |h.Tokens()|
    requires forall i :: 0 <= i < |elementIds| ==> elementIds[i] < 0x8000_0000_0000_0000
    ensures IsHashValue(r) && r != -1
  {
    TupleHashOfLanes(elementIds)
  }

  /**
   * The as-written hash disagrees with equality: hashing the same
   * one-token hypothesis twice, with its element tensor created at two
   * different addresses, gives two different hashes.
   */
  lemma HashAsWrittenBreaksEquality(h: SyntacticHypothesis)
    requires h.Tokens() == [5]
    ensures h.Equals(h)
    ensures HashAsWritten(h, [140000000000000]) == -830873347281192920
    ensures HashAsWritten(h, [140000000000016]) == 5892945722890445831
  {
    assert [140000000000000 as bv64][..0] == [];
    assert [140000000000016 as bv64][..0] == [];
  }

  /**
   * What `is_aggregation_key_complete` promises: the key was built from
   * the source index and set semantic data, in the documented format.
   */
  predicate KeyInvariant(h: SyntacticHypothesis) {
    h.isAggregationKeyComplete ==>
      && h.semanticData.hasSemanticData
      && h.aggregationKey == BuildKey(h.semanticSourceHypothesisIdx, h.semanticData.uniqueKey)
  }

  /** A freshly built hypothesis keeps the key invariant whatever key it was given. */
  lemma NewHypothesisKeyInvariant(
    aggregationKey: string, semIdx: int, synIdx: int, hypIdx: int,
    pathScore: real, normalizedPathScore: real, semanticData: SemanticData,
    continuation: SyntacticHypothesisContinuationData, metadata: SyntacticHypothesisMetaData)
    ensures KeyInvariant(NewSyntacticHypothesis(
      aggregationKey, semIdx, synIdx, hypIdx, pathScore, normalizedPathScore,
      semanticData, continuation, metadata))
  {
  }

  /**
   * Two hypotheses with complete keys share their aggregation key exactly
   * when they come from the same semantic hypothesis and carry the same
   * unique key.
   */
  lemma SameCompleteKeyIffSameSource(a: SyntacticHypothesis, b: SyntacticHypothesis)
    requires KeyInvariant(a) && KeyInvariant(b)
    requires a.isAggregationKeyComplete && b.isAggregationKeyComplete
    ensures a.aggregationKey == b.aggregationKey <==>
      a.semanticSourceHypothesisIdx == b.semanticSourceHypothesisIdx &&
      a.semanticData.uniqueKey == b.semanticData.uniqueKey
  {
    if a.aggregationKey == b.aggregationKey {
      BuildKeyInjective(a.semanticSourceHypothesisIdx, a.semanticData.uniqueKey,
                        b.semanticSourceHypothesisIdx, b.semanticData.uniqueKey);
    }
  }

  /* ---------------------------------------------------------------- */
  /* Semantic hypotheses                                              */
  /* ---------------------------------------------------------------- */

  /** Raw, batched model output; kept only on request. */
  datatype OriginalContinuationData = OriginalContinuationData(
    sequences: seq<seq<int>>,
    scores: seq<seq<seq<real>>>,
    transitionScores: seq<seq<real>>,
    beamIndices: seq<seq<int>>,
    pastKeyValues: seq<LayerCache>,
    attentionMask: seq<seq<int>>,
    lastBeamScores: seq<real>)

  datatype SemanticHypothesis = SemanticHypothesis(
    aggregationKey: string,
    score: real,
    syntacticHypotheses: seq<SyntacticHypothesis>,
    sourceData: Option<OriginalContinuationData>)
  {
    /** `__len__`: the number of syntactic hypotheses, duplicates included. */
    function Length(): (n: nat)
      ensures n == |multiset(syntacticHypotheses)|
    {
      |syntacticHypotheses|
    }

    /** `__lt__`: ordered by score alone. */
    predicate Less(other: SemanticHypothesis) {
      score < other.score
    }
  }

  /**
   * `<` on semantic hypotheses is a strict weak order: irreflexive,
   * asymmetric, transitive, and two hypotheses are incomparable exactly
   * when their scores are equal.
   */
  lemma LessIsStrictWeakOrder(a: SemanticHypothesis, b: SemanticHypothesis, c: SemanticHypothesis)
    ensures !a.Less(a)
    ensures a.Less(b) ==> !b.Less(a)
    ensures a.Less(b) && b.Less(c) ==> a.Less(c)
    ensures (!a.Less(b) && !b.Less(a)) <==> a.score == b.score
  {
  }

  /** No field other than the score affects the order. */
  lemma LessDependsOnScoreOnly(a: SemanticHypothesis, b: SemanticHypothesis,
                               a': SemanticHypothesis, b': SemanticHypothesis)
    requires a.score == a'.score && b.score == b'.score
    ensures a.Less(b) <==> a'.Less(b')
  {
  }

  /** Every member carries the group's aggregation key and keeps the key invariant, with a complete key. */
  predicate IsCompleteGroup(g: SemanticHypothesis) {
    forall i :: 0 <= i < |g.syntacticHypotheses| ==>
      var m := g.syntacticHypotheses[i];
      m.aggregationKey == g.aggregationKey && m.isAggregationKeyComplete && KeyInvariant(m)
  }

  /**
   * The composite key groups syntactic hypotheses from the same previous
   * semantic hypothesis: all members of a complete group share the source
   * index and the unique key.
   */
  lemma CompleteGroupSharesSource(g: SemanticHypothesis, i: nat, j: nat)
    requires IsCompleteGroup(g)
    requires i < |g.syntacticHypotheses| && j < |g.syntacticHypotheses|
    ensures g.syntacticHypotheses[i].semanticSourceHypothesisIdx
         == g.syntacticHypotheses[j].semanticSourceHypothesisIdx
    ensures g.syntacticHypotheses[i].semanticData.uniqueKey
         == g.syntacticHypotheses[j].semanticData.uniqueKey
  {
    SameCompleteKeyIffSameSource(g.syntacticHypotheses[i], g.syntacticHypotheses[j]);
  }

}
