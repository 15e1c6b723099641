# Semantic decoding hypotheses in Dafny

This project models the hypothesis data model of a semantic beam-search
decoder, together with its generic `deep_compare` helper.

In this decoder, token-level beam search produces *syntactic hypotheses*.
Those are grouped into *semantic hypotheses* under a composite
*aggregation key*. The key is the index of the semantic hypothesis the
syntactic one came from, then `-`, then the unique key of its semantic data.

Files:

- `wrappers.dfy`: module `Wrappers`. It holds `Option`, which stands for
  Python's `Optional`.
- `py_builtins.dfy`: module `PyBuiltins`. It models the Python built-ins that
  the data model relies on: `str(int)`, and `hash` of an `int` and of a
  `tuple` as 64-bit CPython 3.8+ computes them (including the xxHash-based
  tuple hash).
- `data_structures.dfy`: module `DataStructures`, for
  `generators/data_structures.py`. It has one datatype per dataclass:
  `SemanticData`, `SyntacticHypothesisMetaData`, `SyntacticHypothesisData`,
  `SyntacticHypothesisContinuationData`, `SyntacticHypothesis`,
  `OriginalContinuationData` and `SemanticHypothesis`. Their `__len__`,
  `__eq__`, `__hash__` and `__lt__` become functions and predicates. The
  module also holds the documented key format, the documented
  score-sum invariant, and lemmas about all of these.
- `utils.dfy`: module `Utils`, for `generators/utils.py`. It models
  `deep_compare` over values that are dicts, lists or atoms, each tagged
  with its runtime class. The atoms' own `==` is a parameter.

All of the core is pure: dataclasses whose methods are single expressions,
and one recursive function. The model is therefore datatypes, functions and
lemmas.

The unshortened continuation data has the same five fields as the sliced
data and no further sibling. In the model it is the same datatype,
`SyntacticHypothesisData`, held in an `Option` beside the sliced data. So
the types themselves guarantee that nesting stops at one level.

## Model

| member | source | states |
|---|---|---|
| `DataStructures.NewSemanticData` | generators/data_structures.py:163-169 | a new `SemanticData` has `has_semantic_data` true by default, and every other field as given |
| `DataStructures.SyntacticHypothesisData.Length` | generators/data_structures.py:217-221 | the length of continuation data is the length of its token sequence |
| `DataStructures.SyntacticHypothesisContinuationData.Length` | generators/data_structures.py:217-225 | the sliced continuation inherits that length: the length of its own (possibly shortened) sequence |
| `DataStructures.ScoresConsistent` | generators/data_structures.py:183-185 | the documented invariant: the last beam score is the sum of the transition scores; preserved by `ScoresConsistentAfterStep` and bounding the beam score in `BeamScoreNonPositive` |
| `DataStructures.WellShaped` | generators/data_structures.py:176-181 | the documented shape: one transition score per token; preserved by `ScoresConsistentAfterStep` and tied to `Length` by `WellShapedLength` |
| `DataStructures.ScoresConsistentAfterStep` | generators/data_structures.py:183-185 | the invariant "last beam score = sum of transition scores" survives extending the beam by one token whose score is added to the beam score, and so does the documented shape (one transition score per token) |
| `DataStructures.BeamScoreNonPositive` | generators/data_structures.py:178-185 | when the invariant holds and every transition score is a log-probability (at most 0), the beam score is at most 0 |
| `DataStructures.WellShapedLength` | generators/data_structures.py:176-181 | when `transition_scores` has the documented shape of `sequences`, the data's length is also the number of transition scores |
| `DataStructures.ContinuationBeamScoresNonPositive` | generators/data_structures.py:178-185 | when the score-sum invariant holds on the sliced data and on its unshortened form, and every transition score is at most 0, both beam scores are at most 0 |
| `DataStructures.BuildKey` | generators/data_structures.py:49-52 | `str(idx) + "-" + unique_key`, whose `-` is the first one after the index's optional sign; inverted by `SplitKey` in `BuildKeyRoundTrip` |
| `DataStructures.BuildKeyRoundTrip` | generators/data_structures.py:49-52 | the key `"{idx}-{unique_key}"` can be split back into exactly `idx` and `unique_key`, for negative indices too and when the unique key itself contains `-` |
| `DataStructures.BuildKeyInjective` | generators/data_structures.py:85-88 | two different (source index, unique key) pairs never build the same aggregation key |
| `DataStructures.SyntacticHypothesis.Length` | generators/data_structures.py:131-132 | a hypothesis's length is the length of its continuation data's sequence |
| `DataStructures.SyntacticHypothesis.Equals` | generators/data_structures.py:134-135 | two hypotheses are equal exactly when their token sequences have the same length and the same token at every position (`torch.equal`) |
| `DataStructures.SyntacticHypothesis.Hash` | generators/data_structures.py:137-138 | the intended hash: Python's `hash` of the tuple of token values, always a valid `Py_hash_t` and never -1 |
| `DataStructures.NewSyntacticHypothesis` | generators/data_structures.py:119-129 | a new hypothesis has both `is_aggregation_key_complete` and `is_normalized_path_score_calculated` false by default, and every other field as given |
| `DataStructures.EqualsIsEquivalence` | generators/data_structures.py:134-135 | equality is reflexive, symmetric and transitive |
| `DataStructures.EqualsIgnoresBookkeeping` | generators/data_structures.py:134-135 | the same tokens make two hypotheses equal whatever their key, provenance, scores, semantic data, metadata or flags; different tokens never do |
| `DataStructures.EqualHypothesesHaveEqualLength` | generators/data_structures.py:131-135 | equal hypotheses have equal lengths |
| `DataStructures.HashConsistentWithEquality` | generators/data_structures.py:134-138 | with the intended hash, equal hypotheses hash alike |
| `DataStructures.HashOfSingleToken` | generators/data_structures.py:137-138 | the intended hash of a hypothesis with tokens `[5]` is CPython's `hash((5,))` |
| `DataStructures.HashAsWritten` | generators/data_structures.py:137-138 | the hash as written: the tuple hash of the identities of the element tensors, always a valid `Py_hash_t` |
| `DataStructures.HashAsWrittenBreaksEquality` | generators/data_structures.py:137-138 | one hypothesis, equal to itself, gets two different hashes as written when its element tensor is created at two different addresses |
| `DataStructures.KeyInvariant` | generators/data_structures.py:112-115 | a complete aggregation key means the semantic data is set and the key is built from the source index and the unique key; kept by `NewHypothesisKeyInvariant` and used by `SameCompleteKeyIffSameSource` |
| `DataStructures.NewHypothesisKeyInvariant` | generators/data_structures.py:112-128 | a freshly built hypothesis never claims a complete key, so it keeps the key invariant whatever key it was given |
| `DataStructures.SameCompleteKeyIffSameSource` | generators/data_structures.py:85-88 | two hypotheses with complete keys share their aggregation key exactly when they have the same source semantic index and the same unique key |
| `DataStructures.SemanticHypothesis.Length` | generators/data_structures.py:68-69 | a semantic hypothesis's length is the number of its syntactic hypotheses, duplicates counted |
| `DataStructures.SemanticHypothesis.Less` | generators/data_structures.py:77-78 | `score < other.score`, a strict weak order by `LessIsStrictWeakOrder` that reads no other field by `LessDependsOnScoreOnly` |
| `DataStructures.LessIsStrictWeakOrder` | generators/data_structures.py:77-78 | `<` is irreflexive, asymmetric and transitive; two semantic hypotheses are incomparable exactly when their scores are equal |
| `DataStructures.LessDependsOnScoreOnly` | generators/data_structures.py:77-78 | no field other than `score` affects `<` |
| `DataStructures.CompleteGroupSharesSource` | generators/data_structures.py:49-52 | all members of a group with complete keys share one source semantic index and one unique key |
| `PyBuiltins.IntToStr` | generators/data_structures.py:52 | the index in the key is printed as `str` prints it: a minus sign exactly for negative values, then decimal digits, with no other `-` |
| `PyBuiltins.IntHash` | generators/data_structures.py:138 | Python's `hash(int)` of each token: a valid `Py_hash_t` other than -1, the token itself when it lies in `[0, 2**61 - 1)`, and negative only for negative tokens |
| `PyBuiltins.TupleHash` | generators/data_structures.py:138 | CPython's tuple hash is always a valid `Py_hash_t` and never the reserved -1 |
| `PyBuiltins.SingleItemTupleHash` | generators/data_structures.py:138 | the modelled tuple hash reproduces CPython's `hash((5,))` |
| `Utils.DeepCompare` | generators/utils.py:1-15 | a true result implies equal runtime types, equal key sets for dicts and equal lengths for lists; each recursive call is on a component of the first argument, so it terminates on every acyclic value |
| `Utils.DifferentTypesCompareFalse` | generators/utils.py:2-3 | values of different runtime types always compare false |
| `Utils.DictCase` | generators/utils.py:5-8 | dicts with different key sets compare false; with equal key sets they compare true exactly when every key's values deep-compare true |
| `Utils.ListCase` | generators/utils.py:10-13 | lists of different lengths compare false; with equal lengths they compare true exactly when every position's elements deep-compare true |
| `Utils.AtomCase` | generators/utils.py:15 | any other value, tuples included, is compared with its own `==` and not recursed into |
| `Utils.DeepCompareReflexive` | generators/utils.py:1-15 | every value deep-compares equal to itself when each atom inside it is `==` to itself |
| `Utils.DeepCompareSymmetric` | generators/utils.py:1-15 | `deep_compare(a, b) == deep_compare(b, a)` whenever atom `==` is symmetric |
| `Utils.DeepCompareTransitive` | generators/utils.py:1-15 | `deep_compare` is transitive whenever atom `==` is transitive |
| `Utils.DeepCompareIsStructuralEquality` | generators/utils.py:1-15 | when atom `==` is plain equality, `deep_compare(a, b)` holds exactly when `a` and `b` are the same value |

## Left out

- `__repr__` and `__str__` of every class are not modelled. They only format text, partly through torch's tensor printing.
- `OriginalContinuationData` is declared only as a field type. Its only methods format text.
- The legacy `ContinuationData` (generators/data_structures.py:240-298) is not modelled. Its `__len__` calls `len()` on an `int`, so it always raises `TypeError` and has no contract.
- Tensors are one-dimensional sequences. `shape[-1]` is the sequence length. `past_key_values` is a list of flattened per-layer key/value pairs with no shape checks. `torch.equal` is equality of sequences.
- Scores are `real`, not floats. The score-sum invariant is stated exactly, without floating-point tolerance or rounding.
- `SemanticData.other` holds any Python object in the source. The model narrows it to optional text, which nothing in the core reads.
- `SyntacticHypothesisUnshortenedContinuationData` is the same type as `SyntacticHypothesisData`. The model cannot tell the two classes apart at runtime, as `isinstance` could.
- The dataclass-generated `__eq__` of the classes other than `SyntacticHypothesis` is not modelled. Neither is the fact that `SemanticHypothesis` is unhashable.
- `KeyInvariant` reads "source index set" as always true, because the field is a plain `int`. It reads "semantic data set" as `has_semantic_data`, because the field always holds a `SemanticData` object.
- Hashes follow 64-bit CPython 3.8+. String hashing is randomised per process and is not needed.
- `Utils.DeepCompare`: values that contain themselves (`a = []; a.append(a)`) cannot be built, so the `RecursionError` the source raises on a cyclic value, or on nesting deeper than Python's recursion limit, is not modelled.
- `DataStructures.SyntacticHypothesis.Equals` and `DataStructures.SemanticHypothesis.Less`: `other` is always a hypothesis. The source accepts any object and raises `AttributeError` when it has no `syntactic_hypothesis` or `score` attribute, for example in `hyp == None`. That error path is not modelled.
- `Utils.DeepCompare`: the atoms' `==` is a pure, total parameter. An `__eq__` that raises, has side effects or returns a non-`bool` is not modelled. Neither are dict keys whose `__hash__` and `__eq__` disagree.
- Grouping, score normalisation, slicing, shortening and restoring have no code in these files, so they are not modelled.

## Findings

| source | as written | input that shows it | evidently intended | confidence | as-written member | corrected member |
|---|---|---|---|---|---|---|
| generators/data_structures.py:137-138 | `hash(tuple(sequences.flatten()))` hashes the 0-d tensors that iterating the tensor creates. A tensor's `__hash__` is its object identity, so the hash depends on which objects were created, not on the token values. It therefore disagrees with `__eq__`, which compares tokens. | A hypothesis with tokens `[5]` whose element tensor is created at address 140000000000000 and, on a second call, at 140000000000016. It is equal to itself, but the two hashes are -830873347281192920 and 5892945722890445831. | Hash the token values, e.g. `hash(tuple(sequences.flatten().tolist()))`, so that equal hypotheses hash alike. | medium (relies on torch's identity hash of tensors); not executed | `DataStructures.HashAsWrittenBreaksEquality` | `DataStructures.HashConsistentWithEquality` |
