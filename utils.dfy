/**
 * `deep_compare` (generators/utils.py): structural equality that recurses
 * into dicts and lists and falls back to the values' own `==` everywhere
 * else, tuples included.
 *
 * A value is a dict, a list, or any other object (an atom). Each carries
 * the name of its runtime class, so that two dicts (or lists) of
 * different subclasses have different types, as `type(x)` tells them
 * apart. The atoms' `==` is user code this model cannot see: it is the
 * parameter `eq`.
 */
module Utils {

  datatype Value<K(==), P> =
    | Dict(dictClass: string, entries: map<K, Value<K, P>>)
    | List(listClass: string, items: seq<Value<K, P>>)
    | Atom(atomClass: string, payload: P)

  /** `type(v)`: the kind of value together with its class name. */
  datatype PyType = DictType(name: string) | ListType(name: string) | AtomType(name: string)

  function TypeOf<K(==), P>(v: Value<K, P>): PyType {
    match v
    case Dict(c, _) => DictType(c)
    case List(c, _) => ListType(c)
    case Atom(c, _) => AtomType(c)
  }

  /**
   * `deep_compare(a, b)`. The recursion descends into a component of `a`
   * at every call, so it terminates on every acyclic value (the only kind
   * a `Value` can be).
   */
  function DeepCompare<K(==), P>(eq: (P, P) -> bool, a: Value<K, P>, b: Value<K, P>): (r: bool)
    ensures r ==> TypeOf(a) == TypeOf(b)
    ensures r && a.Dict? ==> b.Dict? && a.entries.Keys == b.entries.Keys
    ensures r && a.List? ==> b.List? && |a.items| == |b.items|
    decreases a
  {
    if TypeOf(a) != TypeOf(b) then false
    else
      match a
      case Dict(_, m) =>
        if m.Keys != b.entries.Keys then false
        else forall k | k in m :: DeepCompare(eq, m[k], b.entries[k])
      case List(_, s) =>
        if |s| != |b.items| then false
        else forall i | 0 <= i < |s| :: DeepCompare(eq, s[i], b.items[i])
      case Atom(_, p) =>
        eq(p, b.payload)
  }

  /** Values of different runtime types never compare equal. */
  lemma DifferentTypesCompareFalse<K, P>(eq: (P, P) -> bool, a: Value<K, P>, b: Value<K, P>)
    requires TypeOf(a) != TypeOf(b)
    ensures !DeepCompare(eq, a, b)
  {
  }

  /**
   * Two dicts of one type: different key sets compare false; otherwise
   * they compare true exactly when the values under every key do.
   */
  lemma DictCase<K, P>(eq: (P, P) -> bool, c: string, m: map<K, Value<K, P>>, n: map<K, Value<K, P>>)
    ensures m.Keys != n.Keys ==> !DeepCompare(eq, Dict(c, m), Dict(c, n))
    ensures m.Keys == n.Keys ==>
      (DeepCompare(eq, Dict(c, m), Dict(c, n)) <==> forall k :: k in m ==> DeepCompare(eq, m[k], n[k]))
  {
  }

  /**
   * Two lists of one type: different lengths compare false; otherwise
   * they compare true exactly when the elements at every position do.
   */
  lemma ListCase<K, P>(eq: (P, P) -> bool, c: string, s: seq<Value<K, P>>, t: seq<Value<K, P>>)
    ensures |s| != |t| ==> !DeepCompare(eq, List(c, s), List(c, t))
    ensures |s| == |t| ==>
      (DeepCompare(eq, List(c, s), List(c, t)) <==> forall i :: 0 <= i < |s| ==> DeepCompare(eq, s[i], t[i]))
  {
  }

  /** Every other value of one type, a tuple included, is compared with its own `==`, not recursed into. */
  lemma AtomCase<K, P>(eq: (P, P) -> bool, c: string, p: P, q: P)
    ensures DeepCompare<K, P>(eq, Atom(c, p), Atom(c, q)) == eq(p, q)
  {
  }

  /** Every atom inside `v` is `==` to itself. */
  predicate AtomsReflexive<K(==), P>(eq: (P, P) -> bool, v: Value<K, P>)
    decreases v
  {
    match v
    case Dict(_, m) => forall k | k in m :: AtomsReflexive(eq, m[k])
    case List(_, s) => forall i | 0 <= i < |s| :: AtomsReflexive(eq, s[i])
    case Atom(_, p) => eq(p, p)
  }

  /** A value deep-compares equal to itself when its atoms are `==` to themselves. */
  lemma {:induction false} DeepCompareReflexive<K, P>(eq: (P, P) -> bool, v: Value<K, P>)
    requires AtomsReflexive(eq, v)
    ensures DeepCompare(eq, v, v)
    decreases v
  {
    match v
    case Dict(_, m) =>
      forall k | k in m
        ensures DeepCompare(eq, m[k], m[k])
      {
        DeepCompareReflexive(eq, m[k]);
      }
    case List(_, s) =>
      forall i | 0 <= i < |s|
        ensures DeepCompare(eq, s[i], s[i])
      {
        DeepCompareReflexive(eq, s[i]);
      }
    case Atom(_, _) =>
  }

  /** The comparison is symmetric when the atoms' `==` is. */
  lemma {:induction false} DeepCompareSymmetric<K, P>(eq: (P, P) -> bool, a: Value<K, P>, b: Value<K, P>)
    requires forall p, q :: eq(p, q) == eq(q, p)
    ensures DeepCompare(eq, a, b) == DeepCompare(eq, b, a)
    decreases a
  {
    if TypeOf(a) == TypeOf(b) {
      match a
      case Dict(_, m) =>
        forall k | k in m && k in b.entries
          ensures DeepCompare(eq, m[k], b.entries[k]) == DeepCompare(eq, b.entries[k], m[k])
        {
          DeepCompareSymmetric(eq, m[k], b.entries[k]);
        }
      case List(_, s) =>
        forall i | 0 <= i < |s| && i < |b.items|
          ensures DeepCompare(eq, s[i], b.items[i]) == DeepCompare(eq, b.items[i], s[i])
        {
          DeepCompareSymmetric(eq, s[i], b.items[i]);
        }
      case Atom(_, _) =>
    }
  }

  /** The comparison is transitive when the atoms' `==` is. */
  lemma {:induction false} DeepCompareTransitive<K, P>(
    eq: (P, P) -> bool, a: Value<K, P>, b: Value<K, P>, c: Value<K, P>)
    requires forall p, q, r :: eq(p, q) && eq(q, r) ==> eq(p, r)
    requires DeepCompare(eq, a, b) && DeepCompare(eq, b, c)
    ensures DeepCompare(eq, a, c)
    decreases a
  {
    match a
    case Dict(_, m) =>
      forall k | k in m
        ensures DeepCompare(eq, m[k], c.entries[k])
      {
        DeepCompareTransitive(eq, m[k], b.entries[k], c.entries[k]);
      }
    case List(_, s) =>
      forall i | 0 <= i < |s|
        ensures DeepCompare(eq, s[i], c.items[i])
      {
        DeepCompareTransitive(eq, s[i], b.items[i], c.items[i]);
      }
    case Atom(_, _) =>
  }

  /**
   * When the atoms' `==` is plain equality, `deep_compare` is exactly
   * structural equality of the values.
   */
  lemma {:induction false} DeepCompareIsStructuralEquality<K, P>(
    eq: (P, P) -> bool, a: Value<K, P>, b: Value<K, P>)
    requires forall p, q :: eq(p, q) == (p == q)
    ensures DeepCompare(eq, a, b) <==> a == b
    decreases a
  {
    if a == b {
      AtomsReflexiveUnderEquality(eq, a);
      DeepCompareReflexive(eq, a);
    }
    if DeepCompare(eq, a, b) {
      match a
      case Dict(_, m) =>
        forall k | k in m
          ensures m[k] == b.entries[k]
        {
          DeepCompareIsStructuralEquality(eq, m[k], b.entries[k]);
        }
        assert m == b.entries;
      case List(_, s) =>
        forall i | 0 <= i < |s|
          ensures s[i] == b.items[i]
        {
          DeepCompareIsStructuralEquality(eq, s[i], b.items[i]);
        }
        assert s == b.items;
      case Atom(_, _) =>
    }
  }

  lemma {:induction false} AtomsReflexiveUnderEquality<K, P>(eq: (P, P) -> bool, v: Value<K, P>)
    requires forall p, q :: eq(p, q) == (p == q)
    ensures AtomsReflexive(eq, v)
    decreases v
  {
    match v
    case Dict(_, m) =>
      forall k | k in m
        ensures AtomsReflexive(eq, m[k])
      {
        AtomsReflexiveUnderEquality(eq, m[k]);
      }
    case List(_, s) =>
      forall i | 0 <= i < |s|
        ensures AtomsReflexive(eq, s[i])
      {
        AtomsReflexiveUnderEquality(eq, s[i]);
      }
    case Atom(_, _) =>
  }

}
