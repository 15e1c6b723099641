/**
 * The few Python built-ins the hypothesis data model relies on:
 * `str(int)` (used by the f-string that builds aggregation keys),
 * `hash(int)` and `hash(tuple)` as CPython 3.8+ computes them on a
 * 64-bit platform (used by `SyntacticHypothesis.__hash__`).
 */
module PyBuiltins {

  /* ---------------------------------------------------------------- */
  /* str(int)                                                         */
  /* ---------------------------------------------------------------- */

  predicate IsDigit(c: char) {
    '0' <= c <= '9'
  }

  predicate AllDigits(s: string) {
    forall i :: 0 <= i < |s| ==> IsDigit(s[i])
  }

  function DigitChar(d: nat): (c: char)
    requires d < 10
    ensures IsDigit(c) && (c as int) - ('0' as int) == d
  {
    (('0' as int) + d) as char
  }

  /** The value of a string of decimal digits, most significant first. */
  function DecimalValue(s: string): nat
    requires AllDigits(s)
  {
    if s == [] then 0
    else DecimalValue(s[..|s| - 1]) * 10 + ((s[|s| - 1] as int) - ('0' as int))
  }

  /** The decimal digits of `n` as `str` prints them: non-empty, no leading zero. */
  function NatToDecimal(n: nat): (s: string)
    ensures |s| >= 1 && AllDigits(s)
    ensures s[0] == '0' ==> n == 0
    decreases n
  {
    if n < 10 then [DigitChar(n)] else NatToDecimal(n / 10) + [DigitChar(n % 10)]
  }

  lemma {:induction false} DecimalRoundTrip(n: nat)
    ensures DecimalValue(NatToDecimal(n)) == n
    decreases n
  {
    if n >= 10 {
      var s := NatToDecimal(n);
      DecimalRoundTrip(n / 10);
      assert s[..|s| - 1] == NatToDecimal(n / 10);
    }
  }

  /** `str(i)`: an optional minus sign, then the decimal digits of `|i|`. */
  function IntToStr(i: int): (s: string)
    ensures |s| >= 1
    ensures (s[0] == '-') <==> (i < 0)
    ensures i < 0 ==> s[1..] == NatToDecimal(-i)
    ensures i >= 0 ==> s == NatToDecimal(i)
    ensures '-' !in s[1..]
  {
    var digits := if i < 0 then NatToDecimal(-i) else NatToDecimal(i);
    assert forall k :: 0 <= k < |digits| ==> digits[k] != '-';
    if i < 0 then "-" + digits else digits
  }

  /** `int(s)` on what `str` produces: the inverse of `IntToStr`. */
  lemma IntToStrRoundTrip(i: int)
    ensures var s := IntToStr(i);
      if s[0] == '-' then AllDigits(s[1..]) && 0 - DecimalValue(s[1..]) == i
      else AllDigits(s) && DecimalValue(s) == i
  {
    if i < 0 { DecimalRoundTrip(-i); } else { DecimalRoundTrip(i); }
  }

  /* ---------------------------------------------------------------- */
  /* hash(int) and hash(tuple)                                        */
  /* ---------------------------------------------------------------- */

  /** The modulus of numeric hashing on a 64-bit CPython: 2**61 - 1. */
  const HashModulus: int := 0x1FFF_FFFF_FFFF_FFFF
  const Word: int := 0x1_0000_0000_0000_0000
  const HalfWord: int := 0x8000_0000_0000_0000

  /** A value of C's `Py_hash_t`: a signed 64-bit integer. */
  predicate IsHashValue(h: int) {
    -HalfWord <= h < HalfWord
  }

  /** `hash(n)` for a Python `int`; -1 is reserved for errors and becomes -2. */
  function IntHash(n: int): (h: int)
    ensures IsHashValue(h) && h != -1
    ensures 0 <= n < HashModulus ==> h == n
    ensures -HashModulus < h < HashModulus
    ensures (h < 0) ==> (n < 0)
  {
    var r := if n >= 0 then n % HashModulus else -((-n) % HashModulus);
    if r == -1 then -2 else r
  }

  /** The xxHash primes CPython uses to combine tuple items. */
  const XXPrime1: bv64 := 11400714785074694791
  const XXPrime2: bv64 := 14029467366897019727
  const XXPrime5: bv64 := 2870177450012600261
  /** `_PyHASH_XXPRIME_5 ^ 3527539`, mixed into the length. */
  const LengthMask: bv64 := 2870177450013471926

  /** Reinterprets a `Py_hash_t` as the unsigned `Py_uhash_t` lane. */
  function Lane(h: int): bv64 {
    (h % Word) as bv64
  }

  function Lanes(hs: seq<int>): (ls: seq<bv64>)
    ensures |ls| == |hs|
    ensures forall i :: 0 <= i < |hs| ==> ls[i] == Lane(hs[i])
  {
    seq(|hs|, i requires 0 <= i < |hs| => Lane(hs[i]))
  }

  /** Reinterprets a `Py_uhash_t` as the signed `Py_hash_t`. */
  function Signed(w: bv64): (h: int)
    ensures IsHashValue(h)
    ensures (h == -1) <==> (w as int == Word - 1)
  {
    if w as int >= HalfWord then w as int - Word else w as int
  }

  /**
   * The accumulator after absorbing every lane, in order; each round is
   * `acc += lane * PRIME_2; acc = ROTATE_LEFT(acc, 31); acc *= PRIME_1`
   * on 64-bit words.
   */
  function TupleAccumulator(lanes: seq<bv64>): bv64
    decreases |lanes|
  {
    if lanes == [] then XXPrime5
    else
      var acc := TupleAccumulator(lanes[..|lanes| - 1]);
      (acc + lanes[|lanes| - 1] * XXPrime2).RotateLeft(31) * XXPrime1
  }

  /**
   * `hash(t)` for a tuple whose items hash to the unsigned `lanes`: the
   * accumulator plus the mangled length, where the one unsigned result
   * that would read as -1 is replaced. An item hash is never -1 (CPython
   * reserves -1 for a raised error), so the error branch of the C loop is
   * not modelled.
   */
  function TupleHashOfLanes(lanes: seq<bv64>): (h: int)
    ensures IsHashValue(h) && h != -1
  {
    var len := (|lanes| % Word) as bv64;
    var acc := TupleAccumulator(lanes) + (len ^ LengthMask);
    if acc as int == Word - 1 then 1546275796 else Signed(acc)
  }

  /** `hash(t)` for a tuple whose items hash to `itemHashes`. */
  function TupleHash(itemHashes: seq<int>): (h: int)
    ensures IsHashValue(h) && h != -1
  {
    TupleHashOfLanes(Lanes(itemHashes))
  }

  /** The constants reproduce CPython's well-known `hash(())`. */
  lemma EmptyTupleHash()
    ensures TupleHash([]) == 5740354900026072187
  {
  }

  /** The constants reproduce CPython's `hash((5,))`. */
  lemma SingleItemTupleHash()
    ensures TupleHash([5]) == -7813438383599366905
  {
    assert Lanes([5]) == [5] by {
      assert Lane(5) == 5;
    }
    assert TupleAccumulator([5]) == 7763128240096712784 by {
      assert [5 as bv64][..0] == [];
    }
  }

}
