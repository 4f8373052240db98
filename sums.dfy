/**
 * Finite sums of real-valued maps, taken over an explicit enumeration of the
 * keys. The original program iterates Python dictionaries, whose iteration
 * order is their insertion order; here that order is a sequence of keys.
 */
module Sums {

  /** No key is enumerated twice. */
  predicate Distinct<K(==)>(s: seq<K>) {
    forall i, j | 0 <= i < j < |s| :: s[i] != s[j]
  }

  /** `order` lists every element of `keys` exactly once, and nothing else. */
  predicate IsEnumeration<K(==)>(order: seq<K>, keys: set<K>) {
    Distinct(order) && (forall k | k in order :: k in keys) && (forall k | k in keys :: k in order)
  }

  /** The sum of `m` over the keys in `keys`, accumulated left to right as a loop does. */
  function SumOver<K>(keys: seq<K>, m: map<K, real>): real
    requires forall k | k in keys :: k in m
  {
    if keys == [] then 0.0 else SumOver(keys[..|keys| - 1], m) + m[keys[|keys| - 1]]
  }

  /** One more step of a left-to-right accumulation loop. */
  lemma SumOverSnoc<K>(keys: seq<K>, i: nat, m: map<K, real>)
    requires i < |keys|
    requires forall k | k in keys :: k in m
    ensures SumOver(keys[..i + 1], m) == SumOver(keys[..i], m) + m[keys[i]]
  {
    assert keys[..i + 1][..i] == keys[..i];
  }

  /** Splitting off the first key instead of the last. */
  lemma {:induction false} SumOverCons<K>(keys: seq<K>, m: map<K, real>)
    requires keys != []
    requires forall k | k in keys :: k in m
    ensures SumOver(keys, m) == m[keys[0]] + SumOver(keys[1..], m)
  {
    if |keys| > 1 {
      var init := keys[..|keys| - 1];
      SumOverCons(init, m);
      assert init[1..] == keys[1..][..|keys[1..]| - 1];
    }
  }

  /** Sums only depend on the values at the enumerated keys. */
  lemma {:induction false} SumOverAgree<K>(keys: seq<K>, m1: map<K, real>, m2: map<K, real>)
    requires forall k | k in keys :: k in m1 && k in m2 && m1[k] == m2[k]
    ensures SumOver(keys, m1) == SumOver(keys, m2)
  {
    if keys != [] {
      SumOverAgree(keys[..|keys| - 1], m1, m2);
    }
  }

  /** A constant map sums to the number of keys times the constant. */
  lemma {:induction false} SumOverConst<K>(keys: seq<K>, m: map<K, real>, c: real)
    requires forall k | k in keys :: k in m && m[k] == c
    ensures SumOver(keys, m) == |keys| as real * c
  {
    if keys != [] {
      SumOverConst(keys[..|keys| - 1], m, c);
    }
  }

  /** Summation is linear: `m = a + c * b` pointwise gives the same relation for the sums. */
  lemma {:induction false} SumOverLinear<K>(keys: seq<K>, m: map<K, real>, a: map<K, real>, c: real, b: map<K, real>)
    requires forall k | k in keys :: k in m && k in a && k in b && m[k] == a[k] + c * b[k]
    ensures SumOver(keys, m) == SumOver(keys, a) + c * SumOver(keys, b)
  {
    if keys != [] {
      SumOverLinear(keys[..|keys| - 1], m, a, c, b);
    }
  }

  /** Nonnegative values have a nonnegative sum that bounds each enumerated value. */
  lemma {:induction false} SumOverNonneg<K>(keys: seq<K>, m: map<K, real>)
    requires forall k | k in keys :: k in m && m[k] >= 0.0
    ensures SumOver(keys, m) >= 0.0
    ensures forall k | k in keys :: m[k] <= SumOver(keys, m)
  {
    if keys != [] {
      SumOverNonneg(keys[..|keys| - 1], m);
    }
  }

  /**
   * Adding `c` at one enumerated key (and nothing elsewhere) adds `c` to the sum,
   * provided the key is enumerated only once.
   */
  lemma {:induction false} SumOverBump<K>(keys: seq<K>, m1: map<K, real>, m2: map<K, real>, x: K, c: real)
    requires Distinct(keys) && x in keys
    requires forall k | k in keys :: k in m1 && k in m2 && m2[k] == m1[k] + (if k == x then c else 0.0)
    ensures SumOver(keys, m2) == SumOver(keys, m1) + c
  {
    var init := keys[..|keys| - 1];
    var last := keys[|keys| - 1];
    if last == x {
      assert x !in init;
      SumOverAgree(init, m1, m2);
    } else {
      assert x in init;
      SumOverBump(init, m1, m2, x, c);
    }
  }

  /**
   * `n` copies of `w` added up. Sums of shares are stated with it rather than with
   * `n as real * w`, which the solver handles badly next to sequence reasoning.
   */
  function Scale(n: nat, w: real): real {
    if n == 0 then 0.0 else Scale(n - 1, w) + w
  }

  lemma {:induction false} ScaleMul(n: nat, w: real)
    ensures Scale(n, w) == n as real * w
  {
    if n > 0 {
      ScaleMul(n - 1, w);
    }
  }

  /**
   * A map worth `w + j` on the members of `s` and `j` elsewhere sums to
   * |s| copies of `w` plus one `j` per key, when the enumeration is
   * duplicate-free and covers `s`.
   */
  lemma {:induction false} SumOverSpread<K>(keys: seq<K>, m: map<K, real>, s: set<K>, w: real, j: real)
    requires Distinct(keys)
    requires forall k | k in s :: k in keys
    requires forall k | k in keys :: k in m && m[k] == (if k in s then w else 0.0) + j
    ensures SumOver(keys, m) == Scale(|s|, w) + Scale(|keys|, j)
  {
    if keys == [] {
      assert s == {};
    } else {
      var init, last := keys[..|keys| - 1], keys[|keys| - 1];
      var rest := s - {last};
      LastNotInInit(keys);
      forall k | k in rest ensures k in init {
        var i :| 0 <= i < |keys| && keys[i] == k;
        assert init[i] == k;
      }
      SumOverSpread(init, m, rest, w, j);
      if last in s {
        assert |rest| == |s| - 1;
      } else {
        assert rest == s;
      }
    }
  }

  /** In a duplicate-free sequence the last element does not occur before. */
  lemma LastNotInInit<K>(keys: seq<K>)
    requires Distinct(keys) && keys != []
    ensures Distinct(keys[..|keys| - 1])
    ensures keys[|keys| - 1] !in keys[..|keys| - 1]
  {
  }

  /** A duplicate-free enumeration of a set is as long as the set is large. */
  lemma {:induction false} EnumerationLength<K>(order: seq<K>, keys: set<K>)
    requires IsEnumeration(order, keys)
    ensures |order| == |keys|
  {
    if order == [] {
      assert keys == {};
    } else {
      var init := order[..|order| - 1];
      var last := order[|order| - 1];
      LastNotInInit(order);
      forall k | k in init ensures k in keys - {last} {
        var i :| 0 <= i < |init| && init[i] == k;
        assert order[i] == k;
      }
      forall k | k in keys - {last} ensures k in init {
        var i :| 0 <= i < |order| && order[i] == k;
        assert i != |order| - 1;
        assert init[i] == k;
      }
      EnumerationLength(init, keys - {last});
    }
  }

  // Real arithmetic facts that the solver finds only in a small context.

  lemma DivideSum(a: real, b: real, n: real)
    requires n != 0.0
    ensures (a + b) / n == a / n + b / n
  {
  }

  lemma DivideBounds(a: real, n: real)
    requires 0.0 <= a <= n
    requires n > 0.0
    ensures 0.0 <= a / n <= 1.0
  {
  }

  lemma MultiplyDivide(a: real, n: real)
    requires n != 0.0
    ensures n * (a / n) == a
  {
  }

  lemma MultiplyNonneg(a: real, b: real)
    requires a >= 0.0 && b >= 0.0
    ensures a * b >= 0.0
  {
  }

  lemma DivideSelf(n: real)
    requires n != 0.0
    ensures n / n == 1.0
  {
  }
}
