/**
 * The subsets of a finite set, listed the way `itertools` lists them: the
 * set is first turned into a list, then the combinations of 0, 1, 2, ...
 * elements are taken in turn, each size in lexicographic order of positions.
 */
module Subsets {

  /** The elements of a list, as a set. */
  function Elements<T>(xs: seq<T>): set<T> {
    set x | x in xs
  }

  /** The picks of `r` elements of `xs`, in the order of `itertools.combinations(xs, r)`. */
  function Combinations<T>(xs: seq<T>, r: nat): seq<seq<T>>
    decreases |xs|
  {
    if r == 0 then [[]]
    else if xs == [] then []
    else Prefixed(xs[0], Combinations(xs[1..], r - 1)) + Combinations(xs[1..], r)
  }

  /** Every pick of `cs` with `x` put in front. */
  function Prefixed<T>(x: T, cs: seq<seq<T>>): (r: seq<seq<T>>)
    ensures |r| == |cs|
  {
    if cs == [] then [] else [[x] + cs[0]] + Prefixed(x, cs[1..])
  }

  /** The picks of every size from `r` up to |xs|, smaller sizes first. */
  function CombinationsFrom<T>(xs: seq<T>, r: nat): seq<seq<T>>
    decreases |xs| + 1 - r
  {
    if r > |xs| then [] else Combinations(xs, r) + CombinationsFrom(xs, r + 1)
  }

  /** Each pick turned into a set. */
  function ToSets<T>(cs: seq<seq<T>>): (r: seq<set<T>>)
    ensures |r| == |cs|
    ensures forall i | 0 <= i < |cs| :: r[i] == Elements(cs[i])
  {
    if cs == [] then [] else [Elements(cs[0])] + ToSets(cs[1..])
  }

  /** The original's `powerset`, applied to the list the set was turned into. */
  function Powerset<T>(xs: seq<T>): seq<set<T>> {
    ToSets(CombinationsFrom(xs, 0))
  }

  // ---------------------------------------------------------------------------
  // Only subsets
  // ---------------------------------------------------------------------------

  lemma ElementsCons<T>(x: T, c: seq<T>)
    ensures Elements([x] + c) == {x} + Elements(c)
  {
    assert forall y :: y in [x] + c <==> y == x || y in c;
  }

  /** Whatever is in the tail of a list is in the list. */
  lemma TailElements<T>(xs: seq<T>)
    requires xs != []
    ensures forall y | y in xs[1..] :: y in xs
  {
    assert xs == [xs[0]] + xs[1..];
  }

  /** Membership in a concatenation. */
  lemma InAppend<T>(a: seq<T>, b: seq<T>, c: T)
    ensures c in a + b <==> c in a || c in b
  {
  }

  /** Entry i of the prefixed picks is pick i with x in front. */
  lemma {:induction false} PrefixedAt<T>(x: T, cs: seq<seq<T>>, i: nat)
    requires i < |cs|
    ensures Prefixed(x, cs)[i] == [x] + cs[i]
  {
    if i > 0 {
      PrefixedAt(x, cs[1..], i - 1);
    }
  }

  /** A pick with x put in front comes from a pick in `cs`. */
  lemma PrefixedPick<T>(x: T, cs: seq<seq<T>>, c: seq<T>)
    requires c in Prefixed(x, cs)
    ensures exists c' | c' in cs :: c == [x] + c'
  {
    var i :| 0 <= i < |cs| && Prefixed(x, cs)[i] == c;
    PrefixedAt(x, cs, i);
    assert cs[i] in cs;
  }

  /** A pick of r elements has r entries, all taken from `xs`. */
  lemma {:induction false} CombinationsPick<T>(xs: seq<T>, r: nat, c: seq<T>)
    requires c in Combinations(xs, r)
    ensures |c| == r && forall y | y in c :: y in xs
  {
    if r > 0 && xs != [] {
      var rest := xs[1..];
      var pre := Prefixed(xs[0], Combinations(rest, r - 1));
      assert Combinations(xs, r) == pre + Combinations(rest, r);
      InAppend(pre, Combinations(rest, r), c);
      assert forall y | y in rest :: y in xs by {
        TailElements(xs);
      }
      if c in pre {
        PrefixedPick(xs[0], Combinations(rest, r - 1), c);
        var c' :| c' in Combinations(rest, r - 1) && c == [xs[0]] + c';
        CombinationsPick(rest, r - 1, c');
      } else {
        CombinationsPick(rest, r, c);
      }
    }
  }

  /** Every pick of any size is a pick of some size between `r` and |xs|. */
  lemma {:induction false} CombinationsFromPick<T>(xs: seq<T>, r: nat, c: seq<T>)
    requires c in CombinationsFrom(xs, r)
    ensures exists s: nat | r <= s <= |xs| :: c in Combinations(xs, s)
    decreases |xs| + 1 - r
  {
    if c !in Combinations(xs, r) {
      CombinationsFromPick(xs, r + 1, c);
    }
  }

  /** Every set that `powerset` lists is a subset of the original set. */
  lemma PowersetOnlySubsets<T>(xs: seq<T>)
    ensures forall s | s in Powerset(xs) :: s <= Elements(xs)
  {
    forall s | s in Powerset(xs) ensures s <= Elements(xs) {
      var cs := CombinationsFrom(xs, 0);
      var i :| 0 <= i < |cs| && Powerset(xs)[i] == s;
      CombinationsFromPick(xs, 0, cs[i]);
      var r: nat :| r <= |xs| && cs[i] in Combinations(xs, r);
      CombinationsPick(xs, r, cs[i]);
      assert s == Elements(cs[i]);
    }
  }

  // ---------------------------------------------------------------------------
  // Every subset
  // ---------------------------------------------------------------------------

  /** Every subset of the elements is the set of some pick of at most |xs| elements. */
  lemma {:induction false} SubsetIsPicked<T>(xs: seq<T>, s: set<T>)
    requires s <= Elements(xs)
    ensures exists r: nat, c | r <= |xs| && c in Combinations(xs, r) :: Elements(c) == s
  {
    if xs == [] {
      assert s == {};
      var none: seq<T> := [];
      assert none in Combinations(xs, 0);
      assert Elements(none) == s;
    } else {
      var x, rest := xs[0], xs[1..];
      assert xs == [x] + rest;
      var s' := s - {x};
      assert s' <= Elements(rest);
      SubsetIsPicked(rest, s');
      var r': nat, c' :| r' <= |rest| && c' in Combinations(rest, r') && Elements(c') == s';
      if x in s {
        var i :| 0 <= i < |Combinations(rest, r')| && Combinations(rest, r')[i] == c';
        var pre := Prefixed(x, Combinations(rest, r'));
        PrefixedAt(x, Combinations(rest, r'), i);
        assert pre[i] == [x] + c';
        assert [x] + c' in Combinations(xs, r' + 1);
        ElementsCons(x, c');
      } else {
        assert s' == s;
        if r' == 0 {
          assert c' == [];
          assert c' in Combinations(xs, 0);
        } else {
          assert c' in Combinations(xs, r');
        }
      }
    }
  }

  /** A pick of size s is listed among the picks of sizes r..|xs| whenever r <= s. */
  lemma {:induction false} PickListed<T>(xs: seq<T>, r: nat, s: nat, c: seq<T>)
    requires r <= s <= |xs| && c in Combinations(xs, s)
    ensures c in CombinationsFrom(xs, r)
    decreases s - r
  {
    assert CombinationsFrom(xs, r) == Combinations(xs, r) + CombinationsFrom(xs, r + 1);
    InAppend(Combinations(xs, r), CombinationsFrom(xs, r + 1), c);
    if r < s {
      PickListed(xs, r + 1, s, c);
    }
  }

  /** Every subset of the original set is listed by `powerset`. */
  lemma PowersetEverySubset<T>(xs: seq<T>, s: set<T>)
    requires s <= Elements(xs)
    ensures s in Powerset(xs)
  {
    SubsetIsPicked(xs, s);
    var r: nat, c :| r <= |xs| && c in Combinations(xs, r) && Elements(c) == s;
    PickListed(xs, 0, r, c);
    var cs := CombinationsFrom(xs, 0);
    var i :| 0 <= i < |cs| && cs[i] == c;
    assert Powerset(xs)[i] == s;
  }

  /** The empty set comes first. */
  lemma PowersetStartsEmpty<T>(xs: seq<T>)
    ensures |Powerset(xs)| > 0 && Powerset(xs)[0] == {}
  {
    assert CombinationsFrom(xs, 0)[0] == [];
  }

  // ---------------------------------------------------------------------------
  // 2^n subsets
  // ---------------------------------------------------------------------------

  function Binomial(n: nat, r: nat): nat {
    if r == 0 then 1 else if n == 0 then 0 else Binomial(n - 1, r - 1) + Binomial(n - 1, r)
  }

  function Pow2(n: nat): nat {
    if n == 0 then 1 else 2 * Pow2(n - 1)
  }

  /** Binomial(n, r) + Binomial(n, r + 1) + ... + Binomial(n, n). */
  function BinomialsFrom(n: nat, r: nat): nat
    decreases n + 1 - r
  {
    if r > n then 0 else Binomial(n, r) + BinomialsFrom(n, r + 1)
  }

  lemma {:induction false} CombinationsCount<T>(xs: seq<T>, r: nat)
    ensures |Combinations(xs, r)| == Binomial(|xs|, r)
  {
    if r > 0 && xs != [] {
      CombinationsCount(xs[1..], r - 1);
      CombinationsCount(xs[1..], r);
    }
  }

  lemma {:induction false} CombinationsFromCount<T>(xs: seq<T>, r: nat)
    ensures |CombinationsFrom(xs, r)| == BinomialsFrom(|xs|, r)
    decreases |xs| + 1 - r
  {
    if r <= |xs| {
      CombinationsCount(xs, r);
      CombinationsFromCount(xs, r + 1);
    }
  }

  lemma {:induction false} BinomialBeyond(n: nat, r: nat)
    requires r > n
    ensures Binomial(n, r) == 0
  {
    if n > 0 {
      BinomialBeyond(n - 1, r - 1);
      BinomialBeyond(n - 1, r);
    }
  }

  /** Pascal's rule, summed over r..n. */
  lemma {:induction false} BinomialsFromPascal(n: nat, r: nat)
    requires n > 0 && r > 0
    ensures BinomialsFrom(n, r) == BinomialsFrom(n - 1, r - 1) + BinomialsFrom(n - 1, r)
    decreases n + 1 - r
  {
    if r <= n {
      BinomialsFromPascal(n, r + 1);
      if r == n {
        BinomialBeyond(n - 1, r);
      }
    }
  }

  lemma {:induction false} BinomialsSum(n: nat)
    ensures BinomialsFrom(n, 0) == Pow2(n)
  {
    if n > 0 {
      BinomialsFromPascal(n, 1);
      BinomialsSum(n - 1);
    }
  }

  /** A list of n elements has 2^n subsets listed (the list of a set has no repeats). */
  lemma PowersetCount<T>(xs: seq<T>)
    ensures |Powerset(xs)| == Pow2(|xs|)
  {
    CombinationsFromCount(xs, 0);
    BinomialsSum(|xs|);
  }
}
