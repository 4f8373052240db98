/**
 * Inference of gene and trait probabilities in a family: every assignment of
 * gene counts (0, 1 or 2 copies) and traits to the people that agrees with
 * the known traits is weighed by its joint probability, the weights are
 * accumulated per person, and each person's distributions are normalised.
 */
module Heredity {
  import opened Wrappers
  import opened Sums
  import opened Subsets

  type Name = string

  /**
   * One row of the family table. A missing parent or unknown trait is `None`; a
   * person has both parents or neither, and a given parent name is not empty.
   */
  datatype Person = Person(name: Name, mother: Option<Name>, father: Option<Name>, known: Option<bool>)

  type People = map<Name, Person>

  predicate ParentsGiven(p: Person) {
    p.mother.Some? == p.father.Some? &&
    (p.mother.Some? ==> p.mother.value != "" && p.father.value != "")
  }

  /** The table as loaded: each row is stored under its own name. */
  predicate Family(people: People) {
    forall x | x in people :: people[x].name == x && ParentsGiven(people[x])
  }

  // ---------------------------------------------------------------------------
  // The fixed probabilities
  // ---------------------------------------------------------------------------

  /** The chance that a copy of the gene is altered when it is passed on. */
  const Mutation: real := 0.01

  /** The chance of carrying g copies for a person whose parents are unknown. */
  function GeneProb(g: nat): real
    requires g <= 2
  {
    if g == 2 then 0.01 else if g == 1 then 0.03 else 0.96
  }

  /** The chance of showing the trait (or not) with g copies. */
  function TraitProb(g: nat, shows: bool): real
    requires g <= 2
  {
    if g == 2 then (if shows then 0.65 else 0.35)
    else if g == 1 then (if shows then 0.56 else 0.44)
    else (if shows then 0.01 else 0.99)
  }

  /** The table is made of probability distributions, with no impossible outcome. */
  lemma ProbsAreDistributions()
    ensures GeneProb(2) + GeneProb(1) + GeneProb(0) == 1.0
    ensures forall g | 0 <= g <= 2 :: TraitProb(g, true) + TraitProb(g, false) == 1.0
    ensures forall g | 0 <= g <= 2 :: 0.0 < GeneProb(g) <= 1.0
    ensures forall g, shows | 0 <= g <= 2 :: 0.0 < TraitProb(g, shows) <= 1.0
    ensures 0.0 < Mutation < 1.0
  {
  }

  // ---------------------------------------------------------------------------
  // The inheritance table
  // ---------------------------------------------------------------------------

  /** The chance that a parent with i copies passes on k copies (k is 0 or 1). */
  function Pass(i: nat, k: nat): real
    requires i <= 2 && k <= 1
  {
    if i == 0 then (if k == 0 then 1.0 - Mutation else Mutation)
    else if i == 1 then 0.5
    else (if k == 0 then Mutation else 1.0 - Mutation)
  }

  /** The chances of passing on 0 and 1 copies, for a parent with i copies. */
  function Chances(i: nat): (c: seq<real>)
    requires i <= 2
    ensures |c| == 2
  {
    [Pass(i, 0), Pass(i, 1)]
  }

  /** A parent passes on 0 or 1 copies: positive chances summing to 1. */
  lemma ChancesSplit(i: nat)
    requires i <= 2
    ensures Chances(i)[0] + Chances(i)[1] == 1.0
    ensures 0.0 < Chances(i)[0] && 0.0 < Chances(i)[1]
  {
  }

  /** The mother's share in the n-th (mother, father) pair of the table loop: (0,0), (0,1), (1,0), (1,1). */
  function MotherShare(n: nat): nat {
    if n >= 2 then 1 else 0
  }

  function FatherShare(n: nat): nat {
    n - 2 * MotherShare(n)
  }

  /**
   * The chance of a child with g copies accumulated from the first n pairs,
   * for a mother passing on 0 or 1 copies with chances m and a father with f.
   */
  function Partial(g: nat, m: seq<real>, f: seq<real>, n: nat): real
    requires |m| == 2 && |f| == 2 && n <= 4
  {
    if n == 0 then 0.0
    else
      var k, l := MotherShare(n - 1), FatherShare(n - 1);
      Partial(g, m, f, n - 1) + (if k + l == g then m[k] * f[l] else 0.0)
  }

  /**
   * The chance that a child of parents with i and j copies has g copies,
   * written out; `InheritIsPairSum` shows it is what the pairs add up to.
   */
  function Inherit(g: nat, i: nat, j: nat): real
    requires g <= 2 && i <= 2 && j <= 2
  {
    var row :=
      if i == 0 then
        (if j == 0 then [0.9801, 0.0198, 0.0001] else if j == 1 then [0.495, 0.5, 0.005] else [0.0099, 0.9802, 0.0099])
      else if i == 1 then
        (if j == 0 then [0.495, 0.5, 0.005] else if j == 1 then [0.25, 0.5, 0.25] else [0.005, 0.5, 0.495])
      else
        (if j == 0 then [0.0099, 0.9802, 0.0099] else if j == 1 then [0.005, 0.5, 0.495] else [0.0001, 0.0198, 0.9801]);
    row[g]
  }

  /** Pair (k, l) adds its chance to the count k + l only. */
  lemma PartialStep(m: seq<real>, f: seq<real>, k: nat, l: nat, n: nat)
    requires |m| == 2 && |f| == 2 && k <= 1 && l <= 1 && n == 2 * k + l
    ensures forall g :: Partial(g, m, f, n + 1) == Partial(g, m, f, n) + (if g == k + l then m[k] * f[l] else 0.0)
  {
    assert MotherShare(n) == k && FatherShare(n) == l;
  }

  /** The four pairs written out: no copy from either, one from exactly one parent, one from each. */
  lemma PartialExpanded(m: seq<real>, f: seq<real>)
    requires |m| == 2 && |f| == 2
    ensures Partial(0, m, f, 4) == m[0] * f[0]
    ensures Partial(1, m, f, 4) == m[0] * f[1] + m[1] * f[0]
    ensures Partial(2, m, f, 4) == m[1] * f[1]
  {
    assert MotherShare(0) == 0 && FatherShare(0) == 0;
    assert MotherShare(1) == 0 && FatherShare(1) == 1;
    assert MotherShare(2) == 1 && FatherShare(2) == 0;
    assert MotherShare(3) == 1 && FatherShare(3) == 1;
    assert Partial(0, m, f, 4) == Partial(0, m, f, 3) == Partial(0, m, f, 2) == Partial(0, m, f, 1) == m[0] * f[0];
    assert Partial(1, m, f, 1) == 0.0;
    assert Partial(1, m, f, 2) == m[0] * f[1];
    assert Partial(1, m, f, 4) == Partial(1, m, f, 3) == m[0] * f[1] + m[1] * f[0];
    assert Partial(2, m, f, 3) == Partial(2, m, f, 2) == Partial(2, m, f, 1) == 0.0;
  }

  /** Two parents who each pass on 0 or 1 copies independently give the child a distribution over 0, 1, 2. */
  lemma PartialDistribution(m: seq<real>, f: seq<real>)
    requires |m| == 2 && |f| == 2
    requires m[0] + m[1] == 1.0 && f[0] + f[1] == 1.0
    requires 0.0 < m[0] && 0.0 < m[1] && 0.0 < f[0] && 0.0 < f[1]
    ensures Partial(0, m, f, 4) + Partial(1, m, f, 4) + Partial(2, m, f, 4) == 1.0
    ensures forall g | 0 <= g <= 2 :: 0.0 < Partial(g, m, f, 4) <= 1.0
  {
    PartialExpanded(m, f);
    MultiplyPositive(m[0], f[0]);
    MultiplyPositive(m[0], f[1]);
    MultiplyPositive(m[1], f[0]);
    MultiplyPositive(m[1], f[1]);
    SumOfProducts(m[0], m[1], f[0], f[1]);
    var x0, x1, x2 := Partial(0, m, f, 4), Partial(1, m, f, 4), Partial(2, m, f, 4);
    assert 0.0 < x0 && 0.0 < x1 && 0.0 < x2 && x0 + x1 + x2 == 1.0;
    forall g | 0 <= g <= 2 ensures 0.0 < Partial(g, m, f, 4) <= 1.0 {
      if g == 0 {} else if g == 1 {} else {}
    }
  }

  /** A row of three chances that are the pair products is the row of pair sums. */
  lemma RowIsPairSum(m: seq<real>, f: seq<real>, row: seq<real>)
    requires |m| == 2 && |f| == 2 && |row| == 3
    requires row[0] == m[0] * f[0] && row[1] == m[0] * f[1] + m[1] * f[0] && row[2] == m[1] * f[1]
    ensures forall g | 0 <= g <= 2 :: row[g] == Partial(g, m, f, 4)
  {
    PartialExpanded(m, f);
  }

  /** The written-out table is the sum over the four pairs of the parents' passing chances. */
  lemma InheritIsPairSum(i: nat, j: nat)
    requires i <= 2 && j <= 2
    ensures forall g | 0 <= g <= 2 :: Inherit(g, i, j) == Partial(g, Chances(i), Chances(j), 4)
  {
    var m, f := Chances(i), Chances(j);
    var row := [Inherit(0, i, j), Inherit(1, i, j), Inherit(2, i, j)];
    assert m == if i == 0 then [0.99, 0.01] else if i == 1 then [0.5, 0.5] else [0.01, 0.99];
    assert f == if j == 0 then [0.99, 0.01] else if j == 1 then [0.5, 0.5] else [0.01, 0.99];
    assert row[0] == m[0] * f[0] && row[1] == m[0] * f[1] + m[1] * f[0] && row[2] == m[1] * f[1] by {
      if i == 0 {
        if j == 0 {} else if j == 1 {} else {}
      } else if i == 1 {
        if j == 0 {} else if j == 1 {} else {}
      } else {
        if j == 0 {} else if j == 1 {} else {}
      }
    }
    RowIsPairSum(m, f, row);
  }

  /** For each pair of parents, the child's gene count is distributed: positive chances summing to 1. */
  lemma InheritanceRowsSumToOne(i: nat, j: nat)
    requires i <= 2 && j <= 2
    ensures Inherit(0, i, j) + Inherit(1, i, j) + Inherit(2, i, j) == 1.0
    ensures forall g | 0 <= g <= 2 :: 0.0 < Inherit(g, i, j) <= 1.0
  {
    ChancesSplit(i);
    ChancesSplit(j);
    PartialDistribution(Chances(i), Chances(j));
    InheritIsPairSum(i, j);
  }

  lemma MultiplyPositive(a: real, b: real)
    requires 0.0 < a && 0.0 < b
    ensures 0.0 < a * b
  {
  }

  lemma SumOfProducts(a0: real, a1: real, b0: real, b1: real)
    requires a0 + a1 == 1.0 && b0 + b1 == 1.0
    ensures a0 * b0 + (a0 * b1 + a1 * b0) + a1 * b1 == 1.0
  {
    calc {
      a0 * b0 + (a0 * b1 + a1 * b0) + a1 * b1;
      (a0 + a1) * (b0 + b1);
      1.0;
    }
  }

  /** A product of two chances is a chance. */
  lemma MultiplyChances(a: real, b: real)
    requires 0.0 < a <= 1.0 && 0.0 < b <= 1.0
    ensures 0.0 < a * b <= 1.0
    ensures a * b <= a
  {
    MultiplyPositive(a, b);
  }

  /** The entry of the 3x4x4 table: index 3 for both parents stands for "no parents" (the gene prior). */
  function TableEntry(g: nat, x: nat, y: nat): real
    requires g <= 2 && x <= 3 && y <= 3
  {
    if x <= 2 && y <= 2 then Inherit(g, x, y) else if x == 3 && y == 3 then GeneProb(g) else 0.0
  }

  /** The table once the cells before (i, j) in row-major order hold their chances. */
  function Filled(g: nat, x: nat, y: nat, i: nat, j: nat): real
    requires g <= 2 && x <= 3 && y <= 3
  {
    if x <= 2 && y <= 2 && (x < i || (x == i && y < j)) then Inherit(g, x, y)
    else if x == 3 && y == 3 then GeneProb(g) else 0.0
  }

  /** The chances that a parent with i copies passes on 0 and 1 copies, as the original sets them. */
  method PassingChances(i: nat) returns (chances: seq<real>)
    requires i <= 2
    ensures chances == Chances(i)
  {
    chances := [0.0, 0.0];
    if i == 0 {
      chances := chances[0 := 1.0 - Mutation][1 := Mutation];
    } else if i == 1 {
      chances := chances[0 := 0.5][1 := 0.5];
    } else {
      chances := chances[0 := Mutation][1 := 1.0 - Mutation];
    }
  }

  /** The two innermost loops: adds every (mother, father) pair's chance into cell (i, j). */
  method FillCell(prob: array3<real>, i: nat, j: nat, motherProb: seq<real>, fatherProb: seq<real>)
    requires prob.Length0 == 3 && prob.Length1 == 4 && prob.Length2 == 4 && i <= 2 && j <= 2
    requires |motherProb| == 2 && |fatherProb| == 2
    modifies prob
    ensures forall g | 0 <= g < 3 :: prob[g, i, j] == old(prob[g, i, j]) + Partial(g, motherProb, fatherProb, 4)
    ensures forall g, x, y | 0 <= g < 3 && 0 <= x < 4 && 0 <= y < 4 && (x != i || y != j) ::
      prob[g, x, y] == old(prob[g, x, y])
  {
    ghost var n := 0;
    for k := 0 to 2
      invariant n == 2 * k
      invariant forall g | 0 <= g < 3 :: prob[g, i, j] == old(prob[g, i, j]) + Partial(g, motherProb, fatherProb, n)
      invariant forall g, x, y | 0 <= g < 3 && 0 <= x < 4 && 0 <= y < 4 && (x != i || y != j) ::
        prob[g, x, y] == old(prob[g, x, y])
    {
      for l := 0 to 2
        invariant n == 2 * k + l
        invariant forall g | 0 <= g < 3 :: prob[g, i, j] == old(prob[g, i, j]) + Partial(g, motherProb, fatherProb, n)
        invariant forall g, x, y | 0 <= g < 3 && 0 <= x < 4 && 0 <= y < 4 && (x != i || y != j) ::
          prob[g, x, y] == old(prob[g, x, y])
      {
        PartialStep(motherProb, fatherProb, k, l, n);
        prob[k + l, i, j] := prob[k + l, i, j] + motherProb[k] * fatherProb[l];
        n := n + 1;
      }
    }
  }

  /** The original's `prob` table, filled by its nested loops. */
  method InheritanceTable() returns (prob: array3<real>)
    ensures fresh(prob)
    ensures prob.Length0 == 3 && prob.Length1 == 4 && prob.Length2 == 4
    ensures forall g, x, y | 0 <= g < 3 && 0 <= x < 4 && 0 <= y < 4 :: prob[g, x, y] == TableEntry(g, x, y)
  {
    prob := new real[3, 4, 4]((_, _, _) => 0.0);
    for i := 0 to 3
      invariant forall g, x, y | 0 <= g < 3 && 0 <= x < 4 && 0 <= y < 4 ::
        prob[g, x, y] == (if x == 3 && y == 3 && g < i then GeneProb(g) else 0.0)
    {
      prob[i, 3, 3] := GeneProb(i);
    }
    for i := 0 to 3
      invariant forall g, x, y | 0 <= g < 3 && 0 <= x < 4 && 0 <= y < 4 :: prob[g, x, y] == Filled(g, x, y, i, 0)
    {
      var motherProb := PassingChances(i);
      for j := 0 to 3
        invariant forall g, x, y | 0 <= g < 3 && 0 <= x < 4 && 0 <= y < 4 :: prob[g, x, y] == Filled(g, x, y, i, j)
      {
        var fatherProb := PassingChances(j);
        FillCell(prob, i, j, motherProb, fatherProb);
        InheritIsPairSum(i, j);
      }
    }
  }

  // ---------------------------------------------------------------------------
  // The joint probability of one assignment
  // ---------------------------------------------------------------------------

  /** The gene count assigned to a person: membership in `one` is checked first, then in `two`. */
  function GeneCount(x: Name, one: set<Name>, two: set<Name>): (g: nat)
    ensures g <= 2
  {
    if x in one then 1 else if x in two then 2 else 0
  }

  /** With disjoint `one` and `two`, as the enumeration produces them, each set gets its own count. */
  lemma GeneCountDisjoint(x: Name, one: set<Name>, two: set<Name>)
    requires one !! two
    ensures GeneCount(x, one, two) == 1 <==> x in one
    ensures GeneCount(x, one, two) == 2 <==> x in two
    ensures GeneCount(x, one, two) == 0 <==> x !in one && x !in two
  {
  }

  /** The original's `gene` dictionary: every person's assigned count. */
  method AssignGenes(people: People, order: seq<Name>, one: set<Name>, two: set<Name>) returns (gene: map<Name, nat>)
    requires IsEnumeration(order, people.Keys)
    ensures gene.Keys == people.Keys
    ensures forall x | x in gene :: gene[x] == GeneCount(x, one, two)
  {
    gene := map[];
    for i := 0 to |order|
      invariant gene.Keys == set x | x in order[..i]
      invariant forall x | x in gene :: gene[x] == GeneCount(x, one, two)
    {
      var x := order[i];
      assert order[..i + 1] == order[..i] + [x];
      if x in one {
        gene := gene[x := 1];
      } else if x in two {
        gene := gene[x := 2];
      } else {
        gene := gene[x := 0];
      }
    }
    assert order[..|order|] == order;
  }

  /** The chance of the person's gene count given the parents' counts, or the prior without parents. */
  function GeneFactor(p: Person, one: set<Name>, two: set<Name>): real
    requires ParentsGiven(p)
  {
    var g := GeneCount(p.name, one, two);
    if p.mother.None? && p.father.None? then GeneProb(g)
    else Inherit(g, GeneCount(p.mother.value, one, two), GeneCount(p.father.value, one, two))
  }

  /** The chance of the person's trait (shown or not) given the assigned gene count. */
  function TraitFactor(p: Person, one: set<Name>, two: set<Name>, have: set<Name>): real {
    TraitProb(GeneCount(p.name, one, two), p.name in have)
  }

  /** Every listed name is a person of the family with both parents or neither. */
  predicate Listed(people: People, keys: seq<Name>) {
    forall x | x in keys :: x in people && ParentsGiven(people[x])
  }

  /** The product of a list of numbers, multiplied in from the left starting at 1. */
  function Product(xs: seq<real>): real {
    if xs == [] then 1.0 else Product(xs[..|xs| - 1]) * xs[|xs| - 1]
  }

  /** The factors in the order the original multiplies them in: each person's gene factor, then trait factor. */
  function Factors(people: People, keys: seq<Name>, one: set<Name>, two: set<Name>, have: set<Name>): (fs: seq<real>)
    requires Listed(people, keys)
    ensures |fs| == 2 * |keys|
  {
    if keys == [] then []
    else
      var p := people[keys[|keys| - 1]];
      Factors(people, keys[..|keys| - 1], one, two, have) + [GeneFactor(p, one, two), TraitFactor(p, one, two, have)]
  }

  /** The joint probability of an assignment of gene counts and traits to the listed people. */
  function Joint(people: People, keys: seq<Name>, one: set<Name>, two: set<Name>, have: set<Name>): real
    requires Listed(people, keys)
  {
    Product(Factors(people, keys, one, two, have))
  }

  /** Two more factors multiply the product by each in turn. */
  lemma ProductStep(xs: seq<real>, acc: real, a: real, b: real)
    requires acc == Product(xs)
    ensures acc * a * b == Product(xs + [a, b])
  {
    var ys, zs := xs + [a], xs + [a, b];
    assert zs[..|zs| - 1] == ys && zs[|zs| - 1] == b;
    assert ys[..|ys| - 1] == xs && ys[|ys| - 1] == a;
    assert Product(ys) == acc * a;
    assert Product(zs) == Product(ys) * b;
  }

  /** A product of chances is a chance. */
  lemma {:induction false} ProductOfChances(xs: seq<real>)
    requires forall i | 0 <= i < |xs| :: 0.0 < xs[i] <= 1.0
    ensures 0.0 < Product(xs) <= 1.0
  {
    if xs != [] {
      var init := xs[..|xs| - 1];
      ProductOfChances(init);
      MultiplyChances(Product(init), xs[|xs| - 1]);
    }
  }

  /** Both of a person's factors are positive chances. */
  lemma FactorsAreChances(p: Person, one: set<Name>, two: set<Name>, have: set<Name>)
    requires ParentsGiven(p)
    ensures 0.0 < GeneFactor(p, one, two) <= 1.0
    ensures 0.0 < TraitFactor(p, one, two, have) <= 1.0
  {
    ProbsAreDistributions();
    if p.mother.Some? {
      InheritanceRowsSumToOne(GeneCount(p.mother.value, one, two), GeneCount(p.father.value, one, two));
    }
  }

  /** Every factor is a positive chance. */
  lemma {:induction false} FactorsBetween(people: People, keys: seq<Name>, one: set<Name>, two: set<Name>, have: set<Name>)
    requires Listed(people, keys)
    ensures forall i | 0 <= i < 2 * |keys| :: 0.0 < Factors(people, keys, one, two, have)[i] <= 1.0
  {
    if keys != [] {
      var p := people[keys[|keys| - 1]];
      FactorsBetween(people, keys[..|keys| - 1], one, two, have);
      FactorsAreChances(p, one, two, have);
    }
  }

  /** The joint probability is a positive chance: no assignment is ruled out. */
  lemma JointIsChance(people: People, keys: seq<Name>, one: set<Name>, two: set<Name>, have: set<Name>)
    requires Listed(people, keys)
    ensures 0.0 < Joint(people, keys, one, two, have) <= 1.0
  {
    FactorsBetween(people, keys, one, two, have);
    ProductOfChances(Factors(people, keys, one, two, have));
  }

  /** One more person adds that person's two factors. */
  lemma FactorsSnoc(people: People, keys: seq<Name>, n: nat, one: set<Name>, two: set<Name>, have: set<Name>)
    requires 0 < n <= |keys| && Listed(people, keys)
    ensures Listed(people, keys[..n]) && Listed(people, keys[..n - 1])
    ensures Factors(people, keys[..n], one, two, have) ==
      Factors(people, keys[..n - 1], one, two, have) +
      [GeneFactor(people[keys[n - 1]], one, two), TraitFactor(people[keys[n - 1]], one, two, have)]
  {
    assert keys[..n][..n - 1] == keys[..n - 1];
  }

  /** One person's two factors, chosen as the original's loop body chooses them. */
  method PersonFactors(p: Person, prob: array3<real>, one: set<Name>, two: set<Name>, have: set<Name>)
    returns (geneChance: real, traitChance: real)
    requires ParentsGiven(p)
    requires prob.Length0 == 3 && prob.Length1 == 4 && prob.Length2 == 4
    requires forall g, x, y | 0 <= g < 3 && 0 <= x < 4 && 0 <= y < 4 :: prob[g, x, y] == TableEntry(g, x, y)
    ensures geneChance == GeneFactor(p, one, two) && traitChance == TraitFactor(p, one, two, have)
  {
    var motherGenes, fatherGenes := 0, 0;
    if p.mother.Some? && p.father.Some? {
      motherGenes := if p.mother.value in one then 1 else if p.mother.value in two then 2 else 0;
      fatherGenes := if p.father.value in one then 1 else if p.father.value in two then 2 else 0;
    }
    var g := if p.name in one then 1 else if p.name in two then 2 else 0;
    if p.mother.None? && p.father.None? {
      geneChance := GeneProb(g);
    } else {
      geneChance := prob[g, motherGenes, fatherGenes];
    }
    traitChance := TraitProb(g, p.name in have);
  }

  /** The original's `joint_probability`: builds the table, then multiplies in each person's factors. */
  method JointProbability(people: People, order: seq<Name>, one: set<Name>, two: set<Name>, have: set<Name>)
    returns (ans: real)
    requires IsEnumeration(order, people.Keys) && Family(people)
    ensures Listed(people, order) && ans == Joint(people, order, one, two, have)
  {
    var gene := AssignGenes(people, order, one, two);
    var prob := InheritanceTable();
    ans := MultiplyFactors(people, order, prob, one, two, have);
  }

  /** The loop over the people in dictionary order, starting from 1. */
  method MultiplyFactors(people: People, order: seq<Name>, prob: array3<real>, one: set<Name>, two: set<Name>, have: set<Name>)
    returns (ans: real)
    requires IsEnumeration(order, people.Keys) && Family(people)
    requires prob.Length0 == 3 && prob.Length1 == 4 && prob.Length2 == 4
    requires forall g, x, y | 0 <= g < 3 && 0 <= x < 4 && 0 <= y < 4 :: prob[g, x, y] == TableEntry(g, x, y)
    ensures Listed(people, order) && ans == Joint(people, order, one, two, have)
  {
    assert Listed(people, order);
    ans := 1.0;
    for i := 0 to |order|
      invariant Listed(people, order[..i])
      invariant ans == Joint(people, order[..i], one, two, have)
    {
      var p := people[order[i]];
      var geneChance, traitChance := PersonFactors(p, prob, one, two, have);
      FactorsSnoc(people, order, i + 1, one, two, have);
      ProductStep(Factors(people, order[..i], one, two, have), ans, geneChance, traitChance);
      ans := ans * geneChance;
      ans := ans * traitChance;
    }
    assert order[..|order|] == order;
  }

  // ---------------------------------------------------------------------------
  // The probability table: accumulation and normalisation
  // ---------------------------------------------------------------------------

  /** A person's two distributions: over the gene counts and over showing the trait or not. */
  datatype Buckets = Buckets(gene: map<nat, real>, traits: map<bool, real>)

  /** The keys of the two distributions, in the order the original's dictionaries list them. */
  const GeneKeys: seq<nat> := [2, 1, 0]
  const TraitKeys: seq<bool> := [true, false]

  predicate Shaped(b: Buckets) {
    0 in b.gene && 1 in b.gene && 2 in b.gene && (forall g | g in b.gene :: g <= 2) &&
    true in b.traits && false in b.traits
  }

  /** Every person's buckets have the keys the original creates. */
  type Table = map<Name, Buckets>

  predicate Tabled(t: Table) {
    forall x | x in t :: Shaped(t[x])
  }

  /** The keys of shaped buckets, listed in the order the original's dictionaries hold them. */
  lemma ShapedKeys(b: Buckets)
    requires Shaped(b)
    ensures IsEnumeration(GeneKeys, b.gene.Keys) && IsEnumeration(TraitKeys, b.traits.Keys)
  {
    forall v: bool ensures v in TraitKeys {
      if v { assert TraitKeys[0] == v; } else { assert TraitKeys[1] == v; }
    }
  }

  /** The buckets a person starts with: every value 0. */
  function ZeroBuckets(): (b: Buckets)
    ensures Shaped(b)
  {
    Buckets(map[2 := 0.0, 1 := 0.0, 0 := 0.0], map[true := 0.0, false := 0.0])
  }

  /** The table the original's `main` starts from: zero buckets for every person. */
  function ZeroTable(people: People): (t: Table)
    ensures Tabled(t) && t.Keys == people.Keys
  {
    map x | x in people :: ZeroBuckets()
  }

  /** The value in the bucket for g gene copies. */
  function GeneShare(b: Buckets, g: nat): real
    requires Shaped(b) && g <= 2
  {
    b.gene[g]
  }

  /** The gene total and the trait total of a person's buckets. */
  function GeneTotal(b: Buckets): real
    requires Shaped(b)
  {
    SumOver(GeneKeys, b.gene)
  }

  function TraitTotal(b: Buckets): real
    requires Shaped(b)
  {
    SumOver(TraitKeys, b.traits)
  }

  /** Zero buckets hold no probability mass. */
  lemma ZeroTotals()
    ensures GeneTotal(ZeroBuckets()) == 0.0 && TraitTotal(ZeroBuckets()) == 0.0
  {
    var b := ZeroBuckets();
    SumOverConst(GeneKeys, b.gene, 0.0);
    SumOverConst(TraitKeys, b.traits, 0.0);
  }

  /** Adds p to the bucket of gene count g and to the bucket of the trait value. */
  function Credit(b: Buckets, g: nat, shows: bool, p: real): (r: Buckets)
    requires Shaped(b) && g <= 2
    ensures Shaped(r)
  {
    Buckets(b.gene[g := b.gene[g] + p], b.traits[shows := b.traits[shows] + p])
  }

  /** Every person credited with p for the assignment of counts and traits. */
  function Updated(t: Table, one: set<Name>, two: set<Name>, have: set<Name>, p: real): (r: Table)
    requires Tabled(t)
    ensures Tabled(r) && r.Keys == t.Keys
  {
    map x | x in t :: Credit(t[x], GeneCount(x, one, two), x in have, p)
  }

  /** `update` adds p to the bucket of x's gene count and to the bucket of x's trait value, and to no other. */
  lemma UpdatedBuckets(t: Table, one: set<Name>, two: set<Name>, have: set<Name>, p: real, x: Name)
    requires Tabled(t) && x in t
    ensures forall g: nat | g <= 2 ::
      GeneShare(Updated(t, one, two, have, p)[x], g) == GeneShare(t[x], g) + if GeneCount(x, one, two) == g then p else 0.0
    ensures forall v: bool ::
      Updated(t, one, two, have, p)[x].traits[v] == t[x].traits[v] + if (x in have) == v then p else 0.0
  {
  }

  /** A credit raises both totals by p, so a person's gene total and trait total stay equal. */
  lemma CreditTotals(b: Buckets, g: nat, shows: bool, p: real)
    requires Shaped(b) && g <= 2
    ensures GeneTotal(Credit(b, g, shows, p)) == GeneTotal(b) + p
    ensures TraitTotal(Credit(b, g, shows, p)) == TraitTotal(b) + p
  {
    var r := Credit(b, g, shows, p);
    SumOverBump(GeneKeys, b.gene, r.gene, g, p);
    SumOverBump(TraitKeys, b.traits, r.traits, shows, p);
  }

  /** Each distribution divided by its total. */
  function Rescale<K>(d: map<K, real>, total: real): (r: map<K, real>)
    requires total != 0.0
    ensures r.Keys == d.Keys
  {
    map k | k in d :: d[k] / total
  }

  /** The table a normalisation leaves, and the person whose total was 0 if it stopped early. */
  datatype Normalization = Normalization(table: Table, failed: Option<Name>)

  /**
   * Normalises one person, the gene distribution first: a zero total stops
   * at once, as a division by zero does, leaving what was done so far.
   */
  function NormalizeOne(t: Table, x: Name): (r: Normalization)
    requires Tabled(t) && x in t
    ensures Tabled(r.table) && r.table.Keys == t.Keys
  {
    var b := t[x];
    var geneTotal := GeneTotal(b);
    if geneTotal == 0.0 then Normalization(t, Some(x))
    else
      var b' := b.(gene := Rescale(b.gene, geneTotal));
      var traitTotal := TraitTotal(b');
      if traitTotal == 0.0 then Normalization(t[x := b'], Some(x))
      else Normalization(t[x := b'.(traits := Rescale(b'.traits, traitTotal))], None)
  }

  /** Normalises the listed people in turn, until the first zero total. */
  function NormalizeFrom(t: Table, keys: seq<Name>): (r: Normalization)
    requires Tabled(t) && forall x | x in keys :: x in t
    ensures Tabled(r.table) && r.table.Keys == t.Keys
    decreases |keys|
  {
    if keys == [] then Normalization(t, None)
    else
      var step := NormalizeOne(t, keys[0]);
      if step.failed.Some? then step else NormalizeFrom(step.table, keys[1..])
  }

  /** Whether a person's two totals are both nonzero. */
  predicate Positive(b: Buckets)
    requires Shaped(b)
  {
    GeneTotal(b) != 0.0 && TraitTotal(b) != 0.0
  }

  /** A person's buckets after normalisation. */
  function Normalized(b: Buckets): (r: Buckets)
    requires Shaped(b) && Positive(b)
    ensures Shaped(r)
  {
    Buckets(Rescale(b.gene, GeneTotal(b)), Rescale(b.traits, TraitTotal(b)))
  }

  /** Normalising one person fails exactly when that person has a zero total, and otherwise normalises only them. */
  lemma NormalizeOneOutcome(t: Table, x: Name)
    requires Tabled(t) && x in t
    ensures NormalizeOne(t, x).failed.None? <==> Positive(t[x])
    ensures NormalizeOne(t, x).failed.Some? ==> NormalizeOne(t, x).failed.value == x
    ensures NormalizeOne(t, x).failed.None? ==> NormalizeOne(t, x).table == t[x := Normalized(t[x])]
  {
    var b := t[x];
    if GeneTotal(b) != 0.0 {
      var b' := b.(gene := Rescale(b.gene, GeneTotal(b)));
      assert TraitTotal(b') == TraitTotal(b);
    }
  }

  /** Dropping the head of a list without repeats leaves a list without repeats that lacks the head. */
  lemma DistinctTail<T>(keys: seq<T>)
    requires Distinct(keys) && keys != []
    ensures Distinct(keys[1..]) && keys[0] !in keys[1..]
  {
    forall i, j | 0 <= i < j < |keys[1..]| ensures keys[1..][i] != keys[1..][j] {
      assert keys[1..][i] == keys[i + 1] && keys[1..][j] == keys[j + 1];
    }
    forall j | 0 <= j < |keys[1..]| ensures keys[1..][j] != keys[0] {
      assert keys[1..][j] == keys[j + 1];
    }
  }

  /**
   * Normalisation stops exactly when some listed person has a zero total, and
   * otherwise replaces each listed person's buckets by their normalised form
   * and leaves everyone else alone.
   */
  lemma {:induction false} NormalizeOutcome(t: Table, keys: seq<Name>)
    requires Tabled(t) && (forall x | x in keys :: x in t) && Distinct(keys)
    ensures NormalizeFrom(t, keys).failed.None? <==> forall x | x in keys :: Positive(t[x])
    ensures NormalizeFrom(t, keys).failed.Some? ==>
      NormalizeFrom(t, keys).failed.value in keys && !Positive(t[NormalizeFrom(t, keys).failed.value])
    ensures NormalizeFrom(t, keys).failed.None? ==>
      forall x | x in t :: NormalizeFrom(t, keys).table[x] == if x in keys then Normalized(t[x]) else t[x]
    decreases |keys|
  {
    if keys != [] {
      var x := keys[0];
      NormalizeOneOutcome(t, x);
      if Positive(t[x]) {
        var t' := t[x := Normalized(t[x])];
        DistinctTail(keys);
        NormalizeOutcome(t', keys[1..]);
        var r := NormalizeFrom(t', keys[1..]);
        assert NormalizeFrom(t, keys) == r;
        assert forall y | y in keys :: y == x || y in keys[1..];
        if r.failed.None? {
          forall y | y in t ensures r.table[y] == if y in keys then Normalized(t[y]) else t[y] {
            if y != x {
              assert t'[y] == t[y];
            }
          }
        }
      }
    }
  }

  /**
   * When every person's two totals are the same positive number, normalisation
   * succeeds and divides every bucket by that number.
   */
  lemma NormalizeEqualTotals(t: Table, order: seq<Name>, total: real, x: Name)
    requires Tabled(t) && IsEnumeration(order, t.Keys) && 0.0 < total && x in t
    requires forall y | y in t :: GeneTotal(t[y]) == total && TraitTotal(t[y]) == total
    ensures NormalizeFrom(t, order).failed.None?
    ensures forall g: nat | g <= 2 :: GeneShare(NormalizeFrom(t, order).table[x], g) == GeneShare(t[x], g) / total
    ensures forall v: bool :: NormalizeFrom(t, order).table[x].traits[v] == t[x].traits[v] / total
  {
    NormalizeOutcome(t, order);
    assert NormalizeFrom(t, order).table[x] == Normalized(t[x]);
  }

  /** The sum of a rescaled distribution is its old sum divided by the total. */
  lemma {:induction false} SumOverRescale<K>(keys: seq<K>, d: map<K, real>, total: real)
    requires total != 0.0 && forall k | k in keys :: k in d
    ensures SumOver(keys, Rescale(d, total)) == SumOver(keys, d) / total
  {
    if keys != [] {
      var init := keys[..|keys| - 1];
      SumOverRescale(init, d, total);
      DivideSum(SumOver(init, d), d[keys[|keys| - 1]], total);
    }
  }

  /** A distribution divided by its own nonzero total sums to 1 and keeps its proportions. */
  lemma RescaleDistribution<K>(keys: seq<K>, d: map<K, real>, total: real)
    requires (forall k | k in keys :: k in d) && total == SumOver(keys, d) && total != 0.0
    ensures SumOver(keys, Rescale(d, total)) == 1.0
    ensures forall k | k in d :: Rescale(d, total)[k] * total == d[k]
  {
    SumOverRescale(keys, d, total);
    DivideSelf(total);
    forall k | k in d ensures Rescale(d, total)[k] * total == d[k] {
      MultiplyDivide(d[k], total);
    }
  }

  /** The sum of `m` over `keys`, accumulated by a loop. */
  method Total<K>(m: map<K, real>, keys: seq<K>) returns (sum: real)
    requires forall k | k in keys :: k in m
    ensures sum == SumOver(keys, m)
  {
    sum := 0.0;
    for j := 0 to |keys|
      invariant sum == SumOver(keys[..j], m)
    {
      SumOverSnoc(keys, j, m);
      sum := sum + m[keys[j]];
    }
    assert keys[..|keys|] == keys;
  }

  /** Every value of `m` divided by `total`, key by key in the order of `keys`. */
  method Divide<K>(m: map<K, real>, keys: seq<K>, total: real) returns (r: map<K, real>)
    requires total != 0.0 && IsEnumeration(keys, m.Keys)
    ensures r == Rescale(m, total)
  {
    r := m;
    for j := 0 to |keys|
      invariant r.Keys == m.Keys
      invariant forall k | k in m :: r[k] == if k in keys[..j] then m[k] / total else m[k]
    {
      assert keys[j] !in keys[..j] by {
        forall i | 0 <= i < j ensures keys[i] != keys[j] {
        }
      }
      r := r[keys[j] := r[keys[j]] / total];
      assert keys[..j + 1] == keys[..j] + [keys[j]];
    }
    assert keys[..|keys|] == keys;
  }

  /** The first i people of `order` have been credited, and nobody else. */
  predicate CreditedUpTo(start: Table, t: Table, order: seq<Name>, i: nat, one: set<Name>, two: set<Name>, have: set<Name>, p: real)
  {
    Tabled(start) && IsEnumeration(order, start.Keys) && i <= |order| &&
    t.Keys == start.Keys && Tabled(t) &&
    forall x | x in t :: t[x] == if x in order[..i] then Credit(start[x], GeneCount(x, one, two), x in have, p) else start[x]
  }

  lemma CreditStep(start: Table, t: Table, order: seq<Name>, i: nat, one: set<Name>, two: set<Name>, have: set<Name>, p: real)
    requires CreditedUpTo(start, t, order, i, one, two, have, p) && i < |order|
    ensures order[i] in t
    ensures CreditedUpTo(start, t[order[i] := Credit(t[order[i]], GeneCount(order[i], one, two), order[i] in have, p)],
      order, i + 1, one, two, have, p)
  {
    var person := order[i];
    assert person !in order[..i] by {
      forall j | 0 <= j < i ensures order[j] != person {
      }
    }
    assert order[..i + 1] == order[..i] + [person];
  }

  lemma CreditedAll(start: Table, t: Table, order: seq<Name>, one: set<Name>, two: set<Name>, have: set<Name>, p: real)
    requires CreditedUpTo(start, t, order, |order|, one, two, have, p)
    ensures t == Updated(start, one, two, have, p)
  {
    assert order[..|order|] == order;
  }

  /** The body of the original's `update` loop for one person's buckets. */
  method CreditPerson(prob: Buckets, person: Name, one: set<Name>, two: set<Name>, have: set<Name>, p: real)
    returns (r: Buckets)
    requires Shaped(prob)
    ensures r == Credit(prob, GeneCount(person, one, two), person in have, p)
  {
    r := prob;
    if person in one {
      r := r.(gene := r.gene[1 := r.gene[1] + p]);
    } else if person in two {
      r := r.(gene := r.gene[2 := r.gene[2] + p]);
    } else {
      r := r.(gene := r.gene[0 := r.gene[0] + p]);
    }
    r := r.(traits := r.traits[person in have := r.traits[person in have] + p]);
  }

  /** The original's `probabilities` dictionary, with its people in dictionary order. */
  class Probabilities {
    const order: seq<Name>
    var table: Table

    ghost predicate Valid()
      reads this
    {
      IsEnumeration(order, table.Keys) && Tabled(table)
    }

    /** Every person of the family starts with zero buckets. */
    constructor (people: People, order: seq<Name>)
      requires IsEnumeration(order, people.Keys)
      ensures Valid() && this.order == order
      ensures table == ZeroTable(people)
    {
      this.order := order;
      table := ZeroTable(people);
    }

    /** The original's `update`: credits every person with p for the assignment. */
    method Update(one: set<Name>, two: set<Name>, have: set<Name>, p: real)
      requires Valid()
      modifies this
      ensures Valid() && table == Updated(old(table), one, two, have, p)
    {
      ghost var start := table;
      for i := 0 to |order|
        invariant CreditedUpTo(start, table, order, i, one, two, have, p)
      {
        var person := order[i];
        var prob := CreditPerson(table[person], person, one, two, have, p);
        CreditStep(start, table, order, i, one, two, have, p);
        table := table[person := prob];
      }
      CreditedAll(start, table, order, one, two, have, p);
    }

    /**
     * The original's `normalize`: each person in dictionary order is
     * normalised in place; a zero total stops the loop, naming the person.
     */
    method Normalize() returns (failed: Option<Name>)
      requires Valid()
      modifies this
      ensures Valid()
      ensures Normalization(table, failed) == NormalizeFrom(old(table), order)
    {
      ghost var start := table;
      var i := 0;
      while i < |order|
        invariant 0 <= i <= |order|
        invariant table.Keys == start.Keys && Tabled(table)
        invariant NormalizeFrom(table, order[i..]) == NormalizeFrom(start, order)
      {
        assert order[i..][0] == order[i] && order[i..][1..] == order[i + 1..];
        failed := NormalizePerson(order[i]);
        if failed.Some? {
          return;
        }
        i := i + 1;
      }
      assert order[i..] == [];
      return None;
    }

    /** The body of the original's `normalize` loop for one person: gene distribution, then trait distribution. */
    method NormalizePerson(person: Name) returns (failed: Option<Name>)
      requires Valid() && person in table
      modifies this
      ensures Valid()
      ensures Normalization(table, failed) == NormalizeOne(old(table), person)
    {
      ShapedKeys(table[person]);
      var geneTotal := Total(table[person].gene, GeneKeys);
      if geneTotal == 0.0 {
        return Some(person);
      }
      var gene := Divide(table[person].gene, GeneKeys, geneTotal);
      table := table[person := table[person].(gene := gene)];
      ShapedKeys(table[person]);
      var traitTotal := Total(table[person].traits, TraitKeys);
      if traitTotal == 0.0 {
        return Some(person);
      }
      var traits := Divide(table[person].traits, TraitKeys, traitTotal);
      table := table[person := table[person].(traits := traits)];
      return None;
    }
  }
}
