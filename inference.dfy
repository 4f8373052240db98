/**
 * The inference in the original's `main`: every assignment of the trait that
 * agrees with the recorded traits, and for each every assignment of one and
 * two gene copies, is weighed by its joint probability and credited to every
 * person's buckets; the buckets are then normalised into the posterior.
 *
 * Python lists a set in an order of its own; `enumerate` stands for that
 * listing (`list(s)`), and the model holds for every listing of each set.
 * The loops are stated over any `subsets` lister; the original's is
 * `SubsetLister(enumerate)`, which lists exactly the subsets of each set.
 */
module Inference {
  import opened Wrappers
  import opened Sums
  import opened Subsets
  import opened Heredity

  /** One assignment the loops visit: who shows the trait, who has one gene copy, who has two. */
  datatype World = World(have: set<Name>, one: set<Name>, two: set<Name>)

  /** Whether an assignment of the trait contradicts a trait the data records. */
  predicate FailsEvidence(people: People, have: set<Name>) {
    exists x | x in people :: people[x].known.Some? && people[x].known.value != (x in have)
  }

  // ---------------------------------------------------------------------------
  // The assignments the nested loops visit, in order
  // ---------------------------------------------------------------------------

  /** The innermost loop: one world per set of two-copy holders. */
  function TwoWorlds(have: set<Name>, one: set<Name>, twos: seq<set<Name>>): seq<World>
    decreases |twos|
  {
    if twos == [] then []
    else TwoWorlds(have, one, twos[..|twos| - 1]) + [World(have, one, twos[|twos| - 1])]
  }

  /** The middle loop: for each set of one-copy holders, the subsets of the rest as two-copy holders. */
  function OneWorlds(have: set<Name>, ones: seq<set<Name>>, names: set<Name>, subsets: set<Name> -> seq<set<Name>>): seq<World>
    decreases |ones|
  {
    if ones == [] then []
    else
      var one := ones[|ones| - 1];
      OneWorlds(have, ones[..|ones| - 1], names, subsets) + TwoWorlds(have, one, subsets(names - one))
  }

  /** The outer loop: trait assignments that fail the evidence are skipped. */
  function Worlds(people: People, haves: seq<set<Name>>, subsets: set<Name> -> seq<set<Name>>): seq<World>
    decreases |haves|
  {
    if haves == [] then []
    else
      var have := haves[|haves| - 1];
      Worlds(people, haves[..|haves| - 1], subsets) +
        (if FailsEvidence(people, have) then [] else OneWorlds(have, subsets(people.Keys), people.Keys, subsets))
  }

  /** The original's `powerset`, applied to Python's listing of a set. */
  function SubsetLister(enumerate: set<Name> -> seq<Name>): set<Name> -> seq<set<Name>> {
    s => Powerset(enumerate(s))
  }

  /** A lister that lists every subset of each set, and nothing else. */
  ghost predicate ListsSubsets(subsets: set<Name> -> seq<set<Name>>) {
    forall s: set<Name>, t: set<Name> :: t in subsets(s) <==> t <= s
  }

  /** Every world the original's `main` visits, in the order it visits them. */
  function Visited(people: People, subsets: set<Name> -> seq<set<Name>>): seq<World> {
    Worlds(people, subsets(people.Keys), subsets)
  }

  lemma {:induction false} InTwoWorlds(have: set<Name>, one: set<Name>, twos: seq<set<Name>>, w: World)
    ensures w in TwoWorlds(have, one, twos) <==> w.have == have && w.one == one && w.two in twos
    decreases |twos|
  {
    if twos != [] {
      var init, last := twos[..|twos| - 1], twos[|twos| - 1];
      InTwoWorlds(have, one, init, w);
      InAppend(TwoWorlds(have, one, init), [World(have, one, last)], w);
      assert twos == init + [last];
      InAppend(init, [last], w.two);
    }
  }

  lemma {:induction false} InOneWorlds(have: set<Name>, ones: seq<set<Name>>, names: set<Name>, subsets: set<Name> -> seq<set<Name>>, w: World)
    ensures w in OneWorlds(have, ones, names, subsets) <==>
      w.have == have && w.one in ones && w.two in subsets(names - w.one)
    decreases |ones|
  {
    if ones != [] {
      var init, one := ones[..|ones| - 1], ones[|ones| - 1];
      InOneWorlds(have, init, names, subsets, w);
      InTwoWorlds(have, one, subsets(names - one), w);
      InAppend(OneWorlds(have, init, names, subsets), TwoWorlds(have, one, subsets(names - one)), w);
      assert ones == init + [one];
      InAppend(init, [one], w.one);
    }
  }

  lemma {:induction false} InWorlds(people: People, haves: seq<set<Name>>, subsets: set<Name> -> seq<set<Name>>, w: World)
    ensures w in Worlds(people, haves, subsets) <==>
      w.have in haves && !FailsEvidence(people, w.have) &&
      w.one in subsets(people.Keys) && w.two in subsets(people.Keys - w.one)
    decreases |haves|
  {
    if haves != [] {
      var init, have := haves[..|haves| - 1], haves[|haves| - 1];
      var more := if FailsEvidence(people, have) then [] else OneWorlds(have, subsets(people.Keys), people.Keys, subsets);
      assert Worlds(people, haves, subsets) == Worlds(people, init, subsets) + more;
      InWorlds(people, init, subsets, w);
      InOneWorlds(have, subsets(people.Keys), people.Keys, subsets, w);
      InAppend(Worlds(people, init, subsets), more, w);
      assert haves == init + [have];
      InAppend(init, [have], w.have);
    }
  }

  /** A list that enumerates a set has exactly that set's elements. */
  lemma EnumeratedElements(xs: seq<Name>, s: set<Name>)
    requires IsEnumeration(xs, s)
    ensures Elements(xs) == s
  {
  }

  /** `powerset` of any listing of a set lists exactly its subsets. */
  lemma PowersetOfSet(enumerate: set<Name> -> seq<Name>, names: set<Name>, s: set<Name>)
    requires IsEnumeration(enumerate(names), names)
    ensures s in Powerset(enumerate(names)) <==> s <= names
  {
    EnumeratedElements(enumerate(names), names);
    PowersetOnlySubsets(enumerate(names));
    if s <= names {
      PowersetEverySubset(enumerate(names), s);
    }
  }

  /** `powerset` of any listing of each set lists exactly the subsets. */
  lemma PowersetListsSubsets(enumerate: set<Name> -> seq<Name>)
    requires forall s :: IsEnumeration(enumerate(s), s)
    ensures ListsSubsets(SubsetLister(enumerate))
  {
    forall s: set<Name>, t: set<Name> ensures t in SubsetLister(enumerate)(s) <==> t <= s {
      PowersetOfSet(enumerate, s, t);
    }
  }

  /**
   * The loops visit exactly the assignments that agree with the recorded
   * traits and give nobody both one and two gene copies.
   */
  lemma VisitedExactly(people: People, subsets: set<Name> -> seq<set<Name>>, w: World)
    requires ListsSubsets(subsets)
    ensures w in Visited(people, subsets) <==>
      w.have <= people.Keys && !FailsEvidence(people, w.have) &&
      w.one <= people.Keys && w.two <= people.Keys - w.one
  {
    InWorlds(people, subsets(people.Keys), subsets, w);
  }

  // ---------------------------------------------------------------------------
  // The accumulated probabilities
  // ---------------------------------------------------------------------------

  /** The joint probabilities of the worlds, added up. */
  function JointSum(people: People, order: seq<Name>, ws: seq<World>): real
    requires Listed(people, order)
    decreases |ws|
  {
    if ws == [] then 0.0
    else
      var w := ws[|ws| - 1];
      JointSum(people, order, ws[..|ws| - 1]) + Joint(people, order, w.one, w.two, w.have)
  }

  /** The joint probabilities of the worlds in which x has g gene copies, added up. */
  function GeneMass(people: People, order: seq<Name>, ws: seq<World>, x: Name, g: nat): real
    requires Listed(people, order)
    decreases |ws|
  {
    if ws == [] then 0.0
    else
      var w := ws[|ws| - 1];
      GeneMass(people, order, ws[..|ws| - 1], x, g) +
        (if GeneCount(x, w.one, w.two) == g then Joint(people, order, w.one, w.two, w.have) else 0.0)
  }

  /** The joint probabilities of the worlds in which x shows the trait or not, as `v` says, added up. */
  function TraitMass(people: People, order: seq<Name>, ws: seq<World>, x: Name, v: bool): real
    requires Listed(people, order)
    decreases |ws|
  {
    if ws == [] then 0.0
    else
      var w := ws[|ws| - 1];
      TraitMass(people, order, ws[..|ws| - 1], x, v) +
        (if (x in w.have) == v then Joint(people, order, w.one, w.two, w.have) else 0.0)
  }

  /** The table after `update` has been called for each world in turn. */
  function Accumulate(t: Table, people: People, order: seq<Name>, ws: seq<World>): (r: Table)
    requires Tabled(t) && Listed(people, order)
    ensures Tabled(r) && r.Keys == t.Keys
    decreases |ws|
  {
    if ws == [] then t
    else
      var w := ws[|ws| - 1];
      Updated(Accumulate(t, people, order, ws[..|ws| - 1]), w.one, w.two, w.have, Joint(people, order, w.one, w.two, w.have))
  }

  /** The last element of a + b and what comes before it, when b is not empty. */
  lemma AppendSplit<T>(a: seq<T>, b: seq<T>)
    requires b != []
    ensures (a + b)[..|a + b| - 1] == a + b[..|b| - 1] && (a + b)[|a + b| - 1] == b[|b| - 1]
  {
  }

  /** Accumulating two runs of worlds is accumulating the first, then the second. */
  lemma {:induction false} AccumulateAppend(t: Table, people: People, order: seq<Name>, a: seq<World>, b: seq<World>)
    requires Tabled(t) && Listed(people, order)
    ensures Accumulate(t, people, order, a + b) == Accumulate(Accumulate(t, people, order, a), people, order, b)
    decreases |b|
  {
    if b == [] {
      assert a + b == a;
    } else {
      AppendSplit(a, b);
      AccumulateAppend(t, people, order, a, b[..|b| - 1]);
    }
  }

  /** One more world is one more call of `update`. */
  lemma AccumulateSnoc(t: Table, people: People, order: seq<Name>, ws: seq<World>, w: World)
    requires Tabled(t) && Listed(people, order)
    ensures Accumulate(t, people, order, ws + [w]) ==
      Updated(Accumulate(t, people, order, ws), w.one, w.two, w.have, Joint(people, order, w.one, w.two, w.have))
  {
    assert (ws + [w])[..|ws|] == ws;
  }

  /** The bucket for g gene copies ends up holding the mass of the worlds that give x g copies. */
  lemma {:induction false} GeneMassIn(t: Table, people: People, order: seq<Name>, ws: seq<World>, x: Name, g: nat)
    requires Tabled(t) && Listed(people, order) && x in t && g <= 2
    ensures GeneShare(Accumulate(t, people, order, ws)[x], g) == GeneShare(t[x], g) + GeneMass(people, order, ws, x, g)
    decreases |ws|
  {
    if ws != [] {
      var init, w := ws[..|ws| - 1], ws[|ws| - 1];
      GeneMassIn(t, people, order, init, x, g);
      UpdatedBuckets(Accumulate(t, people, order, init), w.one, w.two, w.have, Joint(people, order, w.one, w.two, w.have), x);
    }
  }

  /** The bucket for trait value v ends up holding the mass of the worlds that give x that value. */
  lemma {:induction false} TraitMassIn(t: Table, people: People, order: seq<Name>, ws: seq<World>, x: Name, v: bool)
    requires Tabled(t) && Listed(people, order) && x in t
    ensures Accumulate(t, people, order, ws)[x].traits[v] == t[x].traits[v] + TraitMass(people, order, ws, x, v)
    decreases |ws|
  {
    if ws != [] {
      var init, w := ws[..|ws| - 1], ws[|ws| - 1];
      TraitMassIn(t, people, order, init, x, v);
      UpdatedBuckets(Accumulate(t, people, order, init), w.one, w.two, w.have, Joint(people, order, w.one, w.two, w.have), x);
    }
  }

  /** Both of a person's totals grow by the total mass of the worlds. */
  lemma {:induction false} AccumulateTotals(t: Table, people: People, order: seq<Name>, ws: seq<World>, x: Name)
    requires Tabled(t) && Listed(people, order) && x in t
    ensures GeneTotal(Accumulate(t, people, order, ws)[x]) == GeneTotal(t[x]) + JointSum(people, order, ws)
    ensures TraitTotal(Accumulate(t, people, order, ws)[x]) == TraitTotal(t[x]) + JointSum(people, order, ws)
    decreases |ws|
  {
    if ws != [] {
      var init, w := ws[..|ws| - 1], ws[|ws| - 1];
      AccumulateTotals(t, people, order, init, x);
      var before := Accumulate(t, people, order, init);
      CreditTotals(before[x], GeneCount(x, w.one, w.two), x in w.have, Joint(people, order, w.one, w.two, w.have));
    }
  }

  /** Joint probabilities are positive, so any world gives a positive total. */
  lemma {:induction false} JointSumPositive(people: People, order: seq<Name>, ws: seq<World>)
    requires Listed(people, order)
    ensures 0.0 <= JointSum(people, order, ws)
    ensures ws != [] ==> 0.0 < JointSum(people, order, ws)
    decreases |ws|
  {
    if ws != [] {
      var w := ws[|ws| - 1];
      JointSumPositive(people, order, ws[..|ws| - 1]);
      JointIsChance(people, order, w.one, w.two, w.have);
    }
  }

  /** Starting from zero, every person's two totals are both the mass of all the worlds. */
  lemma AccumulatedPositive(people: People, order: seq<Name>, ws: seq<World>)
    requires Listed(people, order)
    ensures forall y | y in people ::
      GeneTotal(Accumulate(ZeroTable(people), people, order, ws)[y]) == JointSum(people, order, ws) &&
      TraitTotal(Accumulate(ZeroTable(people), people, order, ws)[y]) == JointSum(people, order, ws)
  {
    ZeroTotals();
    forall y | y in people
      ensures GeneTotal(Accumulate(ZeroTable(people), people, order, ws)[y]) == JointSum(people, order, ws)
      ensures TraitTotal(Accumulate(ZeroTable(people), people, order, ws)[y]) == JointSum(people, order, ws)
    {
      AccumulateTotals(ZeroTable(people), people, order, ws, y);
    }
  }

  /** Starting from zero, every bucket of x holds exactly the mass of the worlds it describes. */
  lemma AccumulatedMasses(people: People, order: seq<Name>, ws: seq<World>, x: Name)
    requires Listed(people, order) && x in people
    ensures forall g: nat | g <= 2 ::
      GeneShare(Accumulate(ZeroTable(people), people, order, ws)[x], g) == GeneMass(people, order, ws, x, g)
    ensures forall v: bool ::
      Accumulate(ZeroTable(people), people, order, ws)[x].traits[v] == TraitMass(people, order, ws, x, v)
  {
    forall g: nat | g <= 2
      ensures GeneShare(Accumulate(ZeroTable(people), people, order, ws)[x], g) == GeneMass(people, order, ws, x, g)
    {
      GeneMassIn(ZeroTable(people), people, order, ws, x, g);
    }
    forall v: bool
      ensures Accumulate(ZeroTable(people), people, order, ws)[x].traits[v] == TraitMass(people, order, ws, x, v)
    {
      TraitMassIn(ZeroTable(people), people, order, ws, x, v);
    }
  }

  /** The trait assignment that copies the recorded traits and gives the trait to nobody else. */
  function Recorded(people: People): (have: set<Name>)
    ensures have <= people.Keys && !FailsEvidence(people, have)
  {
    set x | x in people && people[x].known == Some(true)
  }

  /** Some assignment always agrees with the evidence, so the loops visit at least one world. */
  lemma VisitedNotEmpty(people: People, subsets: set<Name> -> seq<set<Name>>)
    requires ListsSubsets(subsets)
    ensures Visited(people, subsets) != []
  {
    VisitedExactly(people, subsets, World(Recorded(people), {}, {}));
  }

  /** The table `normalize` leaves after the worlds have been credited to zero buckets. */
  function NormalizedTable(people: People, order: seq<Name>, ws: seq<World>): (r: Normalization)
    requires IsEnumeration(order, people.Keys) && Listed(people, order)
    ensures Tabled(r.table) && r.table.Keys == people.Keys
  {
    NormalizeFrom(Accumulate(ZeroTable(people), people, order, ws), order)
  }

  /** After any worlds have been credited, normalisation never meets a zero total. */
  lemma NormalizeSucceeds(people: People, order: seq<Name>, ws: seq<World>)
    requires IsEnumeration(order, people.Keys) && Listed(people, order) && ws != []
    ensures 0.0 < JointSum(people, order, ws)
    ensures NormalizedTable(people, order, ws).failed.None?
  {
    JointSumPositive(people, order, ws);
    if x :| x in people {
      AccumulatedPositive(people, order, ws);
      NormalizeEqualTotals(Accumulate(ZeroTable(people), people, order, ws), order, JointSum(people, order, ws), x);
    } else {
      assert order == [];
    }
  }

  /** A person's buckets in the table `normalize` leaves. */
  function Posterior(people: People, order: seq<Name>, ws: seq<World>, x: Name): (b: Buckets)
    requires IsEnumeration(order, people.Keys) && Listed(people, order) && x in people
    ensures Shaped(b)
  {
    NormalizedTable(people, order, ws).table[x]
  }

  /**
   * The posterior gene distribution: the chance that x has g gene copies is
   * the mass of the worlds that give x g copies over the mass of all of them.
   */
  lemma PosteriorGene(people: People, order: seq<Name>, ws: seq<World>, x: Name, g: nat)
    requires IsEnumeration(order, people.Keys) && Listed(people, order) && ws != [] && x in people && g <= 2
    ensures 0.0 < JointSum(people, order, ws)
    ensures GeneShare(Posterior(people, order, ws, x), g) == GeneMass(people, order, ws, x, g) / JointSum(people, order, ws)
  {
    JointSumPositive(people, order, ws);
    AccumulatedPositive(people, order, ws);
    AccumulatedMasses(people, order, ws, x);
    NormalizeEqualTotals(Accumulate(ZeroTable(people), people, order, ws), order, JointSum(people, order, ws), x);
  }

  /**
   * The posterior trait distribution: the chance that x shows the trait (or
   * not, as `v` says) is the mass of the worlds that agree over the mass of all of them.
   */
  lemma PosteriorTrait(people: People, order: seq<Name>, ws: seq<World>, x: Name, v: bool)
    requires IsEnumeration(order, people.Keys) && Listed(people, order) && ws != [] && x in people
    ensures 0.0 < JointSum(people, order, ws)
    ensures Posterior(people, order, ws, x).traits[v] == TraitMass(people, order, ws, x, v) / JointSum(people, order, ws)
  {
    JointSumPositive(people, order, ws);
    AccumulatedPositive(people, order, ws);
    AccumulatedMasses(people, order, ws, x);
    NormalizeEqualTotals(Accumulate(ZeroTable(people), people, order, ws), order, JointSum(people, order, ws), x);
  }

  // ---------------------------------------------------------------------------
  // The loops
  // ---------------------------------------------------------------------------

  lemma TwoWorldsSnoc(have: set<Name>, one: set<Name>, twos: seq<set<Name>>, w: nat)
    requires w < |twos|
    ensures TwoWorlds(have, one, twos[..w + 1]) == TwoWorlds(have, one, twos[..w]) + [World(have, one, twos[w])]
  {
    assert twos[..w + 1][..w] == twos[..w];
  }

  /** Crediting one more two-copy assignment extends the accumulated table by that world. */
  lemma AccumulateTwoWorlds(t: Table, people: People, order: seq<Name>, have: set<Name>, one: set<Name>,
                            twos: seq<set<Name>>, w: nat)
    requires Tabled(t) && Listed(people, order) && w < |twos|
    ensures Accumulate(t, people, order, TwoWorlds(have, one, twos[..w + 1])) ==
      Updated(Accumulate(t, people, order, TwoWorlds(have, one, twos[..w])), one, twos[w], have,
              Joint(people, order, one, twos[w], have))
  {
    TwoWorldsSnoc(have, one, twos, w);
    AccumulateSnoc(t, people, order, TwoWorlds(have, one, twos[..w]), World(have, one, twos[w]));
  }

  lemma OneWorldsSnoc(have: set<Name>, ones: seq<set<Name>>, names: set<Name>, subsets: set<Name> -> seq<set<Name>>, o: nat)
    requires o < |ones|
    ensures OneWorlds(have, ones[..o + 1], names, subsets) ==
      OneWorlds(have, ones[..o], names, subsets) + TwoWorlds(have, ones[o], subsets(names - ones[o]))
  {
    assert ones[..o + 1][..o] == ones[..o];
  }

  lemma WorldsSnoc(people: People, haves: seq<set<Name>>, subsets: set<Name> -> seq<set<Name>>, h: nat)
    requires h < |haves|
    ensures Worlds(people, haves[..h + 1], subsets) ==
      Worlds(people, haves[..h], subsets) +
        (if FailsEvidence(people, haves[h]) then [] else OneWorlds(haves[h], subsets(people.Keys), people.Keys, subsets))
  {
    assert haves[..h + 1][..h] == haves[..h];
  }

  /** The innermost loop: each set of two-copy holders is weighed and credited. */
  method AddTwoWorlds(probabilities: Probabilities, people: People, order: seq<Name>,
                      have: set<Name>, one: set<Name>, twos: seq<set<Name>>)
    requires probabilities.Valid() && IsEnumeration(order, people.Keys) && Family(people)
    modifies probabilities
    ensures probabilities.Valid() && Listed(people, order)
    ensures probabilities.table == Accumulate(old(probabilities.table), people, order, TwoWorlds(have, one, twos))
  {
    ghost var start := probabilities.table;
    assert Listed(people, order);
    for w := 0 to |twos|
      invariant probabilities.Valid()
      invariant probabilities.table == Accumulate(start, people, order, TwoWorlds(have, one, twos[..w]))
    {
      var p := JointProbability(people, order, one, twos[w], have);
      probabilities.Update(one, twos[w], have, p);
      AccumulateTwoWorlds(start, people, order, have, one, twos, w);
    }
    assert twos[..|twos|] == twos;
  }

  /** The middle loop: each set of one-copy holders, with every subset of the others as two-copy holders. */
  method AddOneWorlds(probabilities: Probabilities, people: People, order: seq<Name>,
                      have: set<Name>, names: set<Name>, subsets: set<Name> -> seq<set<Name>>)
    requires probabilities.Valid() && IsEnumeration(order, people.Keys) && Family(people)
    modifies probabilities
    ensures probabilities.Valid() && Listed(people, order)
    ensures probabilities.table ==
      Accumulate(old(probabilities.table), people, order, OneWorlds(have, subsets(names), names, subsets))
  {
    ghost var start := probabilities.table;
    assert Listed(people, order);
    var ones := subsets(names);
    for o := 0 to |ones|
      invariant probabilities.Valid()
      invariant probabilities.table == Accumulate(start, people, order, OneWorlds(have, ones[..o], names, subsets))
    {
      var one := ones[o];
      var twos := subsets(names - one);
      AddTwoWorlds(probabilities, people, order, have, one, twos);
      OneWorldsSnoc(have, ones, names, subsets, o);
      AccumulateAppend(start, people, order, OneWorlds(have, ones[..o], names, subsets), TwoWorlds(have, one, twos));
    }
    assert ones[..|ones|] == ones;
  }

  /**
   * The original's `main` after loading the data: the loops over trait and
   * gene assignments, then `normalize`, which never divides by zero.
   */
  method Infer(people: People, order: seq<Name>, enumerate: set<Name> -> seq<Name>) returns (probabilities: Probabilities)
    requires IsEnumeration(order, people.Keys) && Family(people)
    requires forall s :: IsEnumeration(enumerate(s), s)
    ensures fresh(probabilities) && probabilities.Valid() && probabilities.order == order
    ensures Listed(people, order)
    ensures Normalization(probabilities.table, None) == NormalizedTable(people, order, Visited(people, SubsetLister(enumerate)))
  {
    probabilities := new Probabilities(people, order);
    assert Listed(people, order);
    ghost var start := probabilities.table;
    var names := people.Keys;
    var subsets := SubsetLister(enumerate);
    var haves := subsets(names);
    for h := 0 to |haves|
      invariant probabilities.Valid() && probabilities.order == order
      invariant probabilities.table == Accumulate(start, people, order, Worlds(people, haves[..h], subsets))
    {
      var have := haves[h];
      ghost var before := Worlds(people, haves[..h], subsets);
      WorldsSnoc(people, haves, subsets, h);
      var failsEvidence := FailsEvidence(people, have);
      if !failsEvidence {
        AddOneWorlds(probabilities, people, order, have, names, subsets);
        AccumulateAppend(start, people, order, before, OneWorlds(have, subsets(names), names, subsets));
      } else {
        assert before + [] == before;
      }
    }
    assert haves[..|haves|] == haves;
    var failed := probabilities.Normalize();
    PowersetListsSubsets(enumerate);
    VisitedNotEmpty(people, subsets);
    NormalizeSucceeds(people, order, Visited(people, subsets));
  }
}
