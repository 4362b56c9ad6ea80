/** Ordering by fitness and the per-generation bookkeeping: `ByFitness`,
    the average fitness and the best-score update. */
module Selection {
  import opened Genes
  import opened Arith

  /** `ByFitness.Less`: individual `i` sorts before `j` when it is strictly fitter. */
  predicate Less(pop: seq<Individual>, i: int, j: int)
    requires 0 <= i < |pop| && 0 <= j < |pop|
  {
    pop[i].fitness > pop[j].fitness
  }

  /** `Less` is a strict weak order, as `sort.Sort` needs: irreflexive,
      transitive, and "neither is less" is transitive too. */
  lemma LessIsStrictWeakOrder(pop: seq<Individual>, i: int, j: int, k: int)
    requires 0 <= i < |pop| && 0 <= j < |pop| && 0 <= k < |pop|
    ensures !Less(pop, i, i)
    ensures Less(pop, i, j) && Less(pop, j, k) ==> Less(pop, i, k)
    ensures !Less(pop, i, j) && !Less(pop, j, i) && !Less(pop, j, k) && !Less(pop, k, j) ==>
      !Less(pop, i, k) && !Less(pop, k, i)
  {
  }

  /** No individual is strictly fitter than one before it: descending fitness. */
  predicate SortedByFitness(pop: seq<Individual>) {
    forall i, j :: 0 <= i < j < |pop| ==> pop[i].fitness >= pop[j].fitness
  }

  /** Sorted by fitness means that no individual is `Less` than one before
      it: the order `sort.Sort(ByFitness(...))` establishes. */
  lemma SortedMeansNoLessInversion(pop: seq<Individual>)
    ensures SortedByFitness(pop) <==> forall i, j :: 0 <= i < j < |pop| ==> !Less(pop, j, i)
  {
    if forall i, j :: 0 <= i < j < |pop| ==> !Less(pop, j, i) {
      forall i, j | 0 <= i < j < |pop|
        ensures pop[i].fitness >= pop[j].fitness
      {
        assert !Less(pop, j, i);
      }
    }
  }

  /** After sorting, the first individual is a fittest one. */
  lemma SortedHeadIsFittest(pop: seq<Individual>)
    requires SortedByFitness(pop) && |pop| > 0
    ensures forall i :: 0 <= i < |pop| ==> pop[i].fitness <= pop[0].fitness
  {
  }

  /** `sort.Sort(ByFitness(population))`. Only its postcondition is part of
      the model: the population ends as a descending permutation of itself.
      The insertion sort below is one implementation meeting it. */
  method SortByFitness(population: array<Individual>)
    modifies population
    ensures SortedByFitness(population[..])
    ensures multiset(population[..]) == old(multiset(population[..]))
  {
    for i := 0 to population.Length
      invariant SortedByFitness(population[..i])
      invariant multiset(population[..]) == old(multiset(population[..]))
    {
      Insert(population, i);
    }
  }

  /** One insertion step: moves `population[i]` left past every strictly
      less fit individual, so that the prefix `[0, i]` is sorted. */
  method Insert(population: array<Individual>, i: int)
    requires 0 <= i < population.Length && SortedByFitness(population[..i])
    modifies population
    ensures SortedByFitness(population[..i + 1])
    ensures multiset(population[..]) == old(multiset(population[..]))
  {
    var j := i;
    while j > 0 && population[j].fitness > population[j - 1].fitness
      invariant 0 <= j <= i
      invariant forall a, b :: 0 <= a < b <= i && a != j && b != j ==> population[a].fitness >= population[b].fitness
      invariant forall b :: j < b <= i ==> population[j].fitness > population[b].fitness
      invariant multiset(population[..]) == old(multiset(population[..]))
    {
      Swap(population, j - 1, j);
      j := j - 1;
    }
  }

  /** `ByFitness.Swap`: exchanges the individuals at any two indices. */
  method Swap(population: array<Individual>, i: int, j: int)
    requires 0 <= i < population.Length && 0 <= j < population.Length
    modifies population
    ensures population[..] == old(population[..])[i := old(population[j])][j := old(population[i])]
    ensures multiset(population[..]) == old(multiset(population[..]))
  {
    population[i], population[j] := population[j], population[i];
  }

  /** Sum of the fitness values, as the generation loop accumulates them. */
  function SumFitness(pop: seq<Individual>): int {
    if pop == [] then 0 else SumFitness(pop[..|pop| - 1]) + pop[|pop| - 1].fitness
  }

  /** Go's integer division, which truncates toward zero. */
  function GoDiv(a: int, b: int): (q: int)
    requires b > 0
    ensures a >= 0 ==> 0 <= q && q * b <= a < q * b + b
    ensures a < 0 ==> q <= 0 && q * b - b < a <= q * b
  {
    if a >= 0 then
      Quotient(a, b);
      a / b
    else
      Quotient(-a, b);
      -((-a) / b)
  }

  /** `averageFitness := totalFitness / len(population)`. */
  method AverageFitness(population: array<Individual>) returns (average: int)
    requires population.Length > 0
    ensures average == GoDiv(SumFitness(population[..]), population.Length)
  {
    var totalFitness := 0;
    for i := 0 to population.Length
      invariant totalFitness == SumFitness(population[..i])
    {
      assert population[..i + 1][..i] == population[..i];
      totalFitness := totalFitness + population[i].fitness;
    }
    assert population[..population.Length] == population[..];
    average := GoDiv(totalFitness, population.Length);
  }

  /** Fitness values in `[lo, hi]` sum to between `n*lo` and `n*hi`. */
  lemma {:induction false} SumFitnessBounds(pop: seq<Individual>, lo: int, hi: int)
    requires forall i :: 0 <= i < |pop| ==> lo <= pop[i].fitness <= hi
    ensures |pop| * lo <= SumFitness(pop) <= |pop| * hi
  {
    if pop != [] {
      SumFitnessBounds(pop[..|pop| - 1], lo, hi);
    }
  }

  /** With fitness values in [0, 10000] and sorted, the average lies
      between 0 and the best fitness. */
  lemma AverageAtMostBest(pop: seq<Individual>)
    requires |pop| > 0 && SortedByFitness(pop)
    requires forall i :: 0 <= i < |pop| ==> 0 <= pop[i].fitness <= 10000
    ensures 0 <= GoDiv(SumFitness(pop), |pop|) <= pop[0].fitness
  {
    SumFitnessBounds(pop, 0, pop[0].fitness);
    QuotientAtMost(SumFitness(pop), |pop|, pop[0].fitness);
  }

  lemma QuotientAtMost(s: int, n: int, m: int)
    requires 0 < n && 0 <= s <= n * m
    ensures 0 <= GoDiv(s, n) <= m
  {
    var q := GoDiv(s, n);
    MulMonotone(q, m, n);
  }

  /** What the generation loop decides after sorting. */
  datatype Outcome = Outcome(best: int, snapshot: bool)

  /** The best-score update: a snapshot is taken, and the best score moves
      up to the top fitness, exactly when the top fitness beats it. */
  function UpdateBest(bestScore: int, top: int): (o: Outcome)
    ensures o.snapshot <==> top > bestScore
    ensures o.best >= bestScore && o.best >= top
    ensures o.best == bestScore || o.best == top
  {
    if top > bestScore then Outcome(top, true) else Outcome(bestScore, false)
  }

  /** The best score after generations whose top fitness values were
      `tops`, starting from 0. */
  function BestAfter(tops: seq<int>): int {
    if tops == [] then 0 else UpdateBest(BestAfter(tops[..|tops| - 1]), tops[|tops| - 1]).best
  }

  /** The best score is the running maximum of the top fitness values and 0. */
  lemma {:induction false} BestAfterIsMax(tops: seq<int>)
    ensures BestAfter(tops) >= 0
    ensures forall i :: 0 <= i < |tops| ==> tops[i] <= BestAfter(tops)
    ensures BestAfter(tops) == 0 || exists i :: 0 <= i < |tops| && tops[i] == BestAfter(tops)
  {
    if tops != [] {
      var n := |tops| - 1;
      BestAfterIsMax(tops[..n]);
      if BestAfter(tops) != BestAfter(tops[..n]) {
        assert tops[n] == BestAfter(tops);
      } else if BestAfter(tops) != 0 {
        var i :| 0 <= i < n && tops[..n][i] == BestAfter(tops[..n]);
        assert tops[i] == BestAfter(tops);
      }
    }
  }

  /** The best score never decreases from one generation to a later one. */
  lemma {:induction false} BestNeverDecreases(tops: seq<int>, k: nat)
    requires k <= |tops|
    ensures BestAfter(tops[..k]) <= BestAfter(tops)
    decreases |tops| - k
  {
    if k < |tops| {
      BestNeverDecreases(tops, k + 1);
      assert tops[..k + 1][..k] == tops[..k];
    } else {
      assert tops[..k] == tops;
    }
  }
}
