/** The generation loop of `main`: the initial population, then per
    generation breed (after the first), evaluate, sort, average and decide
    on a new best snapshot. The reference picture is a parameter, the
    worker pool a sequential pass and every random draw an input. */
module Evolution {
  import opened Pixels
  import opened Genes
  import opened Fitness
  import opened Breeding
  import opened Selection

  /** The initial population: `size` individuals of `genes` fresh genes each,
      fitness 0. */
  method InitialPopulation(size: nat, genes: int, maxX: int, maxY: int, draws: seq<seq<GeneDraw>>)
    returns (population: array<Individual>)
    requires |draws| == size
    requires forall i :: 0 <= i < size ==>
      |draws[i]| == (if genes > 0 then genes else 0) && ValidDraws(draws[i], maxX, maxY)
    ensures fresh(population) && population.Length == size
    ensures forall i :: 0 <= i < size ==> population[i] == Individual(GenesFrom(draws[i], maxX, maxY), 0)
    ensures WellFormed(population[..], if genes > 0 then genes else 0)
  {
    population := new Individual[size](_ => Individual([], 0));
    for i := 0 to size
      invariant forall k :: 0 <= k < i ==> population[k] == Individual(GenesFrom(draws[k], maxX, maxY), 0)
    {
      var g := RandomIndividual(genes, maxX, maxY, draws[i]);
      population[i] := Individual(g, 0);
    }
  }

  /** What the population is after the breed and fitness steps of a
      generation, before sorting. */
  function Prepared(pop: seq<Individual>, generation: int, draws: seq<ChildDraws>, original: Grid, w: nat, h: nat, g: nat): (r: seq<Individual>)
    requires IsGrid(original, w, h) && 0 < w && 0 < h && WellFormed(pop, g)
    requires generation > 0 ==> BreedDrawsFit(pop, draws, w, h)
    ensures WellFormed(r, g)
    ensures forall i :: 0 <= i < |r| ==> 0 <= r[i].fitness <= 10000
  {
    var bred := if generation > 0 then Bred(pop, draws, w, h) else pop;
    assert WellFormed(bred, g) by {
      if generation > 0 {
        BredWellFormed(pop, draws, w, h, g);
      }
    }
    Evaluated(bred, original, w, h)
  }

  /** One generation. The population ends sorted, holding exactly the
      evaluated individuals; the report and the best-score decision are
      those of the sorted population. */
  method Generation(population: array<Individual>, generation: int, bestScore: int, original: Grid, w: nat, h: nat, g: nat, draws: seq<ChildDraws>)
    returns (newBest: int, snapshot: bool, average: int)
    requires population.Length > 0 && IsGrid(original, w, h) && 0 < w && 0 < h
    requires WellFormed(population[..], g)
    requires generation > 0 ==> BreedDrawsFit(population[..], draws, w, h)
    modifies population
    ensures multiset(population[..]) == multiset(Prepared(old(population[..]), generation, draws, original, w, h, g))
    ensures SortedByFitness(population[..]) && WellFormed(population[..], g)
    ensures forall i :: 0 <= i < population.Length ==> 0 <= population[i].fitness <= 10000
    ensures Outcome(newBest, snapshot) == UpdateBest(bestScore, population[0].fitness)
    ensures average == GoDiv(SumFitness(population[..]), population.Length)
    ensures 0 <= average <= population[0].fitness
  {
    ghost var prepared := Prepared(population[..], generation, draws, original, w, h, g);
    if generation > 0 {
      BredWellFormed(population[..], draws, w, h, g);
      Breed(population, draws, w, h);
    }
    EvaluateFitness(population, original, w, h);
    assert population[..] == prepared;
    SortByFitness(population);
    MultisetKeepsFacts(prepared, population[..], g);
    average := AverageFitness(population);
    AverageAtMostBest(population[..]);
    if population[0].fitness > bestScore {
      newBest, snapshot := population[0].fitness, true;
    } else {
      newBest, snapshot := bestScore, false;
    }
  }

  /** Reordering keeps the per-individual facts a generation establishes. */
  lemma MultisetKeepsFacts(before: seq<Individual>, after: seq<Individual>, g: nat)
    requires multiset(after) == multiset(before)
    requires WellFormed(before, g)
    requires forall i :: 0 <= i < |before| ==> 0 <= before[i].fitness <= 10000
    ensures WellFormed(after, g)
    ensures forall i :: 0 <= i < |after| ==> 0 <= after[i].fitness <= 10000
  {
    forall i | 0 <= i < |after|
      ensures |after[i].genes| == g && AllDrawable(after[i].genes) && 0 <= after[i].fitness <= 10000
    {
      assert after[i] in multiset(before);
      var k :| 0 <= k < |before| && before[k] == after[i];
    }
  }

  /** Generation `j` turned population `before` into `after`: `after` is
      the bred (from generation 1 on) and evaluated `before`, sorted. */
  predicate GenerationStep(before: seq<Individual>, after: seq<Individual>, j: int, draws: seq<ChildDraws>, original: Grid, w: nat, h: nat, g: nat)
    requires IsGrid(original, w, h) && 0 < w && 0 < h
  {
    WellFormed(before, g) && (j > 0 ==> BreedDrawsFit(before, draws, w, h)) &&
    SortedByFitness(after) &&
    multiset(after) == multiset(Prepared(before, j, draws, original, w, h, g))
  }

  /** The population generation `k` of a history starts from. */
  function Before(start: seq<Individual>, pops: seq<seq<Individual>>, k: int): seq<Individual>
    requires 0 <= k <= |pops|
  {
    if k == 0 then start else pops[k - 1]
  }

  /** A run's history from population `start`: `pops[k]` is the sorted
      population after generation `k`, made from the one before it, and
      `tops[k]` is its top fitness. */
  predicate History(start: seq<Individual>, pops: seq<seq<Individual>>, tops: seq<int>, draws: seq<seq<ChildDraws>>, original: Grid, w: nat, h: nat, g: nat)
    requires IsGrid(original, w, h) && 0 < w && 0 < h
  {
    |tops| == |pops| <= |draws| &&
    forall k :: 0 <= k < |pops| ==>
      |pops[k]| == |start| > 0 && tops[k] == pops[k][0].fitness &&
      GenerationStep(Before(start, pops, k), pops[k], k, draws[k], original, w, h, g)
  }

  /** Recording one more generation extends a history. */
  lemma HistoryAppend(start: seq<Individual>, pops: seq<seq<Individual>>, tops: seq<int>, after: seq<Individual>, draws: seq<seq<ChildDraws>>, original: Grid, w: nat, h: nat, g: nat)
    requires IsGrid(original, w, h) && 0 < w && 0 < h
    requires History(start, pops, tops, draws, original, w, h, g) && |pops| < |draws|
    requires |after| == |start| > 0
    requires GenerationStep(Before(start, pops, |pops|), after, |pops|, draws[|pops|], original, w, h, g)
    ensures History(start, pops + [after], tops + [after[0].fitness], draws, original, w, h, g)
  {
    var pops': seq<seq<Individual>>, tops': seq<int> := pops + [after], tops + [after[0].fitness];
    forall k | 0 <= k < |pops'|
      ensures |pops'[k]| == |start| > 0 && tops'[k] == pops'[k][0].fitness
      ensures GenerationStep(Before(start, pops', k), pops'[k], k, draws[k], original, w, h, g)
    {
      assert Before(start, pops', k) == Before(start, pops, k);
    }
  }

  /** The generation loop: `generations` generations from `bestScore = 0`.
      The history records every generation's sorted population, each made
      from the one before; the population ends as the last of them, and the
      best score as the running maximum of their top fitness values. */
  method Run(population: array<Individual>, generations: nat, original: Grid, w: nat, h: nat, g: nat, draws: seq<seq<ChildDraws>>)
    returns (bestScore: int, ghost pops: seq<seq<Individual>>, ghost tops: seq<int>)
    requires population.Length > 0 && IsGrid(original, w, h) && 0 < w && 0 < h
    requires WellFormed(population[..], g)
    requires |draws| == generations
    requires forall j :: 0 < j < generations ==> BreedDrawsInRange(population.Length, g, draws[j], w, h)
    modifies population
    ensures |pops| == generations && History(old(population[..]), pops, tops, draws, original, w, h, g)
    ensures generations > 0 ==> population[..] == pops[generations - 1]
    ensures bestScore == BestAfter(tops)
    ensures forall j :: 0 <= j < generations ==> 0 <= tops[j] <= bestScore <= 10000
  {
    ghost var start := population[..];
    bestScore := 0;
    pops, tops := [], [];
    for j := 0 to generations
      invariant WellFormed(population[..], g) && population.Length == |start|
      invariant |pops| == j && population[..] == Before(start, pops, j)
      invariant History(start, pops, tops, draws, original, w, h, g)
      invariant bestScore == BestAfter(tops) && 0 <= bestScore <= 10000
      invariant forall k :: 0 <= k < j ==> 0 <= tops[k] <= 10000
    {
      bestScore, pops, tops := RecordGeneration(population, j, bestScore, original, w, h, g, draws, start, pops, tops);
    }
    BestAfterIsMax(tops);
  }

  /** One turn of the generation loop: runs generation `j` and records it. */
  method RecordGeneration(population: array<Individual>, j: nat, bestScore: int, original: Grid, w: nat, h: nat, g: nat,
                          draws: seq<seq<ChildDraws>>, ghost start: seq<Individual>, ghost pops: seq<seq<Individual>>, ghost tops: seq<int>)
    returns (newBest: int, ghost pops': seq<seq<Individual>>, ghost tops': seq<int>)
    requires population.Length > 0 && IsGrid(original, w, h) && 0 < w && 0 < h
    requires j < |draws| && (j > 0 ==> BreedDrawsInRange(population.Length, g, draws[j], w, h))
    requires WellFormed(population[..], g) && population.Length == |start|
    requires |pops| == j && population[..] == Before(start, pops, j)
    requires History(start, pops, tops, draws, original, w, h, g)
    requires bestScore == BestAfter(tops) && 0 <= bestScore <= 10000
    requires forall k :: 0 <= k < j ==> 0 <= tops[k] <= 10000
    modifies population
    ensures WellFormed(population[..], g)
    ensures pops' == pops + [population[..]] && tops' == tops + [population[0].fitness]
    ensures History(start, pops', tops', draws, original, w, h, g)
    ensures newBest == BestAfter(tops') && 0 <= newBest <= 10000
    ensures forall k :: 0 <= k < j + 1 ==> 0 <= tops'[k] <= 10000
  {
    if j > 0 {
      BreedDrawsInRangeFit(population[..], g, draws[j], w, h);
    }
    var snapshot, average;
    newBest, snapshot, average := Generation(population, j, bestScore, original, w, h, g, draws[j]);
    HistoryAppend(start, pops, tops, population[..], draws, original, w, h, g);
    pops' := pops + [population[..]];
    tops' := tops + [population[0].fitness];
    BestAfterAppend(tops, population[0].fitness);
  }

  /** The best score after one more generation is the update with its top fitness. */
  lemma BestAfterAppend(before: seq<int>, top: int)
    ensures BestAfter(before + [top]) == UpdateBest(BestAfter(before), top).best
  {
    assert (before + [top])[..|before|] == before;
  }
}
