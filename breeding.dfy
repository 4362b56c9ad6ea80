/** Crossover and mutation: `makeChild`, `breed` and `massiveMutate`.
    Each draw of `rand.Intn` is passed in; `ValidDraw` and the predicates
    below say which range each one lies in. */
module Breeding {
  import opened Genes

  /** Where a child's gene comes from. */
  datatype Origin = FromDad | FromMum | Fresh

  /** The three-way split of `makeChild` on a draw `c` in [0, 99). */
  function OriginOf(c: int): (o: Origin)
    ensures o == FromDad <==> c <= 49
    ensures o == Fresh <==> c == 50
    ensures o == FromMum <==> c >= 51
  {
    if c == 50 then Fresh else if c > 49 then FromMum else FromDad
  }

  /** The draws in [0, n) that pick origin `o`. */
  function DrawsBelow(o: Origin, n: nat): set<int> {
    set c | 0 <= c < n && OriginOf(c) == o
  }

  /** How many of the draws in [0, n) pick each origin. */
  function OriginCount(o: Origin, n: nat): nat {
    match o
    case FromDad => if n < 50 then n else 50
    case Fresh => if n <= 50 then 0 else 1
    case FromMum => if n <= 51 then 0 else n - 51
  }

  lemma {:induction false} DrawsBelowSize(o: Origin, n: nat)
    ensures |DrawsBelow(o, n)| == OriginCount(o, n)
  {
    if n > 0 {
      DrawsBelowSize(o, n - 1);
      OriginCountStep(o, n);
      DrawsBelowStep(o, n);
    } else {
      assert DrawsBelow(o, n) == {};
    }
  }

  /** The draws below `n` are those below `n - 1`, plus `n - 1` when it
      picks `o`. */
  lemma DrawsBelowStep(o: Origin, n: nat)
    requires n > 0
    ensures OriginOf(n - 1) == o ==> DrawsBelow(o, n) == DrawsBelow(o, n - 1) + {n - 1}
    ensures OriginOf(n - 1) == o ==> n - 1 !in DrawsBelow(o, n - 1)
    ensures OriginOf(n - 1) != o ==> DrawsBelow(o, n) == DrawsBelow(o, n - 1)
  {
  }

  /** Each further draw adds one to the count of the origin it picks. */
  lemma OriginCountStep(o: Origin, n: nat)
    requires n > 0
    ensures OriginCount(o, n) == OriginCount(o, n - 1) + if OriginOf(n - 1) == o then 1 else 0
  {
  }

  /** Of the 99 equally likely draws `rand.Intn(99)` makes, 50 inherit from
      dad (0..49), one makes a fresh gene (50) and 48 inherit from mum (51..98). */
  lemma OriginDistribution()
    ensures |DrawsBelow(FromDad, 99)| == 50
    ensures |DrawsBelow(Fresh, 99)| == 1
    ensures |DrawsBelow(FromMum, 99)| == 48
  {
    DrawsBelowSize(FromDad, 99);
    DrawsBelowSize(Fresh, 99);
    DrawsBelowSize(FromMum, 99);
  }

  /** The draws one `makeChild` call consumes: a choice in [0, 99) per gene
      position and, per position, the draws of the fresh gene made when the
      choice is 50 (ignored otherwise). Dad's genes are indexed only where
      dad is chosen, so only there must dad have a gene. */
  predicate ChildDrawsFit(cs: seq<int>, ds: seq<GeneDraw>, mum: Individual, dad: Individual, maxX: int, maxY: int) {
    |cs| == |mum.genes| && |ds| == |mum.genes| &&
    (forall i :: 0 <= i < |cs| ==> 0 <= cs[i] < 99) &&
    ValidDraws(ds, maxX, maxY) &&
    forall i :: 0 <= i < |cs| && OriginOf(cs[i]) == FromDad ==> i < |dad.genes|
  }

  /** The child `makeChild` returns: gene `i` is dad's, mum's or fresh as
      the choice for `i` says; its fitness is the zero value. */
  function Child(mum: Individual, dad: Individual, cs: seq<int>, ds: seq<GeneDraw>, maxX: int, maxY: int): (child: Individual)
    requires ChildDrawsFit(cs, ds, mum, dad, maxX, maxY)
    ensures |child.genes| == |mum.genes| && child.fitness == 0
  {
    Individual(seq(|mum.genes|, i requires 0 <= i < |mum.genes| =>
      match OriginOf(cs[i])
      case Fresh => RandomGene(ds[i], maxX, maxY)
      case FromMum => mum.genes[i]
      case FromDad => dad.genes[i]), 0)
  }

  /** Every gene of a child is its mum's gene at that position, its dad's,
      or a fresh gene in the generator's range. */
  lemma ChildGenesFromParents(mum: Individual, dad: Individual, cs: seq<int>, ds: seq<GeneDraw>, maxX: int, maxY: int, i: int)
    requires ChildDrawsFit(cs, ds, mum, dad, maxX, maxY) && 0 <= i < |mum.genes|
    ensures var g := Child(mum, dad, cs, ds, maxX, maxY).genes[i];
      g == mum.genes[i] || (i < |dad.genes| && g == dad.genes[i]) || InGeneRange(g, maxX, maxY)
  {
  }

  /** Crossing an individual with itself, with no fresh draw, copies it
      (up to the fitness, which the child starts at zero). */
  lemma SelfCrossIsCopy(p: Individual, cs: seq<int>, ds: seq<GeneDraw>, maxX: int, maxY: int)
    requires ChildDrawsFit(cs, ds, p, p, maxX, maxY)
    requires forall i :: 0 <= i < |cs| ==> cs[i] != 50
    ensures Child(p, p, cs, ds, maxX, maxY) == p.(fitness := 0)
  {
    var c := Child(p, p, cs, ds, maxX, maxY);
    assert c.genes == p.genes;
  }

  /** A child of drawable parents is drawable. */
  lemma ChildDrawable(mum: Individual, dad: Individual, cs: seq<int>, ds: seq<GeneDraw>, maxX: int, maxY: int)
    requires ChildDrawsFit(cs, ds, mum, dad, maxX, maxY)
    requires AllDrawable(mum.genes) && AllDrawable(dad.genes)
    ensures AllDrawable(Child(mum, dad, cs, ds, maxX, maxY).genes)
  {
  }

  /** `makeChild`: allocates as many genes as mum has and fills them by index. */
  method MakeChild(mum: Individual, dad: Individual, cs: seq<int>, ds: seq<GeneDraw>, maxX: int, maxY: int) returns (child: Individual)
    requires ChildDrawsFit(cs, ds, mum, dad, maxX, maxY)
    ensures child == Child(mum, dad, cs, ds, maxX, maxY)
    ensures |child.genes| == |mum.genes|
  {
    var genes := new Gene[|mum.genes|];
    for i := 0 to genes.Length
      invariant forall k :: 0 <= k < i ==> genes[k] == Child(mum, dad, cs, ds, maxX, maxY).genes[k]
    {
      var c := cs[i];
      if c == 50 {
        genes[i] := RandomGene(ds[i], maxX, maxY);
      } else if c > 49 {
        genes[i] := mum.genes[i];
      } else {
        genes[i] := dad.genes[i];
      }
    }
    child := Individual(genes[..], 0);
  }

  /** The draws for one child of `breed`: dad's index, then makeChild's draws. */
  datatype ChildDraws = ChildDraws(dad: int, choices: seq<int>, drawn: seq<GeneDraw>)

  /** `breed` makes two children per index of the fit half `[0, n/2)`; each
      dad is drawn by `rand.Intn(n/2 - 1)`, which needs `n/2 - 1 > 0`. For
      `n` of 2 or 3 no draw can exist (the program panics); for `n` below 2
      there are no children and no draws. */
  predicate BreedDrawsFit(pop: seq<Individual>, draws: seq<ChildDraws>, maxX: int, maxY: int) {
    var half := |pop| / 2;
    |draws| == 2 * half &&
    forall k :: 0 <= k < |draws| ==>
      0 <= draws[k].dad < half - 1 &&
      ChildDrawsFit(draws[k].choices, draws[k].drawn, pop[k / 2], pop[draws[k].dad], maxX, maxY)
  }

  /** Breeding draws exist only for populations of fewer than two or at
      least four individuals. */
  lemma BreedNeedsFour(pop: seq<Individual>, draws: seq<ChildDraws>, maxX: int, maxY: int)
    requires BreedDrawsFit(pop, draws, maxX, maxY)
    ensures |pop| < 2 || |pop| >= 4
  {
    if 2 <= |pop| {
      assert 0 <= draws[0].dad < |pop| / 2 - 1;
    }
  }

  /** The child in slot `k` of the new population. */
  function ChildAt(pop: seq<Individual>, draws: seq<ChildDraws>, maxX: int, maxY: int, k: int): Individual
    requires BreedDrawsFit(pop, draws, maxX, maxY) && 0 <= k < |draws|
  {
    Child(pop[k / 2], pop[draws[k].dad], draws[k].choices, draws[k].drawn, maxX, maxY)
  }

  /** The population after `breed`: slots `[0, 2*(n/2))` hold the children,
      a last odd slot keeps its individual. */
  function Bred(pop: seq<Individual>, draws: seq<ChildDraws>, maxX: int, maxY: int): (r: seq<Individual>)
    requires BreedDrawsFit(pop, draws, maxX, maxY)
    ensures |r| == |pop|
  {
    seq(|pop|, k requires 0 <= k < |pop| => if k < |draws| then ChildAt(pop, draws, maxX, maxY, k) else pop[k])
  }

  /** Children `2i` and `2i+1` both have mum `i` and a dad in `[0, n/2-2]`,
      so only the fit half reproduces; a last odd slot is untouched. */
  lemma BredParents(pop: seq<Individual>, draws: seq<ChildDraws>, maxX: int, maxY: int, k: int)
    requires BreedDrawsFit(pop, draws, maxX, maxY) && 0 <= k < |pop|
    ensures k < 2 * (|pop| / 2) ==>
      k / 2 < |pop| / 2 && 0 <= draws[k].dad <= |pop| / 2 - 2 &&
      Bred(pop, draws, maxX, maxY)[k] == Child(pop[k / 2], pop[draws[k].dad], draws[k].choices, draws[k].drawn, maxX, maxY)
    ensures k == 2 * (|pop| / 2) ==> |pop| % 2 == 1 && Bred(pop, draws, maxX, maxY)[k] == pop[k]
  {
  }

  /** Every individual has `g` drawable genes: the run's fixed gene count. */
  predicate WellFormed(pop: seq<Individual>, g: nat) {
    forall i :: 0 <= i < |pop| ==> |pop[i].genes| == g && AllDrawable(pop[i].genes)
  }

  /** Breeding keeps the gene count of every individual and keeps them drawable. */
  lemma BredWellFormed(pop: seq<Individual>, draws: seq<ChildDraws>, maxX: int, maxY: int, g: nat)
    requires BreedDrawsFit(pop, draws, maxX, maxY) && WellFormed(pop, g)
    ensures WellFormed(Bred(pop, draws, maxX, maxY), g)
  {
    var r := Bred(pop, draws, maxX, maxY);
    forall k | 0 <= k < |r|
      ensures |r[k].genes| == g && AllDrawable(r[k].genes)
    {
      if k < |draws| {
        ChildDrawable(pop[k / 2], pop[draws[k].dad], draws[k].choices, draws[k].drawn, maxX, maxY);
      }
    }
  }

  /** With every individual holding `g` genes, any draws of the right
      lengths and ranges fit: only the population size matters. */
  predicate BreedDrawsInRange(n: nat, g: nat, draws: seq<ChildDraws>, maxX: int, maxY: int) {
    |draws| == 2 * (n / 2) &&
    forall k :: 0 <= k < |draws| ==>
      0 <= draws[k].dad < n / 2 - 1 &&
      |draws[k].choices| == g && |draws[k].drawn| == g &&
      (forall i :: 0 <= i < g ==> 0 <= draws[k].choices[i] < 99) &&
      ValidDraws(draws[k].drawn, maxX, maxY)
  }

  lemma BreedDrawsInRangeFit(pop: seq<Individual>, g: nat, draws: seq<ChildDraws>, maxX: int, maxY: int)
    requires WellFormed(pop, g) && BreedDrawsInRange(|pop|, g, draws, maxX, maxY)
    ensures BreedDrawsFit(pop, draws, maxX, maxY)
  {
  }

  /** The first loop of `breed`: two children per index of the fit half,
      appended in order, read from the population as it was. */
  method MakeChildren(population: array<Individual>, draws: seq<ChildDraws>, maxX: int, maxY: int)
    returns (newPopulation: seq<Individual>)
    requires BreedDrawsFit(population[..], draws, maxX, maxY)
    ensures |newPopulation| == |draws|
    ensures forall k :: 0 <= k < |draws| ==> newPopulation[k] == ChildAt(population[..], draws, maxX, maxY, k)
  {
    ghost var pop := population[..];
    newPopulation := [];
    var i := 0;
    while i < population.Length / 2
      invariant 0 <= i <= population.Length / 2
      invariant |newPopulation| == 2 * i
      invariant forall k :: 0 <= k < 2 * i ==> newPopulation[k] == ChildAt(pop, draws, maxX, maxY, k)
    {
      var d0, d1 := draws[2 * i], draws[2 * i + 1];
      assert (2 * i) / 2 == i && (2 * i + 1) / 2 == i;
      assert ChildAt(pop, draws, maxX, maxY, 2 * i) == Child(pop[i], pop[d0.dad], d0.choices, d0.drawn, maxX, maxY);
      assert ChildAt(pop, draws, maxX, maxY, 2 * i + 1) == Child(pop[i], pop[d1.dad], d1.choices, d1.drawn, maxX, maxY);
      var c0 := MakeChild(population[i], population[d0.dad], d0.choices, d0.drawn, maxX, maxY);
      newPopulation := newPopulation + [c0];
      var c1 := MakeChild(population[i], population[d1.dad], d1.choices, d1.drawn, maxX, maxY);
      newPopulation := newPopulation + [c1];
      i := i + 1;
    }
  }

  /** `breed`: builds the children from the old population, then copies
      them over the front of the population in place. */
  method Breed(population: array<Individual>, draws: seq<ChildDraws>, maxX: int, maxY: int)
    requires BreedDrawsFit(population[..], draws, maxX, maxY)
    modifies population
    ensures population[..] == Bred(old(population[..]), draws, maxX, maxY)
  {
    ghost var pop := population[..];
    var newPopulation := MakeChildren(population, draws, maxX, maxY);
    for j := 0 to |newPopulation|
      invariant forall k :: 0 <= k < j ==> population[k] == newPopulation[k]
      invariant forall k :: j <= k < population.Length ==> population[k] == pop[k]
    {
      population[j] := newPopulation[j];
    }
    ghost var bred := Bred(pop, draws, maxX, maxY);
    forall k | 0 <= k < population.Length
      ensures population[k] == bred[k]
    {
      if k < |draws| {
        assert population[k] == newPopulation[k];
      }
    }
    assert population[..] == bred;
  }

  /** The individuals `massiveMutate` regenerates: indices `[n/4, n-1)`. */
  predicate Mutated(n: int, i: int) {
    n / 4 <= i < n - 1
  }

  /** Draws for every gene of every regenerated individual. */
  predicate MutateDrawsFit(pop: seq<Individual>, draws: seq<seq<GeneDraw>>, maxX: int, maxY: int) {
    |draws| == |pop| &&
    forall i :: 0 <= i < |pop| && Mutated(|pop|, i) ==>
      |draws[i]| == |pop[i].genes| && ValidDraws(draws[i], maxX, maxY)
  }

  /** The population after `massiveMutate`: every gene of a regenerated
      individual is fresh; its fitness is left as it was. */
  function MassMutated(pop: seq<Individual>, draws: seq<seq<GeneDraw>>, maxX: int, maxY: int): (r: seq<Individual>)
    requires MutateDrawsFit(pop, draws, maxX, maxY)
    ensures |r| == |pop|
  {
    seq(|pop|, i requires 0 <= i < |pop| =>
      if Mutated(|pop|, i) then pop[i].(genes := GenesFrom(draws[i], maxX, maxY)) else pop[i])
  }

  /** Mass mutation keeps every gene count and keeps genes drawable; the
      regenerated individuals hold only genes in the generator's range. */
  lemma MassMutatedWellFormed(pop: seq<Individual>, draws: seq<seq<GeneDraw>>, maxX: int, maxY: int, g: nat)
    requires MutateDrawsFit(pop, draws, maxX, maxY) && WellFormed(pop, g)
    ensures WellFormed(MassMutated(pop, draws, maxX, maxY), g)
    ensures forall i, j :: 0 <= i < |pop| && Mutated(|pop|, i) && 0 <= j < g ==>
      InGeneRange(MassMutated(pop, draws, maxX, maxY)[i].genes[j], maxX, maxY)
  {
  }

  /** The top quarter and the last individual are spared; with at least four
      individuals that includes the best one, at index 0. For two or three
      individuals index 0 is regenerated. */
  lemma MassMutateSpares(pop: seq<Individual>, draws: seq<seq<GeneDraw>>, maxX: int, maxY: int)
    requires MutateDrawsFit(pop, draws, maxX, maxY) && |pop| > 0
    ensures MassMutated(pop, draws, maxX, maxY)[|pop| - 1] == pop[|pop| - 1]
    ensures |pop| >= 4 ==> MassMutated(pop, draws, maxX, maxY)[0] == pop[0]
    ensures 2 <= |pop| < 4 ==> Mutated(|pop|, 0)
  {
  }

  /** `massiveMutate`: regenerates, in place, every gene of each individual
      with index in `[n/4, n-1)`. */
  method MassiveMutate(population: array<Individual>, draws: seq<seq<GeneDraw>>, maxX: int, maxY: int)
    requires MutateDrawsFit(population[..], draws, maxX, maxY)
    modifies population
    ensures population[..] == MassMutated(old(population[..]), draws, maxX, maxY)
  {
    ghost var pop := population[..];
    var n := population.Length;
    var i := n / 4;
    while i < n - 1
      invariant n / 4 <= i && (i <= n - 1 || i == n / 4)
      invariant forall k :: 0 <= k < n && !(n / 4 <= k < i) ==> population[k] == pop[k]
      invariant forall k :: n / 4 <= k < i && k < n ==> population[k] == MassMutated(pop, draws, maxX, maxY)[k]
    {
      for j := 0 to |population[i].genes|
        invariant |population[i].genes| == |pop[i].genes|
        invariant population[i].fitness == pop[i].fitness
        invariant forall m :: 0 <= m < j ==> population[i].genes[m] == RandomGene(draws[i][m], maxX, maxY)
        invariant forall m :: j <= m < |pop[i].genes| ==> population[i].genes[m] == pop[i].genes[m]
        invariant forall k :: 0 <= k < n && k != i && !(n / 4 <= k < i) ==> population[k] == pop[k]
        invariant forall k :: n / 4 <= k < i ==> population[k] == MassMutated(pop, draws, maxX, maxY)[k]
      {
        population[i] := population[i].(genes := population[i].genes[j := RandomGene(draws[i][j], maxX, maxY)]);
      }
      assert population[i].genes == GenesFrom(draws[i], maxX, maxY);
      i := i + 1;
    }
    assert population[..] == MassMutated(pop, draws, maxX, maxY);
  }
}
